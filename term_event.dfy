/** The compact terminal event value of linux_term.hpp: key events, SGR mouse
    reports, their shared modifier byte and the pure helpers that build them. */
module TermEvent {

  /** A C++ `char` on x86-64 Linux: signed 8-bit, so bytes 0x80..0xFF are
      negative. */
  type Char = x: int | -128 <= x < 128
  type U8 = x: int | 0 <= x < 0x100
  type U16 = x: int | 0 <= x < 0x1_0000

  const Esc: Char := 0x1B
  const LeftBracket: Char := '[' as int
  const LessThan: Char := '<' as int
  const Semicolon: Char := ';' as int
  const Zero: Char := '0' as int

  predicate IsDigit(c: Char) {
    '0' as int <= c <= '9' as int
  }

  /** Integral conversion to `u8`: keeps the low eight bits. */
  function ToU8(v: int): (r: U8)
    ensures (v - r) % 0x100 == 0
  {
    v % 0x100
  }

  /** Storing into a `u16` keeps the low sixteen bits. */
  function ToU16(v: int): (r: U16)
    ensures (v - r) % 0x1_0000 == 0
  {
    v % 0x1_0000
  }

  // Modifier bits, shared by event_key::modifiers and event_mouse::modifiers.
  const NoModifiers: bv8 := 0
  const Shift: bv8 := 4
  const Alt: bv8 := 8
  const Ctrl: bv8 := 16
  const Release: bv8 := 32
  const Special: bv8 := 64
  const KeyMarker: bv8 := 0x80

  /** An event. Both variants keep their modifier byte in the same slot
      (byte 7 of the 8-byte union), which is what `mods` names here. */
  datatype Event =
    | Key(code: U8, mods: bv8)
    | Mouse(x: U16, y: U16, mods: bv8)

  /** `event{}`: every byte zero. */
  const EmptyEvent: Event := Mouse(0, 0, 0)

  /** The bit predicates of `event`; they read only the shared modifier byte,
      whatever the variant: each tests one binary digit of that byte. */
  predicate IsKeyEvent(e: Event): (b: bool)
    ensures b <==> e.mods as int >= 0x80
  {
    KeyMarker & e.mods != 0
  }

  predicate IsMouseEvent(e: Event): (b: bool)
    ensures b <==> e.mods as int < 0x80
  {
    !IsKeyEvent(e)
  }

  predicate AltPressed(e: Event): (b: bool)
    ensures b <==> e.mods as int % 16 >= 8
  {
    AltBit(e.mods);
    Alt & e.mods != 0
  }

  predicate CtrlPressed(e: Event): (b: bool)
    ensures b <==> e.mods as int % 32 >= 16
  {
    CtrlBit(e.mods);
    Ctrl & e.mods != 0
  }

  predicate ShiftPressed(e: Event): (b: bool)
    ensures b <==> e.mods as int % 8 >= 4
  {
    ShiftBit(e.mods);
    Shift & e.mods != 0
  }

  /** `event_key{value, mods}`: the code is the byte reinterpreted as `u8`, and
      the key marker is always added to the modifiers. */
  function KeyEvent(value: Char, mods: bv8): (e: Event)
    ensures e.Key? && IsKeyEvent(e)
    ensures e.code == (if value < 0 then value + 0x100 else value)
    ensures e.mods == mods | KeyMarker
    ensures e.mods & !KeyMarker == mods & !KeyMarker
  {
    Key(ToU8(value), mods | KeyMarker)
  }

  /** `event_key | modifiers`: the modifiers are or-ed into the key's byte. */
  function WithModifiers(e: Event, m: bv8): (r: Event)
    requires e.Key?
    ensures r.Key? && r.code == e.code
    ensures r.mods & m == m && r.mods & !m == e.mods & !m
  {
    Key(e.code, e.mods | m)
  }

  const ArrowUp: Event := KeyEvent('A' as int, Special)
  const ArrowDown: Event := KeyEvent('B' as int, Special)
  const ArrowRight: Event := KeyEvent('C' as int, Special)
  const ArrowLeft: Event := KeyEvent('D' as int, Special)

  predicate IsArrowLetter(c: Char) {
    'A' as int <= c <= 'D' as int
  }

  /** The arrow constant that `event_stream` pairs with a final letter A..D. */
  function ArrowFor(c: Char): (e: Event)
    requires IsArrowLetter(c)
    ensures e.Key? && e.code == c && e.mods == Special | KeyMarker
    ensures IsKeyEvent(e) && !AltPressed(e) && !CtrlPressed(e) && !ShiftPressed(e)
  {
    if c == 'A' as int then ArrowUp
    else if c == 'B' as int then ArrowDown
    else if c == 'C' as int then ArrowRight
    else ArrowLeft
  }

  const UpperBoundCtrlCharacters := 32

  /** from_character: a byte below 32 (which, `char` being signed, includes
      every byte from 0x80 up) is read as Ctrl plus the letter it abbreviates. */
  function FromCharacter(c: Char, mod: bv8): (e: Event)
    ensures e.Key? && IsKeyEvent(e)
    ensures CtrlPressed(e) <==> c < UpperBoundCtrlCharacters || Ctrl & mod != 0
    ensures AltPressed(e) <==> Alt & mod != 0
    ensures ShiftPressed(e) <==> Shift & mod != 0
    ensures c >= UpperBoundCtrlCharacters ==> e.code == c
    ensures 0 <= c < UpperBoundCtrlCharacters ==> e.code == c + 'a' as int - 1
    ensures c < 0 ==> e.code == (c + 'a' as int - 1) % 0x100
    ensures e.mods == (if c < UpperBoundCtrlCharacters then mod | Ctrl else mod) | KeyMarker
  {
    if c < UpperBoundCtrlCharacters then
      CtrlLetter(c);
      MarkerKeepsModifiers(mod | Ctrl);
      KeyEvent((c + 'a' as int - 1 + 0x80) % 0x100 - 0x80, mod | Ctrl)
    else
      MarkerKeepsModifiers(mod);
      KeyEvent(c, mod)
  }

  /** Ctrl-D, written `event_key{'d'} | Ctrl`, is what a plain read of byte
      4 gives, and no other byte. */
  lemma CtrlD(c: Char)
    ensures FromCharacter(c, NoModifiers) == WithModifiers(KeyEvent('d' as int, NoModifiers), Ctrl) <==> c == 4
  {
  }

  /** `(char)(c + 'a' - 1)` for a byte c below 32, read back as `u8`. */
  lemma CtrlLetter(c: Char)
    requires c < UpperBoundCtrlCharacters
    ensures var v := (c + 'a' as int - 1 + 0x80) % 0x100 - 0x80;
      && -128 <= v < 128
      && (if v < 0 then v + 0x100 else v) == (c + 'a' as int - 1) % 0x100
      && (if v < 0 then v + 0x100 else v) == (if c < 1 - 'a' as int then c + 'a' as int - 1 + 0x100 else c + 'a' as int - 1)
  {
  }

  /** The Shift, Alt and Ctrl bits, read on the byte as a number. */
  lemma ShiftBit(m: bv8)
    ensures Shift & m != 0 <==> m as int % 8 >= 4
  {
  }

  lemma AltBit(m: bv8)
    ensures Alt & m != 0 <==> m as int % 16 >= 8
  {
  }

  lemma CtrlBit(m: bv8)
    ensures Ctrl & m != 0 <==> m as int % 32 >= 16
  {
  }

  /** Adding the key marker leaves the Shift, Alt and Ctrl bits as they were. */
  lemma MarkerKeepsModifiers(m: bv8)
    ensures Shift & (m | KeyMarker) != 0 <==> Shift & m != 0
    ensures Alt & (m | KeyMarker) != 0 <==> Alt & m != 0
    ensures Ctrl & (m | KeyMarker) != 0 <==> Ctrl & m != 0
  {
  }

  /** parse_mouse: the first parameter becomes the modifier byte (the enum is
      `u8`-based, so it is truncated to eight bits), the next two the position. */
  function ParseMouse(numbers: seq<U16>, mods: bv8): (e: Event)
    requires |numbers| >= 3
    ensures e.Mouse? && e.x == numbers[1] && e.y == numbers[2]
    ensures e.mods == mods | ToU8(numbers[0]) as bv8
  {
    Mouse(numbers[1], numbers[2], mods | ToU8(numbers[0]) as bv8)
  }

  /** The xterm function-key modifier parameter, looked up after conversion to
      the `u8`-based funckey_modifiers enum (so only its low byte matters). */
  function FunctionKeyModifiers(n: U16): (r: bv8)
    ensures r & !(Shift | Alt | Ctrl) == 0
    ensures r == NoModifiers <==> !(2 <= ToU8(n) <= 8)
  {
    match ToU8(n)
    case 2 => Shift
    case 3 => Alt
    case 4 => Shift | Alt
    case 5 => Ctrl
    case 6 => Shift | Ctrl
    case 7 => Alt | Ctrl
    case 8 => Shift | Alt | Ctrl
    case _ => NoModifiers
  }

  /** parse_function_key: replace the code of `base` and add the modifiers the
      parameter selects; bits already in `base` are kept. */
  function ParseFunctionKey(c: Char, base: Event, n: U16): (e: Event)
    requires base.Key?
    ensures e.Key? && e.code == ToU8(c)
    ensures e.mods == base.mods | FunctionKeyModifiers(n)
  {
    base.(code := ToU8(c), mods := base.mods | FunctionKeyModifiers(n))
  }

  /** event_mouse::button() as the source writes it: it toggles the Release
      bit with an XOR rather than clearing it. */
  function ButtonAsWritten(e: Event): (b: bv8)
    requires e.Mouse?
    ensures b ^ Release == e.mods
  {
    e.mods ^ Release
  }

  /** The button code with the Release fold undone by clearing the bit. */
  function Button(e: Event): (b: bv8)
    requires e.Mouse?
    ensures b & Release == 0
    ensures b | (e.mods & Release) == e.mods
  {
    e.mods & !Release
  }

  /** The function-key table agrees with xterm's encoding: the parameter minus
      one is a bit mask with 1 = Shift, 2 = Alt, 4 = Ctrl; other values add
      nothing. */
  lemma FunctionKeyTableIsXtermMask(n: U16)
    ensures var k := ToU8(n);
      if 2 <= k <= 8 then
        && (Shift & FunctionKeyModifiers(n) != 0 <==> (k - 1) % 2 == 1)
        && (Alt & FunctionKeyModifiers(n) != 0 <==> (k - 1) / 2 % 2 == 1)
        && (Ctrl & FunctionKeyModifiers(n) != 0 <==> (k - 1) / 4 % 2 == 1)
        && FunctionKeyModifiers(n) & !(Shift | Alt | Ctrl) == 0
      else FunctionKeyModifiers(n) == NoModifiers
  {
  }

  /** An arrow decoded with modifier parameter n keeps its letter and the
      Special bit, and has exactly the Shift/Alt/Ctrl bits the table gives. */
  lemma ModifiedArrow(c: Char, n: U16)
    requires IsArrowLetter(c)
    ensures var e := ParseFunctionKey(c, ArrowFor(c), n);
      && e == Key(c, Special | KeyMarker | FunctionKeyModifiers(n))
      && IsKeyEvent(e) && Special & e.mods != 0
      && (ShiftPressed(e) <==> Shift & FunctionKeyModifiers(n) != 0)
      && (AltPressed(e) <==> Alt & FunctionKeyModifiers(n) != 0)
      && (CtrlPressed(e) <==> Ctrl & FunctionKeyModifiers(n) != 0)
  {
  }

  /** A mouse report is classified as a mouse event exactly when its button
      code (truncated to eight bits) is below 128: `is_key_event` reads only
      the marker bit, which a code of 128 or more also sets. */
  lemma MouseClassification(numbers: seq<U16>, release: bool)
    requires |numbers| >= 3
    ensures var e := ParseMouse(numbers, if release then Release else NoModifiers);
      IsMouseEvent(e) <==> ToU8(numbers[0]) < 0x80
  {
    var b := ToU8(numbers[0]) as bv8;
    assert KeyMarker & b != 0 <==> ToU8(numbers[0]) >= 0x80;
  }

  /** For a release report whose code has no Release bit, `button()` as
      written gives the code back. */
  lemma ReleaseButtonRoundTrip(numbers: seq<U16>)
    requires |numbers| >= 3
    requires ToU8(numbers[0]) as bv8 & Release == 0
    ensures ButtonAsWritten(ParseMouse(numbers, Release)) == ToU8(numbers[0]) as bv8
  {
  }

  /** `button()` as written on a press report: the XOR sets the Release bit
      instead of leaving the code alone, so a plain left press
      (`ESC [ < 0 ; 10 ; 20 M`) reads back as 32, not Left (0). */
  lemma PressButtonAsWritten(numbers: seq<U16>)
    requires |numbers| >= 3
    ensures ButtonAsWritten(ParseMouse(numbers, NoModifiers)) == ToU8(numbers[0]) as bv8 ^ Release
    ensures numbers[0] == 0 ==> ButtonAsWritten(ParseMouse(numbers, NoModifiers)) == 32
  {
  }

  /** With the fold undone by clearing the bit, press and release reports both
      give back the code they carried, and the Release bit tells them apart. */
  lemma ButtonRoundTrip(numbers: seq<U16>, release: bool)
    requires |numbers| >= 3
    requires ToU8(numbers[0]) as bv8 & Release == 0
    ensures var e := ParseMouse(numbers, if release then Release else NoModifiers);
      && Button(e) == ToU8(numbers[0]) as bv8
      && (Release & e.mods != 0 <==> release)
  {
  }

  /** A run of bytes with no ESC in it. */
  predicate NoEscape(s: seq<Char>) {
    forall i | 0 <= i < |s| :: s[i] != Esc
  }

  predicate AllDigits(ds: seq<Char>) {
    forall i | 0 <= i < |ds| :: IsDigit(ds[i])
  }

  /** The decimal digits of n, most significant first, as a terminal sends a
      numeric parameter. */
  function Decimal(n: nat): (ds: seq<Char>)
    ensures |ds| > 0 && AllDigits(ds)
  {
    if n < 10 then [Zero + n] else Decimal(n / 10) + [Zero + n % 10]
  }

  /** `v = v * 10 + (c - '0')` stored back into a `u16`, over a run of digits:
      the accumulation both parsers use. */
  function AccumulateU16(v: U16, ds: seq<Char>): U16
    requires AllDigits(ds)
    decreases |ds|
  {
    if ds == [] then v else AccumulateU16(ToU16(v * 10 + (ds[0] - Zero)), ds[1..])
  }

  lemma {:induction false} AccumulateSnoc(v: U16, ds: seq<Char>, d: Char)
    requires AllDigits(ds) && IsDigit(d)
    ensures AllDigits(ds + [d])
    ensures AccumulateU16(v, ds + [d]) == ToU16(AccumulateU16(v, ds) * 10 + (d - Zero))
    decreases |ds|
  {
    if ds != [] {
      assert (ds + [d])[1..] == ds[1..] + [d];
      AccumulateSnoc(ToU16(v * 10 + (ds[0] - Zero)), ds[1..], d);
    }
  }

  lemma ModTimesTenPlus(a: nat, b: nat)
    ensures (a % 0x1_0000 * 10 + b) % 0x1_0000 == (a * 10 + b) % 0x1_0000
  {
    var q, r := a / 0x1_0000, a % 0x1_0000;
    assert a * 10 + b == (r * 10 + b) + q * 10 * 0x1_0000;
  }

  /** Reading the decimal digits of n into a `u16` gives n modulo 2^16. */
  lemma {:induction false} AccumulateDecimal(n: nat)
    ensures AccumulateU16(0, Decimal(n)) == n % 0x1_0000
  {
    if n >= 10 {
      AccumulateSnoc(0, Decimal(n / 10), Zero + n % 10);
      AccumulateDecimal(n / 10);
      ModTimesTenPlus(n / 10, n % 10);
    }
  }
}
