/** The escape-sequence parser inside `event_stream` (linux_term.hpp): one read
    buffer in, the events it completes out, or the protocol error that ends
    the stream. */
module EventParser {
  import opened TermEvent
  import opened Wrappers

  datatype Phase =
    | ExpectingFirst
    | ExpectingControlCharacter
    | ExpectingControlSequence
    | ParsingNumber

  const ParamSlots := 4

  /** The parse state of one buffer: the phase, the `num_parameters` slots and
      the slot `current_param` points at. */
  datatype Machine = Machine(phase: Phase, params: seq<U16>, cur: nat)

  /** Four slots, the cursor on one of them, and every slot past the cursor
      still zero (the cursor only moves forward between resets). */
  predicate Valid(m: Machine) {
    && |m.params| == ParamSlots
    && m.cur < ParamSlots
    && forall k | m.cur < k < ParamSlots :: m.params[k] == 0
  }

  /** The state at the start of every buffer and after every `reset`. */
  const Initial: Machine := Machine(ExpectingFirst, [0, 0, 0, 0], 0)

  /** The three `assert`s of the numeric phase; the model reports them instead
      of aborting. */
  datatype AssertionFailure =
    | MoreThanFourParameters
    | MouseNeedsThreeValues
    | UnknownArrowSequence

  /** What ends the stream: the two exceptions, or a failed assertion. */
  datatype Failure =
    | InvalidSequenceStart(c: Char)
    | UnfinishedNumericSequence(values: seq<U16>, terminator: Char)
    | AssertionFailed(check: AssertionFailure)

  datatype End = Consumed | Failed(failure: Failure)

  /** The events yielded, in order, and how the processing ended. */
  datatype Outcome = Outcome(events: seq<Event>, end: End)

  datatype StepResult =
    | Continue(next: Machine, emitted: seq<Event>)
    | Stop(failure: Failure)

  /** One pass of the `switch (state)` on byte c. */
  function Step(m: Machine, c: Char): (r: StepResult)
    requires Valid(m)
    ensures r.Continue? ==> Valid(r.next) && |r.emitted| <= 1
    ensures r.Continue? && r.emitted != [] ==> r.next == Initial
  {
    match m.phase
    case ExpectingFirst =>
      if c == Esc then Continue(m.(phase := ExpectingControlCharacter), [])
      else Continue(Initial, [FromCharacter(c, NoModifiers)])
    case ExpectingControlCharacter =>
      if c == LeftBracket then Continue(m.(phase := ExpectingControlSequence), [])
      else Continue(Initial, [FromCharacter(c, Alt)])
    case ExpectingControlSequence =>
      if IsDigit(c) then
        Continue(m.(phase := ParsingNumber, params := m.params[m.cur := c - Zero]), [])
      else if c == LessThan then Continue(m.(phase := ParsingNumber), [])
      else if IsArrowLetter(c) then Continue(Initial, [ArrowFor(c)])
      else Stop(InvalidSequenceStart(c))
    case ParsingNumber =>
      if IsDigit(c) then
        Continue(m.(params := m.params[m.cur := ToU16(m.params[m.cur] * 10 + (c - Zero))]), [])
      else if c == Semicolon then
        if m.cur + 1 < ParamSlots then Continue(m.(cur := m.cur + 1), [])
        else Stop(AssertionFailed(MoreThanFourParameters))
      else if c == 'm' as int || c == 'M' as int then
        if m.cur == 2 then
          Continue(Initial, [ParseMouse(m.params, if c == 'm' as int then Release else NoModifiers)])
        else Stop(AssertionFailed(MouseNeedsThreeValues))
      else if IsArrowLetter(c) then
        if m.params[0] == 1 && m.cur == 1 then
          Continue(Initial, [ParseFunctionKey(c, ArrowFor(c), m.params[1])])
        else Stop(AssertionFailed(UnknownArrowSequence))
      else Stop(UnfinishedNumericSequence(m.params[..m.cur + 1], c))
  }

  /** At the end of a buffer only a pending `ESC [` is delivered, as Alt+'['. */
  function Flush(m: Machine): (r: seq<Event>)
    ensures r != [] <==> m.phase == ExpectingControlSequence
    ensures r != [] ==> r == [Key(LeftBracket, Alt | KeyMarker)]
  {
    if m.phase == ExpectingControlSequence then [FromCharacter(LeftBracket, Alt)] else []
  }

  function Prepend(events: seq<Event>, o: Outcome): Outcome {
    Outcome(events + o.events, o.end)
  }

  /** The rest s of a buffer, processed from state m. */
  function Run(m: Machine, s: seq<Char>): Outcome
    requires Valid(m)
    decreases |s|
  {
    if s == [] then Outcome(Flush(m), Consumed)
    else
      match Step(m, s[0])
      case Stop(f) => Outcome([], Failed(f))
      case Continue(next, out) => Prepend(out, Run(next, s[1..]))
  }

  /** What one read buffer decodes to; the state is created afresh for it. */
  function Decode(buffer: seq<Char>): Outcome {
    Run(Initial, buffer)
  }

  lemma RunCons(m: Machine, c: Char, rest: seq<Char>)
    requires Valid(m)
    ensures Step(m, c).Stop? ==> Run(m, [c] + rest) == Outcome([], Failed(Step(m, c).failure))
    ensures Step(m, c).Continue? ==>
      Run(m, [c] + rest) == Prepend(Step(m, c).emitted, Run(Step(m, c).next, rest))
  {
    assert ([c] + rest)[0] == c && ([c] + rest)[1..] == rest;
  }

  /** A byte that moves the state without yielding anything. */
  lemma Silent(m: Machine, c: Char, rest: seq<Char>, next: Machine)
    requires Valid(m) && Step(m, c) == Continue(next, [])
    ensures Run(m, [c] + rest) == Run(next, rest)
  {
    RunCons(m, c, rest);
    assert [] + Run(next, rest).events == Run(next, rest).events;
  }

  lemma PrependTwice(a: seq<Event>, b: seq<Event>, o: Outcome)
    ensures Prepend(a, Prepend(b, o)) == Prepend(a + b, o)
  {
  }

  /** The `reset` lambda's walk over the parameters: zero the slot under the
      cursor, then step the cursor back to the first slot, zeroing as it goes. */
  method ZeroParameters(params: array<U16>, cur: nat) returns (first: nat)
    requires cur < params.Length
    modifies params
    ensures first == 0
    ensures forall k | 0 <= k <= cur :: params[k] == 0
    ensures forall k | cur < k < params.Length :: params[k] == old(params[k])
  {
    first := cur;
    params[first] := 0;
    while first != 0
      invariant first <= cur
      invariant forall k | first <= k <= cur :: params[k] == 0
      invariant forall k | cur < k < params.Length :: params[k] == old(params[k])
    {
      first := first - 1;
      params[first] := 0;
    }
  }

  /** One pass of the `switch (state)` on byte c: the phase, cursor and
      control character it leaves, the event it yields, or the exception it
      throws. The parameter slots are updated in place. */
  method Dispatch(state: Phase, numParameters: array<U16>, currentParam: nat, controlCharacter: Char, c: Char)
    returns (newState: Phase, newParam: nat, newControl: Char, result: Event, yielded: bool, failure: Option<Failure>)
    requires numParameters.Length == ParamSlots
    requires Valid(Machine(state, numParameters[..], currentParam))
    requires state == ExpectingControlSequence ==> controlCharacter == LeftBracket
    modifies numParameters
    ensures Valid(Machine(newState, numParameters[..], newParam))
    ensures newState == ExpectingControlSequence ==> newControl == LeftBracket
    ensures var step := Step(Machine(state, old(numParameters[..]), currentParam), c);
      && (step.Stop? <==> failure.Some?)
      && (step.Stop? ==> failure.value == step.failure)
      && (step.Continue? ==> step.emitted == if yielded then [result] else [])
      && (step.Continue? && !yielded ==> step.next == Machine(newState, numParameters[..], newParam))
  {
    newState, newParam, newControl := state, currentParam, controlCharacter;
    result, yielded, failure := EmptyEvent, false, None;
    match state {
      case ExpectingFirst =>
        if c == Esc {
          newState := ExpectingControlCharacter;
        } else {
          result := FromCharacter(c, NoModifiers);
          yielded := true;
        }
      case ExpectingControlCharacter =>
        if c == LeftBracket {
          newState := ExpectingControlSequence;
          newControl := c;
        } else {
          result := FromCharacter(c, Alt);
          yielded := true;
        }
      case ExpectingControlSequence =>
        if IsDigit(c) {
          newState := ParsingNumber;
          numParameters[currentParam] := c - Zero;
        } else if c == LessThan {
          newState := ParsingNumber;
        } else if c == 'A' as int {
          result, yielded := ArrowUp, true;
        } else if c == 'B' as int {
          result, yielded := ArrowDown, true;
        } else if c == 'C' as int {
          result, yielded := ArrowRight, true;
        } else if c == 'D' as int {
          result, yielded := ArrowLeft, true;
        } else {
          failure := Some(InvalidSequenceStart(c));
        }
      case ParsingNumber =>
        if IsDigit(c) {
          numParameters[currentParam] := ToU16(numParameters[currentParam] * 10 + (c - Zero));
        } else if c == Semicolon {
          if currentParam + 1 < ParamSlots {
            newParam := currentParam + 1;
          } else {
            failure := Some(AssertionFailed(MoreThanFourParameters));
          }
        } else if c == 'm' as int || c == 'M' as int {
          if currentParam == 2 {
            result := ParseMouse(numParameters[..], if c == 'm' as int then Release else NoModifiers);
            yielded := true;
          } else {
            failure := Some(AssertionFailed(MouseNeedsThreeValues));
          }
        } else if IsArrowLetter(c) {
          if numParameters[0] == 1 && currentParam == 1 {
            result := ParseFunctionKey(c, ArrowFor(c), numParameters[1]);
            yielded := true;
          } else {
            failure := Some(AssertionFailed(UnknownArrowSequence));
          }
        } else {
          failure := Some(UnfinishedNumericSequence(numParameters[..currentParam + 1], c));
        }
    }
  }

  /** Taking one byte off the rest of a buffer: either the stream ends with
      the events so far, or the byte's events join them and the run goes on
      from the next state. */
  lemma Consume(d: Outcome, events: seq<Event>, m: Machine, c: Char, rest: seq<Char>)
    requires Valid(m) && d == Prepend(events, Run(m, [c] + rest))
    ensures Step(m, c).Stop? ==> d == Outcome(events, Failed(Step(m, c).failure))
    ensures Step(m, c).Continue? ==>
      d == Prepend(events + Step(m, c).emitted, Run(Step(m, c).next, rest))
  {
    RunCons(m, c, rest);
    if Step(m, c).Stop? {
      assert events + [] == events;
    } else {
      PrependTwice(events, Step(m, c).emitted, Run(Step(m, c).next, rest));
    }
  }

  /** The body of `event_stream` for one read buffer: the parse loop over a
      fixed four-slot parameter array and a moving cursor into it. */
  method ParseBuffer(buffer: seq<Char>) returns (events: seq<Event>, end: End)
    ensures Outcome(events, end) == Decode(buffer)
  {
    var state := ExpectingFirst;
    var current := 0;
    var controlCharacter: Char := 0;
    var numParameters := new U16[ParamSlots](_ => 0);
    var currentParam: nat := 0;
    var result := EmptyEvent;
    events := [];
    assert numParameters[..] == [0, 0, 0, 0];
    while current < |buffer|
      invariant 0 <= current <= |buffer|
      invariant numParameters.Length == ParamSlots
      invariant state == ExpectingControlSequence ==> controlCharacter == LeftBracket
      invariant Valid(Machine(state, numParameters[..], currentParam))
      invariant Decode(buffer)
                == Prepend(events, Run(Machine(state, numParameters[..], currentParam), buffer[current..]))
    {
      var c := buffer[current];
      ghost var step := Step(Machine(state, numParameters[..], currentParam), c);
      assert buffer[current..] == [c] + buffer[current + 1..];
      Consume(Decode(buffer), events, Machine(state, numParameters[..], currentParam), c, buffer[current + 1..]);
      current := current + 1;
      var yielded, failure;
      state, currentParam, controlCharacter, result, yielded, failure :=
        Dispatch(state, numParameters, currentParam, controlCharacter, c);
      if failure.Some? {
        end := Failed(failure.value);
        return;
      }
      if yielded {
        events := events + [result];
        // reset()
        state := ExpectingFirst;
        currentParam := ZeroParameters(numParameters, currentParam);
        result := EmptyEvent;
        assert numParameters[..] == [0, 0, 0, 0];
      } else {
        assert events + step.emitted == events;
      }
    }
    if state == ExpectingControlSequence {
      result := FromCharacter(controlCharacter, Alt);
      events := events + [result];
    }
    end := Consumed;
  }

  /** A byte other than ESC is a key by itself, and the state is back at its
      start for the rest of the buffer. */
  lemma PlainByte(c: Char, rest: seq<Char>)
    requires c != Esc
    ensures Decode([c] + rest) == Prepend([FromCharacter(c, NoModifiers)], Decode(rest))
  {
    RunCons(Initial, c, rest);
  }

  /** ESC followed by anything but '[' is that byte's key with Alt. */
  lemma AltByte(c: Char, rest: seq<Char>)
    requires c != LeftBracket
    ensures Decode([Esc, c] + rest) == Prepend([FromCharacter(c, Alt)], Decode(rest))
  {
    RunCons(Initial, Esc, [c] + rest);
    assert [Esc, c] + rest == [Esc] + ([c] + rest);
    RunCons(Initial.(phase := ExpectingControlCharacter), c, rest);
  }

  /** `ESC [` then A, B, C or D is the plain arrow for that letter. */
  lemma PlainArrow(c: Char, rest: seq<Char>)
    requires IsArrowLetter(c)
    ensures Decode([Esc, LeftBracket, c] + rest) == Prepend([ArrowFor(c)], Decode(rest))
  {
    assert [Esc, LeftBracket, c] + rest == [Esc] + ([LeftBracket] + ([c] + rest));
    RunCons(Initial, Esc, [LeftBracket] + ([c] + rest));
    RunCons(Initial.(phase := ExpectingControlCharacter), LeftBracket, [c] + rest);
    RunCons(Initial.(phase := ExpectingControlSequence), c, rest);
  }

  /** After `ESC [`, a byte that is not a digit, '<' or A..D raises
      invalid_sequence_start carrying that byte, and nothing is yielded. */
  lemma InvalidStart(c: Char, rest: seq<Char>)
    requires !IsDigit(c) && c != LessThan && !IsArrowLetter(c)
    ensures Decode([Esc, LeftBracket, c] + rest) == Outcome([], Failed(InvalidSequenceStart(c)))
  {
    assert [Esc, LeftBracket, c] + rest == [Esc] + ([LeftBracket] + ([c] + rest));
    RunCons(Initial, Esc, [LeftBracket] + ([c] + rest));
    RunCons(Initial.(phase := ExpectingControlCharacter), LeftBracket, [c] + rest);
    RunCons(Initial.(phase := ExpectingControlSequence), c, rest);
  }

  /** Setting the slot under the cursor of a valid state keeps it valid. */
  function WithParam(m: Machine, v: U16): (r: Machine)
    requires Valid(m)
    ensures Valid(r) && r.phase == m.phase && r.cur == m.cur
    ensures r.params[m.cur] == v
    ensures forall k | 0 <= k < ParamSlots && k != m.cur :: r.params[k] == m.params[k]
  {
    m.(params := m.params[m.cur := v])
  }

  /** A run of digits in the numeric phase accumulates into the slot under
      the cursor (wrapping at 2^16) and changes nothing else. */
  lemma {:induction false} RunDigits(m: Machine, ds: seq<Char>, rest: seq<Char>)
    requires Valid(m) && m.phase == ParsingNumber && AllDigits(ds)
    ensures Run(m, ds + rest) == Run(WithParam(m, AccumulateU16(m.params[m.cur], ds)), rest)
    decreases |ds|
  {
    if ds == [] {
      assert ds + rest == rest;
      assert WithParam(m, m.params[m.cur]) == m;
    } else {
      assert ds + rest == [ds[0]] + (ds[1..] + rest);
      RunCons(m, ds[0], ds[1..] + rest);
      var m' := WithParam(m, ToU16(m.params[m.cur] * 10 + (ds[0] - Zero)));
      assert Step(m, ds[0]) == Continue(m', []);
      RunDigits(m', ds[1..], rest);
      assert WithParam(m', AccumulateU16(m'.params[m.cur], ds[1..]))
          == WithParam(m, AccumulateU16(m.params[m.cur], ds));
    }
  }

  /** `ESC [` leads to the control-sequence phase with nothing yielded. */
  lemma ControlSequencePrefix(s: seq<Char>)
    ensures Decode([Esc, LeftBracket] + s) == Run(Initial.(phase := ExpectingControlSequence), s)
  {
    var ecc := Initial.(phase := ExpectingControlCharacter);
    assert [Esc, LeftBracket] + s == [Esc] + ([LeftBracket] + s);
    Silent(Initial, Esc, [LeftBracket] + s, ecc);
    Silent(ecc, LeftBracket, s, Initial.(phase := ExpectingControlSequence));
  }

  /** A digit in the control-sequence phase opens the numeric phase with
      that digit in the first slot. */
  lemma StartNumber(c: Char)
    requires IsDigit(c)
    ensures Step(Initial.(phase := ExpectingControlSequence), c)
         == Continue(Machine(ParsingNumber, [c - Zero, 0, 0, 0], 0), [])
  {
  }

  lemma AccumulateFirst(ds: seq<Char>)
    requires ds != [] && AllDigits(ds)
    ensures AllDigits(ds[1..]) && 0 <= ds[0] - Zero < 10
    ensures AccumulateU16(0, ds) == AccumulateU16(ds[0] - Zero, ds[1..])
  {
    var d := ds[0] - Zero;
    assert IsDigit(ds[0]) && 0 <= d < 10;
    assert AllDigits(ds[1..]) by {
      forall i | 0 <= i < |ds[1..]|
        ensures IsDigit(ds[1..][i])
      {
        assert ds[1..][i] == ds[i + 1];
      }
    }
    assert ToU16(0 * 10 + d) == d;
  }

  /** A first digit after `ESC [` starts the numeric phase with that digit in
      the first slot. */
  lemma LeadingDigits(ds: seq<Char>, rest: seq<Char>)
    requires ds != [] && AllDigits(ds)
    ensures Run(Initial.(phase := ExpectingControlSequence), ds + rest)
         == Run(Machine(ParsingNumber, [AccumulateU16(0, ds), 0, 0, 0], 0), rest)
  {
    AccumulateFirst(ds);
    var m := Machine(ParsingNumber, [ds[0] - Zero, 0, 0, 0], 0);
    var v := AccumulateU16(ds[0] - Zero, ds[1..]);
    assert Run(Initial.(phase := ExpectingControlSequence), ds + rest) == Run(m, ds[1..] + rest) by {
      assert ds + rest == [ds[0]] + (ds[1..] + rest);
      StartNumber(ds[0]);
      Silent(Initial.(phase := ExpectingControlSequence), ds[0], ds[1..] + rest, m);
    }
    RunDigits(m, ds[1..], rest);
    assert WithParam(m, v).params == [v, 0, 0, 0];
  }

  /** The state after `ESC [` and the decimal digits of n. */
  lemma FirstParameter(n: nat, rest: seq<Char>)
    ensures Valid(Machine(ParsingNumber, [ToU16(n), 0, 0, 0], 0))
    ensures Decode([Esc, LeftBracket] + Decimal(n) + rest)
         == Run(Machine(ParsingNumber, [ToU16(n), 0, 0, 0], 0), rest)
  {
    assert [Esc, LeftBracket] + Decimal(n) + rest == [Esc, LeftBracket] + (Decimal(n) + rest);
    ControlSequencePrefix(Decimal(n) + rest);
    LeadingDigits(Decimal(n), rest);
    AccumulateDecimal(n);
  }

  /** In the numeric phase, `;` and the decimal digits of n fill the next slot. */
  lemma {:induction false} NextParameter(m: Machine, n: nat, rest: seq<Char>)
    requires Valid(m) && m.phase == ParsingNumber && m.cur + 1 < ParamSlots
    ensures Run(m, [Semicolon] + Decimal(n) + rest)
         == Run(Machine(ParsingNumber, m.params[m.cur + 1 := ToU16(n)], m.cur + 1), rest)
  {
    var ds := Decimal(n);
    assert [Semicolon] + ds + rest == [Semicolon] + (ds + rest);
    RunCons(m, Semicolon, ds + rest);
    var m' := m.(cur := m.cur + 1);
    assert Step(m, Semicolon) == Continue(m', []);
    RunDigits(m', ds, rest);
    AccumulateDecimal(n);
  }

  /** `ESC [ p ; n` and a letter A..D: when p is 1 (modulo 2^16) the arrow for
      the letter with the modifiers the function-key table gives for n;
      otherwise the arrow assertion fails. */
  lemma ModifiedArrowSequence(p: nat, n: nat, c: Char, rest: seq<Char>)
    requires IsArrowLetter(c)
    ensures Decode([Esc, LeftBracket] + Decimal(p) + [Semicolon] + Decimal(n) + [c] + rest)
         == if ToU16(p) == 1 then Prepend([ParseFunctionKey(c, ArrowFor(c), ToU16(n))], Decode(rest))
            else Outcome([], Failed(AssertionFailed(UnknownArrowSequence)))
  {
    var s := [Esc, LeftBracket] + Decimal(p) + [Semicolon] + Decimal(n) + [c] + rest;
    assert s == [Esc, LeftBracket] + Decimal(p) + ([Semicolon] + Decimal(n) + ([c] + rest));
    FirstParameter(p, [Semicolon] + Decimal(n) + ([c] + rest));
    var m1 := Machine(ParsingNumber, [ToU16(p), 0, 0, 0], 0);
    NextParameter(m1, n, [c] + rest);
    var m2 := Machine(ParsingNumber, [ToU16(p), ToU16(n), 0, 0], 1);
    assert m1.params[1 := ToU16(n)] == m2.params;
    RunCons(m2, c, rest);
  }

  /** `ESC [ <` leads to the numeric phase with every slot still zero. */
  lemma MousePrefix(s: seq<Char>)
    ensures Decode([Esc, LeftBracket, LessThan] + s) == Run(Initial.(phase := ParsingNumber), s)
  {
    assert [Esc, LeftBracket, LessThan] + s == [Esc, LeftBracket] + ([LessThan] + s);
    ControlSequencePrefix([LessThan] + s);
    Silent(Initial.(phase := ExpectingControlSequence), LessThan, s, Initial.(phase := ParsingNumber));
  }

  /** Regrouping of the byte string of a mouse report: a head, three
      parameters separated by x, the terminator t and the rest. */
  lemma RegroupReport(h: seq<Char>, x: seq<Char>, a: seq<Char>, b: seq<Char>, c: seq<Char>, t: seq<Char>, rest: seq<Char>)
    ensures h + a + x + b + x + c + t + rest == h + (a + (x + b + (x + c + (t + rest))))
  {
  }

  /** The digits of b after `ESC [ <` fill the first slot. */
  lemma MouseButtonDigits(b: nat, tail: seq<Char>)
    ensures Valid(Machine(ParsingNumber, [ToU16(b), 0, 0, 0], 0))
    ensures Run(Initial.(phase := ParsingNumber), Decimal(b) + tail)
         == Run(Machine(ParsingNumber, [ToU16(b), 0, 0, 0], 0), tail)
  {
    var m0 := Initial.(phase := ParsingNumber);
    RunDigits(m0, Decimal(b), tail);
    AccumulateDecimal(b);
    assert WithParam(m0, AccumulateU16(0, Decimal(b))) == Machine(ParsingNumber, [ToU16(b), 0, 0, 0], 0);
  }

  /** From the first slot, `; x ; y` and the terminator complete a report. */
  lemma MouseCoordinates(m: Machine, x: nat, y: nat, t: Char, rest: seq<Char>)
    requires Valid(m) && m.phase == ParsingNumber && m.cur == 0
    requires t == 'm' as int || t == 'M' as int
    ensures Run(m, [Semicolon] + Decimal(x) + ([Semicolon] + Decimal(y) + ([t] + rest)))
         == Prepend([ParseMouse([m.params[0], ToU16(x), ToU16(y), 0], if t == 'm' as int then Release else NoModifiers)],
                    Decode(rest))
  {
    NextParameter(m, x, [Semicolon] + Decimal(y) + ([t] + rest));
    var m1 := Machine(ParsingNumber, m.params[1 := ToU16(x)], 1);
    NextParameter(m1, y, [t] + rest);
    var m2 := Machine(ParsingNumber, m1.params[2 := ToU16(y)], 2);
    assert m2.params == [m.params[0], ToU16(x), ToU16(y), 0];
    RunCons(m2, t, rest);
  }

  /** An SGR mouse report `ESC [ < b ; x ; y M` (press or motion) or `... m`
      (release) yields one mouse event carrying b (eight bits, with Release
      added for `m`), x and y, each read modulo 2^16. */
  lemma MouseReport(b: nat, x: nat, y: nat, release: bool, rest: seq<Char>)
    ensures var t: Char := if release then 'm' as int else 'M' as int;
      Decode([Esc, LeftBracket, LessThan] + Decimal(b) + [Semicolon] + Decimal(x)
             + [Semicolon] + Decimal(y) + [t] + rest)
      == Prepend([ParseMouse([ToU16(b), ToU16(x), ToU16(y), 0], if release then Release else NoModifiers)],
                 Decode(rest))
  {
    var t: Char := if release then 'm' as int else 'M' as int;
    var tail := [Semicolon] + Decimal(x) + ([Semicolon] + Decimal(y) + ([t] + rest));
    assert [Esc, LeftBracket, LessThan] + Decimal(b) + [Semicolon] + Decimal(x)
           + [Semicolon] + Decimal(y) + [t] + rest
        == [Esc, LeftBracket, LessThan] + (Decimal(b) + tail) by {
      RegroupReport([Esc, LeftBracket, LessThan], [Semicolon], Decimal(b), Decimal(x), Decimal(y), [t], rest);
    }
    MousePrefix(Decimal(b) + tail);
    MouseButtonDigits(b, tail);
    var m := Machine(ParsingNumber, [ToU16(b), 0, 0, 0], 0);
    MouseCoordinates(m, x, y, t, rest);
  }

  /** `ESC [ n` ended by a byte outside {digit, ';', m, M, A..D} raises
      unfinished_numeric_sequence with the one parameter read and the byte. */
  lemma UnfinishedSequence(n: nat, c: Char, rest: seq<Char>)
    requires !IsDigit(c) && c != Semicolon && c != 'm' as int && c != 'M' as int && !IsArrowLetter(c)
    ensures Decode([Esc, LeftBracket] + Decimal(n) + [c] + rest)
         == Outcome([], Failed(UnfinishedNumericSequence([ToU16(n)], c)))
  {
    var m := Machine(ParsingNumber, [ToU16(n), 0, 0, 0], 0);
    assert Decode([Esc, LeftBracket] + Decimal(n) + [c] + rest) == Run(m, [c] + rest) by {
      assert [Esc, LeftBracket] + Decimal(n) + [c] + rest == [Esc, LeftBracket] + Decimal(n) + ([c] + rest);
      FirstParameter(n, [c] + rest);
    }
    assert Step(m, c) == Stop(UnfinishedNumericSequence([ToU16(n)], c)) by {
      assert m.params[..1] == [ToU16(n)];
    }
    RunCons(m, c, rest);
  }

  /** From any state reading a number, a byte outside {digit, ';', m, M,
      A..D} raises unfinished_numeric_sequence with the parameters read so
      far (the current one included) and that byte. */
  lemma UnfinishedAnywhere(m: Machine, c: Char, rest: seq<Char>)
    requires Valid(m) && m.phase == ParsingNumber
    requires !IsDigit(c) && c != Semicolon && c != 'm' as int && c != 'M' as int && !IsArrowLetter(c)
    ensures Run(m, [c] + rest) == Outcome([], Failed(UnfinishedNumericSequence(m.params[..m.cur + 1], c)))
  {
    RunCons(m, c, rest);
  }

  /** A mouse report ended by `m` or `M` with other than three parameters
      fails the arity assertion, whatever was read before. */
  lemma MouseArity(m: Machine, c: Char, rest: seq<Char>)
    requires Valid(m) && m.phase == ParsingNumber
    requires c == 'm' as int || c == 'M' as int
    ensures Run(m, [c] + rest) == Outcome([], Failed(AssertionFailed(MouseNeedsThreeValues))) <==> m.cur != 2
  {
    RunCons(m, c, rest);
  }

  /** An arrow letter after a number is accepted only as `1;n`: any other
      parameter list fails the arrow assertion. */
  lemma UnknownArrow(m: Machine, c: Char, rest: seq<Char>)
    requires Valid(m) && m.phase == ParsingNumber && IsArrowLetter(c)
    ensures Run(m, [c] + rest) == Outcome([], Failed(AssertionFailed(UnknownArrowSequence)))
        <==> !(m.params[0] == 1 && m.cur == 1)
  {
    RunCons(m, c, rest);
  }

  /** Regrouping of the byte strings the parameter lemmas take apart: a head,
      then four parameters each after separator x, then x and the rest. */
  lemma Regroup(h: seq<Char>, x: seq<Char>, a: seq<Char>, b: seq<Char>, c: seq<Char>, d: seq<Char>, rest: seq<Char>)
    ensures h + a + x + b + x + c + x + d + x + rest == h + a + (x + b + (x + c + (x + d + (x + rest))))
  {
  }

  /** From a numeric state whose cursor is on the last slot, `;` trips the
      "more than 4" assertion. */
  lemma ParametersFull(m: Machine, rest: seq<Char>)
    requires Valid(m) && m.phase == ParsingNumber && m.cur == ParamSlots - 1
    ensures Run(m, [Semicolon] + rest) == Outcome([], Failed(AssertionFailed(MoreThanFourParameters)))
  {
    RunCons(m, Semicolon, rest);
  }

  /** From the first slot, three more parameters and a `;` trip the
      "more than 4" assertion. */
  lemma ThreeMoreParameters(m: Machine, q: nat, r: nat, n: nat, rest: seq<Char>)
    requires Valid(m) && m.phase == ParsingNumber && m.cur == 0
    ensures Run(m, [Semicolon] + Decimal(q) + ([Semicolon] + Decimal(r) + ([Semicolon] + Decimal(n) + ([Semicolon] + rest))))
         == Outcome([], Failed(AssertionFailed(MoreThanFourParameters)))
  {
    var tail3 := [Semicolon] + Decimal(n) + ([Semicolon] + rest);
    var tail2 := [Semicolon] + Decimal(r) + tail3;
    NextParameter(m, q, tail2);
    var m1 := Machine(ParsingNumber, m.params[1 := ToU16(q)], 1);
    NextParameter(m1, r, tail3);
    var m2 := Machine(ParsingNumber, m1.params[2 := ToU16(r)], 2);
    NextParameter(m2, n, [Semicolon] + rest);
    ParametersFull(Machine(ParsingNumber, m2.params[3 := ToU16(n)], 3), rest);
  }

  /** A fifth parameter trips the "more than 4" assertion. */
  lemma FifthParameter(p: nat, q: nat, r: nat, n: nat, rest: seq<Char>)
    ensures Decode([Esc, LeftBracket] + Decimal(p) + [Semicolon] + Decimal(q) + [Semicolon] + Decimal(r)
                   + [Semicolon] + Decimal(n) + [Semicolon] + rest)
         == Outcome([], Failed(AssertionFailed(MoreThanFourParameters)))
  {
    var tail1 := [Semicolon] + Decimal(q) + ([Semicolon] + Decimal(r) + ([Semicolon] + Decimal(n) + ([Semicolon] + rest)));
    assert [Esc, LeftBracket] + Decimal(p) + [Semicolon] + Decimal(q) + [Semicolon] + Decimal(r)
           + [Semicolon] + Decimal(n) + [Semicolon] + rest
        == [Esc, LeftBracket] + Decimal(p) + tail1 by {
      Regroup([Esc, LeftBracket], [Semicolon], Decimal(p), Decimal(q), Decimal(r), Decimal(n), rest);
    }
    FirstParameter(p, tail1);
    ThreeMoreParameters(Machine(ParsingNumber, [ToU16(p), 0, 0, 0], 0), q, r, n, rest);
  }

  /** A buffer that ends right after `ESC [` yields Alt+'['; one that ends
      right after a lone ESC yields nothing. */
  lemma BufferEnds()
    ensures Decode([Esc, LeftBracket]) == Outcome([FromCharacter(LeftBracket, Alt)], Consumed)
    ensures Decode([Esc]) == Outcome([], Consumed)
  {
    RunCons(Initial, Esc, [LeftBracket]);
    RunCons(Initial.(phase := ExpectingControlCharacter), LeftBracket, []);
    RunCons(Initial, Esc, []);
  }

  /** A buffer without ESC decodes byte for byte into keys. */
  lemma {:induction false} PlainText(s: seq<Char>)
    requires NoEscape(s)
    ensures Decode(s).end == Consumed
    ensures |Decode(s).events| == |s|
    ensures forall i | 0 <= i < |s| :: Decode(s).events[i] == FromCharacter(s[i], NoModifiers)
  {
    if s != [] {
      assert s == [s[0]] + s[1..];
      PlainByte(s[0], s[1..]);
      PlainText(s[1..]);
    }
  }

  /** No byte yields more than one event: a buffer never decodes to more
      events than it has bytes (the pending `ESC [` counted once). */
  lemma {:induction false} EventsBounded(m: Machine, s: seq<Char>)
    requires Valid(m)
    ensures |Run(m, s).events| <= |s| + (if m.phase == ExpectingControlSequence then 1 else 0)
    decreases |s|
  {
    if s != [] {
      assert s == [s[0]] + s[1..];
      RunCons(m, s[0], s[1..]);
      var step := Step(m, s[0]);
      if step.Continue? {
        EventsBounded(step.next, s[1..]);
      }
    }
  }

  /** What the stream yields for successive read buffers: the state is not
      carried from one buffer to the next, and an exception ends the stream. */
  function DecodeStream(buffers: seq<seq<Char>>): Outcome
    decreases |buffers|
  {
    if buffers == [] then Outcome([], Consumed)
    else
      var first := Decode(buffers[0]);
      if first.end.Failed? then first else Prepend(first.events, DecodeStream(buffers[1..]))
  }

  /** The stream over two runs of buffers is the first run's events followed
      by the second run's, unless the first run already failed. */
  lemma {:induction false} StreamAppend(a: seq<seq<Char>>, b: seq<seq<Char>>)
    ensures DecodeStream(a + b)
         == if DecodeStream(a).end.Failed? then DecodeStream(a)
            else Prepend(DecodeStream(a).events, DecodeStream(b))
    decreases |a|
  {
    if a == [] {
      assert a + b == b;
    } else {
      assert (a + b)[0] == a[0] && (a + b)[1..] == a[1..] + b;
      StreamAppend(a[1..], b);
    }
  }

  /** Because the state is re-created per buffer, an ESC at the end of one
      read and a byte at the start of the next are two separate inputs: the
      byte comes out without Alt, whereas in one buffer it has Alt. */
  lemma SplitEscape(c: Char)
    requires c != Esc && c != LeftBracket
    ensures DecodeStream([[Esc], [c]]) == Outcome([FromCharacter(c, NoModifiers)], Consumed)
    ensures Decode([Esc, c]) == Outcome([FromCharacter(c, Alt)], Consumed)
  {
    var buffers := [[Esc], [c]];
    assert DecodeStream(buffers) == Prepend([], DecodeStream([[c]])) by {
      BufferEnds();
      assert buffers[0] == [Esc] && buffers[1..] == [[c]];
    }
    assert DecodeStream([[c]]) == Prepend([FromCharacter(c, NoModifiers)], DecodeStream([])) by {
      PlainByte(c, []);
      assert [c] + [] == [c];
      assert [[c]][0] == [c] && [[c]][1..] == [];
    }
    AltByte(c, []);
    assert [Esc, c] + [] == [Esc, c];
  }

  /** The outer loop of `event_stream` over successive read buffers. */
  method EventStream(buffers: seq<seq<Char>>) returns (events: seq<Event>, end: End)
    ensures Outcome(events, end) == DecodeStream(buffers)
  {
    events := [];
    var k := 0;
    while k < |buffers|
      invariant 0 <= k <= |buffers|
      invariant DecodeStream(buffers) == Prepend(events, DecodeStream(buffers[k..]))
    {
      assert buffers[k..][0] == buffers[k] && buffers[k..][1..] == buffers[k + 1..];
      var more, e := ParseBuffer(buffers[k]);
      if e.Failed? {
        events, end := events + more, e;
        return;
      }
      PrependTwice(events, more, DecodeStream(buffers[k + 1..]));
      events := events + more;
      k := k + 1;
    }
    end := Consumed;
  }
}
