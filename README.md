# dpsg terminal input core, in Dafny

This project models the input side of the dpsg raw-mode terminal library and
its two small integer wrappers, then proves properties of the model.

- **`event_stream`** (`cpp/linux_term.hpp`). It turns the bytes read from
  standard input into key events and SGR mouse events. Plain bytes become
  keys, and bytes below 32 are read as Ctrl plus a letter. `ESC x` is
  Alt+x, and `ESC [ A..D` are the arrows. `ESC [ p ; n A..D` are arrows with
  xterm modifiers, and `ESC [ < b ; x ; y M/m` are mouse reports. It throws
  `invalid_sequence_start` and `unfinished_numeric_sequence`, and has three
  `assert`s.
  - `term_event.dfy` (module `TermEvent`) holds the 8-byte event value and
    the pure helpers `from_character`, `parse_mouse`, `parse_function_key`
    and `button()`.
  - `event_parser.dfy` (module `EventParser`) holds the byte-by-byte parse
    loop. It has a specification function (`Step`, `Run`, `Decode`,
    `DecodeStream`) and the imperative loop proved against it (`Dispatch`,
    `ParseBuffer`, `EventStream`). The `num_parameters` array stays an
    `array` there.
- **`cursor_position`** (`cursor_position.dfy`). It sends the Device Status
  Report request and reads the `ESC [ row ; col R` reply, across as many
  reads as it takes.
- **Mouse tracking** (`mouse_tracking.dfy`). This covers
  `enable_mouse_tracking` and `disable_mouse_tracking`, the `enable_mouse_t`
  guard, and the `require_mouse` flag that the signal handlers consult.
- **Signal slots** (`signals.dfy`). This covers `HANDLED_SIGNALS` and
  `detail::index_of`.
- **`integer_result<T, E>`** (`integers.dfy`, `integer_result.dfy`). A
  result is a value, or an error marked by the top bit of T.
  - C++ casts and bitwise operators are modelled on two's-complement bit
    patterns of any width.
- **`optional_integer<U, Tombstone>`** (`optional_integer.dfy`). It is an
  integer that is empty while it holds its tombstone. It is a class, because
  its assignments update `_value` in place.

`wrappers.dfy` holds the `Option` type.

Integer widths are explicit:
- `char` is signed 8-bit, as on x86-64 Linux.
- Event parameters and coordinates are stored in `u16`, modulo 2^16.
- Modifier bytes are `bv8`.

## Behaviour of the code worth knowing

These are places where the code does something a reader of its
documentation might not expect. The model follows the code in each case.

- **Parser state lasts one buffer.** The `event_stream` parser state is
  created afresh for every `read`. So an `ESC` at the end of one read and
  `x` at the start of the next give a plain `x`, not Alt+x
  (`EventParser.SplitEscape`). Likewise, `ESC [` at the end of a buffer is
  delivered as Alt+`[`.
- **The guard is not reference-counted.** `require_mouse` is a plain flag.
  With two `enable_mouse_t` guards alive, destroying one switches tracking
  off and clears the flag (`MouseTracking.NestedGuards`).
- **The sentinel is a real position.** `cursor_position` signals failure
  with (65535, 65535), and a genuine reply of `ESC [ 65535 ; 65535 R`
  decodes to the same value (`CursorPosition.SentinelCollision`).
- **Large button codes look like keys.** A mouse report whose button code
  (eight bits) is 128 or more classifies as a key event
  (`TermEvent.MouseClassification`).
- **`button()` flips the Release bit.** It uses XOR on that bit instead of
  clearing it (see Findings).

## Model

| member | source | states |
|---|---|---|
| TermEvent.ToU8 | cpp/linux_term.hpp:138 | conversion to `u8` keeps the value modulo 256 |
| TermEvent.ToU16 | cpp/linux_term.hpp:690 | storing into a `u16` keeps the value modulo 2^16 |
| TermEvent.KeyEvent | cpp/linux_term.hpp:135-138 | a key event always carries the key marker; its code is the byte read as unsigned; its modifier byte is the given one with the marker added |
| TermEvent.IsKeyEvent | cpp/linux_term.hpp:235-237 | an event is a key event iff its modifier byte, read as a number, is 128 or more |
| TermEvent.IsMouseEvent | cpp/linux_term.hpp:239 | an event is a mouse event iff its modifier byte is below 128 |
| TermEvent.AltPressed | cpp/linux_term.hpp:241-243 | Alt is pressed iff bit 3 (value 8) of the modifier byte is set |
| TermEvent.CtrlPressed | cpp/linux_term.hpp:245-247 | Ctrl is pressed iff bit 4 (value 16) of the modifier byte is set |
| TermEvent.ShiftPressed | cpp/linux_term.hpp:249-251 | Shift is pressed iff bit 2 (value 4) of the modifier byte is set |
| TermEvent.FunctionKeyModifiers | cpp/linux_term.hpp:547-574 | the table gives only Shift, Alt and Ctrl bits, and gives none exactly when the low byte of the parameter is outside 2..8 |
| TermEvent.WithModifiers | cpp/linux_term.hpp:155-159 | `event_key \| modifiers` keeps the code, sets the given bits and leaves every other bit of the modifier byte alone |
| TermEvent.CtrlD | tests/vt/main.cpp:67 | the demo's quit test `event_key{'d'} \| Ctrl` matches the key read from byte 4, and from no other plain byte |
| TermEvent.ArrowFor | cpp/linux_term.hpp:263-270 | the arrow constants are keys with the letter as code, Special plus the marker, and no Shift, Alt or Ctrl |
| TermEvent.FromCharacter | cpp/linux_term.hpp:524-535 | the result is a key; Ctrl is set iff the byte is below 32 (negative bytes included) or Ctrl was requested; Alt and Shift only when requested; a code below 32 is shifted to the letter it abbreviates, and any other code is kept; the whole modifier byte is the requested one, plus Ctrl for a byte below 32, plus the key marker |
| TermEvent.ParseMouse | cpp/linux_term.hpp:537-543 | a mouse event at (numbers[1], numbers[2]) whose modifiers are the given ones plus the low byte of numbers[0] |
| TermEvent.ParseFunctionKey | cpp/linux_term.hpp:545-576 | the code becomes the byte; the modifiers are the base ones plus what the function-key table gives for the low byte of the parameter |
| TermEvent.FunctionKeyTableIsXtermMask | cpp/linux_term.hpp:115-123 | for 2..8, the table reads parameter minus one as the xterm bit mask 1 = Shift, 2 = Alt, 4 = Ctrl; every other value adds nothing |
| TermEvent.ModifiedArrow | cpp/linux_term.hpp:717-756 | an arrow built from the table keeps its letter and Special; Shift, Alt and Ctrl are pressed exactly as the table selects |
| TermEvent.MouseClassification | cpp/linux_term.hpp:235-239 | a parsed mouse report is a mouse event iff its 8-bit button code is below 128 |
| TermEvent.ButtonAsWritten | cpp/linux_term.hpp:198 | `button()` as written: XOR with Release gives back the modifier byte |
| TermEvent.ReleaseButtonRoundTrip | cpp/linux_term.hpp:198 | on a release report, `button()` as written returns the button code |
| TermEvent.PressButtonAsWritten | cpp/linux_term.hpp:198 | on a press report, `button()` as written sets Release: a left press reads back as 32 |
| TermEvent.Button | cpp/linux_term.hpp:198 | the corrected button: Release bit clear, and together with the Release bit of the report it rebuilds the modifier byte |
| TermEvent.ButtonRoundTrip | cpp/linux_term.hpp:198 | the corrected button gives back the reported code for both press and release, and the Release bit tells which |
| TermEvent.AccumulateDecimal | cpp/linux_term.hpp:690 | accumulating the decimal digits of n into a `u16` gives n modulo 2^16 |
| EventParser.Step | cpp/linux_term.hpp:629-763 | one byte keeps the parse state valid (four slots, cursor on one, later slots zero), yields at most one event, and yielding resets the state |
| EventParser.ZeroParameters | cpp/linux_term.hpp:619-625 | `reset` zeroes the slots from the first to the cursor, leaves the others alone and moves the cursor back to the first slot |
| EventParser.Dispatch | cpp/linux_term.hpp:629-763 | the imperative `switch` on the array state does exactly what `Step` specifies, keeping the state valid |
| EventParser.ParseBuffer | cpp/linux_term.hpp:613-773 | the loop over one read buffer yields exactly the events of `Decode`, and ends the same way |
| EventParser.EventStream | cpp/linux_term.hpp:593-774 | the loop over successive buffers yields exactly `DecodeStream`: per-buffer decodings in order, up to the first exception |
| EventParser.PlainByte | cpp/linux_term.hpp:630-638 | a byte other than ESC is the key `from_character` gives without modifiers, then decoding goes on from the initial state |
| EventParser.AltByte | cpp/linux_term.hpp:640-649 | ESC and a byte other than `[` is that byte's key with Alt |
| EventParser.ControlSequencePrefix | cpp/linux_term.hpp:640-643 | `ESC [` leads to the control-sequence phase and yields nothing |
| EventParser.PlainArrow | cpp/linux_term.hpp:661-679 | `ESC [` and A, B, C or D is the plain arrow for that letter |
| EventParser.InvalidStart | cpp/linux_term.hpp:681-683 | after `ESC [`, a byte that is not a digit, `<` or A..D ends the stream with `invalid_sequence_start` of that byte |
| EventParser.WithParam | cpp/linux_term.hpp:690 | writing the slot under the cursor changes that slot only and keeps the state valid |
| EventParser.RunDigits | cpp/linux_term.hpp:689-690 | a run of digits in the numeric phase accumulates into the current slot modulo 2^16 |
| EventParser.LeadingDigits | cpp/linux_term.hpp:652-654 | the first digit after `ESC [` opens the numeric phase, and the digits that follow accumulate into the first slot |
| EventParser.FirstParameter | cpp/linux_term.hpp:652-690 | `ESC [` and the decimal digits of n give the numeric phase with n modulo 2^16 in the first slot |
| EventParser.NextParameter | cpp/linux_term.hpp:693-698 | `;` and the digits of n fill the next slot with n modulo 2^16 |
| EventParser.ModifiedArrowSequence | cpp/linux_term.hpp:717-756 | `ESC [ p ; n` and A..D is the modified arrow when p is 1 modulo 2^16; otherwise the arrow assertion fails |
| EventParser.MousePrefix | cpp/linux_term.hpp:657-659 | `ESC [ <` opens the numeric phase with every slot zero |
| EventParser.MouseButtonDigits | cpp/linux_term.hpp:689-690 | the button digits after `ESC [ <` fill the first slot |
| EventParser.MouseCoordinates | cpp/linux_term.hpp:693-716 | from the first slot, `; x ; y` and `M` or `m` yield the mouse event and reset |
| EventParser.MouseReport | cpp/linux_term.hpp:700-716 | `ESC [ < b ; x ; y M` yields one mouse event with b, x and y (modulo 2^16); `m` adds Release |
| EventParser.UnfinishedSequence | cpp/linux_term.hpp:757-760 | `ESC [ n` and a byte outside digits, `;`, `m`, `M` and A..D ends the stream with `unfinished_numeric_sequence` of the one parameter read and that byte |
| EventParser.UnfinishedAnywhere | cpp/linux_term.hpp:757-760 | from any numeric state, a byte outside digits, `;`, `m`, `M` and A..D ends the stream with `unfinished_numeric_sequence` of every parameter read so far, the current one included, and that byte |
| EventParser.MouseArity | cpp/linux_term.hpp:700-716 | from any numeric state, `m` or `M` fails the three-values assertion iff the cursor is not on the third slot |
| EventParser.UnknownArrow | cpp/linux_term.hpp:717-756 | from any numeric state, A..D fails the arrow assertion iff the parameters read are not `1;n` |
| EventParser.ParametersFull | cpp/linux_term.hpp:693-698 | `;` with the cursor on the last slot fails the "more than 4" assertion |
| EventParser.ThreeMoreParameters | cpp/linux_term.hpp:693-698 | from the first slot, three more parameters and a `;` fail the "more than 4" assertion |
| EventParser.FifthParameter | cpp/linux_term.hpp:693-698 | a sequence with a fifth parameter fails the "more than 4" assertion |
| EventParser.Flush | cpp/linux_term.hpp:767-773 | at the end of a buffer an event is delivered iff `ESC [` is pending, and it is the key `[` with Alt |
| EventParser.BufferEnds | cpp/linux_term.hpp:767-773 | a buffer ending right after `ESC [` yields Alt+`[`; a buffer ending after a lone ESC yields nothing |
| EventParser.PlainText | cpp/linux_term.hpp:630-638 | a buffer without ESC yields exactly one `from_character` key per byte, in order |
| EventParser.EventsBounded | cpp/linux_term.hpp:626-773 | a buffer never yields more events than it has bytes, plus one for a pending `ESC [` |
| EventParser.StreamAppend | cpp/linux_term.hpp:593-614 | decoding two runs of buffers is decoding the first, then the second, unless the first threw |
| EventParser.SplitEscape | cpp/linux_term.hpp:613-614 | an ESC at the end of one read and a byte starting the next give the plain key, whereas in one buffer they give Alt |
| CursorPosition.Advance | cpp/linux_term.hpp:419-474 | one reply byte: the reader finishes iff it is reading the column and the byte is `R`; it fails iff the byte after ESC is not `[`, or a row byte is neither a digit nor `;`, or a column byte is neither a digit nor `R` |
| CursorPosition.FindEscape | cpp/linux_term.hpp:420 | `std::find`: the first ESC at or after the start, or the end |
| CursorPosition.ScanRow | cpp/linux_term.hpp:445-458 | the row loop is the byte reader over the rest of the chunk, stopping after `;` |
| CursorPosition.ScanColumn | cpp/linux_term.hpp:462-475 | the column loop is the byte reader over the rest of the chunk |
| CursorPosition.ScanChunk | cpp/linux_term.hpp:415-476 | processing one read is feeding its bytes to the byte reader |
| CursorPosition.CursorPositionQuery | cpp/linux_term.hpp:383-480 | the read loop returns exactly `CursorReply` of the read results |
| CursorPosition.ChunkBoundaries | cpp/linux_term.hpp:417-476 | the state is kept across reads, so where the reply is split does not matter to the byte reader |
| CursorPosition.SplitReply | cpp/linux_term.hpp:399-476 | a reply split over two reads gives the same position as in one read |
| CursorPosition.SkipLeading | cpp/linux_term.hpp:419-424 | bytes before the first ESC are ignored |
| CursorPosition.RowDigits | cpp/linux_term.hpp:446-448 | row digits accumulate into the `u16` row |
| CursorPosition.ColumnDigits | cpp/linux_term.hpp:463-465 | column digits accumulate into the `u16` column |
| CursorPosition.ReplyHead | cpp/linux_term.hpp:419-442 | the reply's `ESC [` leads to the row phase at (0, 0) |
| CursorPosition.FeedReply | cpp/linux_term.hpp:444-474 | a whole reply leaves the reader finished with column and row, each modulo 2^16 |
| CursorPosition.ReplyRoundTrip | cpp/linux_term.hpp:383-480 | whatever junk precedes it and whatever follows, a reply for (row, col) decodes to col and row modulo 2^16 |
| CursorPosition.SentinelCollision | cpp/linux_term.hpp:385-386 | a genuine reply equals `invalid_pos` iff row and column are both 65535 modulo 2^16 |
| CursorPosition.RetriesThenEnd | cpp/linux_term.hpp:401-414 | any number of EAGAIN failures are retried without effect; a read of zero bytes gives `invalid_pos` |
| CursorPosition.Failures | cpp/linux_term.hpp:401-437 | no answer, a read error other than EAGAIN, or an ESC followed by anything but `[` each give `invalid_pos` |
| CursorPosition.WrongRowByte | cpp/linux_term.hpp:445-457 | `ESC [`, row digits and a byte that is neither a digit nor `;` give `invalid_pos`, whatever follows |
| CursorPosition.WrongColumnByte | cpp/linux_term.hpp:462-473 | `ESC [`, row digits, `;`, column digits and a byte that is neither a digit nor `R` give `invalid_pos`, whatever follows |
| Signals.IndexOf | cpp/linux_term.hpp:282-291 | the index of the first occurrence of the signal, or `size_t(-1)` exactly when it is not handled |
| Signals.SlotsDisjoint | cpp/linux_term.hpp:276-281 | the handled signals' slots are distinct, inside the arrays, and differ from the SIGCONT and SIGTSTP slots |
| MouseTracking.DisableUndoesEnable | cpp/linux_term.hpp:85-95 | disabling writes the reset sequences of what enabling sets, in reverse order |
| MouseTracking.EnableTurnsOn | cpp/linux_term.hpp:85-89 | after enabling, whatever came before, both modes are on |
| MouseTracking.DisableTurnsOff | cpp/linux_term.hpp:91-95 | after disabling, whatever came before, both modes are off |
| MouseTracking.Terminal.constructor | cpp/linux_term.hpp:785 | nothing written yet and `require_mouse` false |
| MouseTracking.Terminal.EnableMouseTracking | cpp/linux_term.hpp:85-89 | appends the two set sequences, leaves the flag, and tracking is on |
| MouseTracking.Terminal.DisableMouseTracking | cpp/linux_term.hpp:91-95 | appends the two reset sequences, leaves the flag, and tracking is off |
| MouseTracking.Terminal.AcquireMouseGuard | cpp/linux_term.hpp:367-370 | enables tracking and raises the flag |
| MouseTracking.Terminal.ReleaseMouseGuard | cpp/linux_term.hpp:371-374 | disables tracking and clears the flag, whatever other guard is alive |
| MouseTracking.Terminal.RestoreOnSignal | cpp/linux_term.hpp:346-351 | the fatal-signal handler, and likewise SIGTSTP's at lines 329-331: disables tracking iff the flag is up, and keeps the flag |
| MouseTracking.Terminal.ResumeOnSignal | cpp/linux_term.hpp:341-343 | the SIGCONT handler re-enables tracking iff the flag is up |
| MouseTracking.NestedGuards | cpp/linux_term.hpp:366-374 | two guards and one release leave tracking off and the flag down |
| MouseTracking.StopAndContinue | cpp/linux_term.hpp:324-344 | with a guard held, tracking is off between SIGTSTP and SIGCONT and on again after |
| Integers.Convert | cpp/integer_result.hpp:34 | an integral cast: the result is in range with the same low bits, and values already in range are unchanged |
| IntegerResult.ErrorBit | cpp/integer_result.hpp:25-26 | `error_bit` has only the top bit set: the minimum of a signed T, 2^(w-1) for an unsigned one |
| IntegerResult.FromValue | cpp/integer_result.hpp:29 | a value in range is stored as it is, with the given value and error types |
| IntegerResult.IsError | cpp/integer_result.hpp:36 | `is_error` holds iff the top bit of the stored value, at T's width, is set |
| IntegerResult.IsValue | cpp/integer_result.hpp:38 | `is_value` holds iff that top bit is clear |
| IntegerResult.FromError | cpp/integer_result.hpp:30-34 | a result built from an error is always an error |
| IntegerResult.Value | cpp/integer_result.hpp:40-43 | `value()` on a value result gives the value it was built from |
| IntegerResult.Error | cpp/integer_result.hpp:50-53 | `error()` returns a value of the error type |
| IntegerResult.ErrorIffTopBit | cpp/integer_result.hpp:36-38 | `is_error` holds iff the top bit is set, `is_value` is its negation, and for a signed T this means negative |
| IntegerResult.FromValueClassification | cpp/integer_result.hpp:29-43 | a value result is an error iff its top bit is set (negative for signed T); otherwise `value()` gives it back |
| IntegerResult.ErrorOfFromError | cpp/integer_result.hpp:30-53 | `error()` on a result built from err is err's low bits at T's width with the top bit removed, cast to E |
| IntegerResult.TopClearRoundTrip | cpp/integer_result.hpp:50-53 | an error whose top bit at T's width is clear comes back unchanged |
| IntegerResult.NarrowRoundTrip | cpp/integer_result.hpp:50-53 | an error of a type narrower than T comes back unchanged |
| IntegerResult.TopSetLost | cpp/integer_result.hpp:50-53 | an error as wide as T with its top bit set does not come back |
| IntegerResult.ErrorRoundTrip | cpp/integer_result.hpp:30-53 | `error()` gives back the error iff E is narrower than T or the error's top bit is clear |
| OptionalInteger.DefaultTombstone | cpp/optional_integer.hpp:13-16 | the default tombstone is in range, and is the least value of a signed type and the greatest of an unsigned one |
| OptionalInteger.OptionalInteger.Empty | cpp/optional_integer.hpp:26-28 | default and `nullopt` construction give an empty optional |
| OptionalInteger.OptionalInteger.Of | cpp/optional_integer.hpp:27 | construction from a value holds it, or is empty when the value is the tombstone |
| OptionalInteger.OptionalInteger.Copy | cpp/optional_integer.hpp:29-30 | a copy holds what the original holds |
| OptionalInteger.OptionalInteger.AssignFrom | cpp/optional_integer.hpp:31-33 | after copy assignment the optional holds what the other held |
| OptionalInteger.OptionalInteger.AssignValue | cpp/optional_integer.hpp:34-37 | after assigning v it holds v, or is empty when v is the tombstone |
| OptionalInteger.OptionalInteger.AssignNullopt | cpp/optional_integer.hpp:38-41 | after assigning `nullopt` it is empty |
| OptionalInteger.OptionalInteger.HasValue | cpp/optional_integer.hpp:42-43 | true iff the optional holds a value |
| OptionalInteger.OptionalInteger.Value | cpp/optional_integer.hpp:44 | the held value, or the tombstone when empty |
| OptionalInteger.OptionalInteger.ValueOr | cpp/optional_integer.hpp:45-47 | the held value, or the default when empty |
| OptionalInteger.OptionalInteger.Deref | cpp/optional_integer.hpp:48-51 | on a non-empty optional, the value it holds |
| OptionalInteger.OptionalInteger.Equals | cpp/optional_integer.hpp:64-66 | equal iff both hold the same value or both are empty |
| OptionalInteger.OptionalInteger.NotEquals | cpp/optional_integer.hpp:67-69 | the negation of equality of contents |
| OptionalInteger.OptionalInteger.EqualsValue | cpp/optional_integer.hpp:70-72 | equal to v iff it holds v; the tombstone compares equal to an empty optional |
| OptionalInteger.OptionalInteger.NotEqualsValue | cpp/optional_integer.hpp:73-75 | the negation of the comparison with v |
| OptionalInteger.OptionalInteger.EqualsNullopt | cpp/optional_integer.hpp:76-78 | equal to `nullopt` iff empty |
| OptionalInteger.OptionalInteger.NotEqualsNullopt | cpp/optional_integer.hpp:79-81 | different from `nullopt` iff it holds a value |
| OptionalInteger.AssignThenRead | cpp/optional_integer.hpp:34-44 | after assigning v, `has_value()` is false exactly when v is the tombstone, and `value()` is v |
| OptionalInteger.DefaultAssignReset | cpp/optional_integer.hpp:26-41 | default construction, then a value, then `nullopt`: empty, the value (unless it is the tombstone), empty |

## Left out

- Terminal I/O is not modelled.
  - `poll`, the timeout and EINTR retries are left out. `read` is an input
    sequence: byte buffers for `event_stream`, bytes or an errno for
    `cursor_position`. For `event_stream`, a failed read other than EAGAIN
    delivers no bytes, so it counts as an empty buffer. Its `errno_exception`
    after `poll` fails is not modelled.
  - The `ESC [ 6 n` write is left out. A `read` that would block forever is
    not represented: running out of read results counts as no answer.
  - A `read` returns at most 32 bytes, and the model does not bound chunk
    sizes. For `cursor_position` the split does not matter
    (`CursorPosition.ChunkBoundaries`), because its state is kept across
    reads.
  - `event_stream` reads into a buffer of `BufSize` bytes (32 by default)
    and starts a fresh parser state for each buffer. A burst of input longer
    than that is split, and a sequence that straddles the split decodes
    differently (`EventParser.SplitEscape`). `EventParser.EventStream`
    accepts buffers of any length, so which bursts get split is left to
    the caller.
- The parse loop's `assert`s are modelled as failures that end the stream,
  not as aborts. With `NDEBUG` they would be skipped, and that behaviour is
  not modelled.
- Raw mode (`termios`), `get_terminal_size`, `input_stream`, the
  environment variables and the coroutine `generator` plumbing are I/O or
  scheduling, outside this model.
- The signal handlers are modelled only in their `require_mouse` part.
  - Installing handlers, restoring old dispositions and `raise` are
    process-wide OS effects and are left out.
  - The SIGTSTP handler installs the SIGCONT handler but restores from the
    SIGCONT slot, and SIGCONT restores from the SIGTSTP slot. These slot
    choices are not modelled.
- The `event` union's memory layout is left out. Both alternatives are
  modelled with the shared modifier byte (`mods`). `operator==` is left
  out. At run time it compares the two events byte by byte, which is
  Dafny's equality on `Event` only when the bytes the model does not keep
  agree. In a constant evaluation it compares code and modifiers of two
  keys, and is false whenever the left operand is a mouse event.
- `posix.hpp`, `c_str.hpp`, `meta/identity_type.hpp` and the demos and
  tests are not part of this model, except for the Ctrl-D comparison that
  ends the `vt` demo (`TermEvent.CtrlD`).
- The default `integer_result` constructor (an indeterminate `_value`) is
  not modelled, nor is the mutable reference returned by non-const
  `value()`.
  - The error-constructor overload is selected only when U converts to E
    but not to T, in practice for a scoped enumeration. E is modelled by
    its underlying type.
- The non-const `operator*`, and both `operator->` overloads of
  `optional_integer`, are not modelled. The non-const `operator*` binds a
  non-const reference to the temporary that the const `value()` returns,
  and the non-const `operator->` returns that value as a pointer. Both are
  ill-formed as written, so no program can call them. The const
  `operator->` returns the value itself, which `->` cannot apply to.
- Integer sizes are generalised to any positive number of bytes. The C++
  types have 1, 2, 4 or 8.
- OptionalInteger.OptionalInteger.Equals: comparison is stated for two
  optionals with the same tombstone, which is what the C++ type system
  guarantees.

## Findings

| source | as written | input that shows it | evidently intended | confidence | as-written member | corrected member |
|---|---|---|---|---|---|---|
| cpp/linux_term.hpp:198 | `button()` returns `mods ^ Release`, which sets the Release bit on a press report instead of clearing the bit of a release report | `ESC [ < 0 ; 10 ; 20 M` (a left press): `button()` gives 32, not `Left` (0) | clear the Release bit (`mods & ~Release`), so press and release reports both give the reported button | medium, not executed | TermEvent.PressButtonAsWritten | TermEvent.ButtonRoundTrip |
