/** The Device Status Report exchange of `cursor_position` (linux_term.hpp):
    after the request `ESC [ 6 n` is written, the reply `ESC [ row ; col R`
    is read back in however many short reads the terminal delivers it. */
module CursorPosition {
  import opened TermEvent

  /** `term_position`: column first, then row, both 16-bit. */
  datatype TermPosition = TermPosition(col: U16, row: U16)

  /** `invalid_pos`: both coordinates are 0xFFFFFFFF cast to u16. */
  const InvalidPos: TermPosition := TermPosition(ToU16(0xFFFF_FFFF), ToU16(0xFFFF_FFFF))

  const RowTerminator: Char := ';' as int
  const ReplyTerminator: Char := 'R' as int

  /** The two errno values the reader retries on; they coincide on Linux. */
  const EAgain: int := 11
  const EWouldBlock: int := 11

  /** What one `read` returned: the bytes it delivered (none means end of
      input) or a failure with its errno. */
  datatype ReadResult = Bytes(bytes: seq<Char>) | ReadError(errno: int)

  /** The reader's `state` enum, with Invalid for the paths that jump to
      `abort` after storing `invalid_pos`. */
  datatype ReplyPhase = Start | Escape | Bracket | Column | Finished | Invalid

  /** The phase and the coordinates read so far. */
  datatype Reader = Reader(phase: ReplyPhase, pos: TermPosition)

  const Fresh: Reader := Reader(Start, TermPosition(0, 0))

  /** Whether the reader has left the read loop. */
  predicate Done(r: Reader) {
    r.phase == Finished || r.phase == Invalid
  }

  /** One byte of the reply: bytes before the first ESC are skipped; after it
      `[` is required, then row digits up to `;`, then column digits up to
      `R`. Each digit is added in 16-bit arithmetic. */
  function Advance(r: Reader, c: Char): (r': Reader)
    requires !Done(r)
    ensures r'.phase == Invalid <==>
      || (r.phase == Escape && c != LeftBracket)
      || (r.phase == Bracket && !IsDigit(c) && c != RowTerminator)
      || (r.phase == Column && !IsDigit(c) && c != ReplyTerminator)
    ensures r'.phase == Finished <==> r.phase == Column && c == ReplyTerminator
  {
    match r.phase
    case Start => if c == Esc then r.(phase := Escape) else r
    case Escape => if c == LeftBracket then r.(phase := Bracket) else r.(phase := Invalid)
    case Bracket =>
      if IsDigit(c) then r.(pos := r.pos.(row := ToU16(r.pos.row * 10 + (c - Zero))))
      else if c == RowTerminator then r.(phase := Column)
      else r.(phase := Invalid)
    case Column =>
      if IsDigit(c) then r.(pos := r.pos.(col := ToU16(r.pos.col * 10 + (c - Zero))))
      else if c == ReplyTerminator then r.(phase := Finished)
      else r.(phase := Invalid)
  }

  /** The reader over a run of bytes; once done, the remaining bytes are
      never looked at. */
  function Feed(r: Reader, s: seq<Char>): Reader
    decreases |s|
  {
    if s == [] || Done(r) then r else Feed(Advance(r, s[0]), s[1..])
  }

  /** The reader over successive `read` results: EAGAIN/EWOULDBLOCK are
      retried, any other failure and end of input give the sentinel, and
      running out of results counts as end of input. */
  function Query(r: Reader, results: seq<ReadResult>): TermPosition
    requires !Done(r)
    decreases |results|
  {
    if results == [] then InvalidPos
    else match results[0]
      case ReadError(errno) =>
        if errno == EAgain || errno == EWouldBlock then Query(r, results[1..]) else InvalidPos
      case Bytes(bytes) =>
        if bytes == [] then InvalidPos
        else
          var r' := Feed(r, bytes);
          if r'.phase == Finished then r'.pos
          else if r'.phase == Invalid then InvalidPos
          else Query(r', results[1..])
  }

  /** What `cursor_position` returns for the given read results. */
  function CursorReply(results: seq<ReadResult>): TermPosition {
    Query(Fresh, results)
  }

  lemma FeedCons(r: Reader, c: Char, s: seq<Char>)
    requires !Done(r)
    ensures Feed(r, [c] + s) == Feed(Advance(r, c), s)
  {
    assert ([c] + s)[0] == c && ([c] + s)[1..] == s;
  }

  /** Feeding the rest of a chunk from position j on, one byte further. */
  lemma FeedStep(r: Reader, s: seq<Char>, j: nat)
    requires j < |s| && !Done(r)
    ensures Feed(r, s[j..]) == Feed(Advance(r, s[j]), s[j + 1..])
  {
    assert s[j..] == [s[j]] + s[j + 1..];
    FeedCons(r, s[j], s[j + 1..]);
  }

  /** A reader that is done ignores whatever follows. */
  lemma FeedDone(r: Reader, s: seq<Char>)
    requires Done(r)
    ensures Feed(r, s) == r
  {
  }

  /** `std::find` for ESC from position j: the first ESC at or after j, or
      the end of the chunk. */
  method FindEscape(s: seq<Char>, j: nat) returns (k: nat)
    requires j <= |s|
    ensures j <= k <= |s|
    ensures k < |s| ==> s[k] == Esc
    ensures forall i | j <= i < k :: s[i] != Esc
  {
    k := j;
    while k != |s| && s[k] != Esc
      invariant j <= k <= |s|
      invariant forall i | j <= i < k :: s[i] != Esc
    {
      k := k + 1;
    }
  }

  /** Skipping non-ESC bytes in the Start phase changes nothing. */
  lemma {:induction false} SkipJunk(r: Reader, s: seq<Char>, j: nat, k: nat)
    requires r.phase == Start && j <= k <= |s|
    requires forall i | j <= i < k :: s[i] != Esc
    ensures Feed(r, s[j..]) == Feed(r, s[k..])
    decreases k - j
  {
    if j < k {
      FeedStep(r, s, j);
      SkipJunk(r, s, j + 1, k);
    }
  }

  /** The row loop: digits from position begin on are added to the row; `;`
      moves to the column, any other byte invalidates the reply. */
  method ScanRow(p: TermPosition, buf: seq<Char>, begin: nat)
    returns (newState: ReplyPhase, newP: TermPosition, next: nat)
    requires begin <= |buf|
    ensures newState == Bracket || newState == Column || newState == Invalid
    ensures newState != Column ==> Reader(newState, newP) == Feed(Reader(Bracket, p), buf[begin..])
    ensures newState == Column ==>
      next <= |buf| && Feed(Reader(Bracket, p), buf[begin..]) == Feed(Reader(Column, newP), buf[next..])
  {
    newState, newP, next := Bracket, p, begin;
    while next != |buf|
      invariant begin <= next <= |buf|
      invariant Feed(Reader(Bracket, p), buf[begin..]) == Feed(Reader(Bracket, newP), buf[next..])
    {
      FeedStep(Reader(Bracket, newP), buf, next);
      if IsDigit(buf[next]) {
        newP := newP.(row := ToU16(newP.row * 10 + (buf[next] - Zero)));
      } else if buf[next] == RowTerminator {
        next := next + 1;
        newState := Column;
        return;
      } else {
        FeedDone(Reader(Invalid, newP), buf[next + 1..]);
        newState := Invalid;
        return;
      }
      next := next + 1;
    }
  }

  /** The column loop: digits from position begin on are added to the column;
      `R` completes the reply, any other byte invalidates it. */
  method ScanColumn(p: TermPosition, buf: seq<Char>, begin: nat) returns (newState: ReplyPhase, newP: TermPosition)
    requires begin <= |buf|
    ensures Reader(newState, newP) == Feed(Reader(Column, p), buf[begin..])
  {
    newState, newP := Column, p;
    var next := begin;
    while next != |buf|
      invariant begin <= next <= |buf|
      invariant Feed(Reader(Column, p), buf[begin..]) == Feed(Reader(Column, newP), buf[next..])
    {
      FeedStep(Reader(Column, newP), buf, next);
      if IsDigit(buf[next]) {
        newP := newP.(col := ToU16(newP.col * 10 + (buf[next] - Zero)));
      } else if buf[next] == ReplyTerminator {
        FeedDone(Reader(Finished, newP), buf[next + 1..]);
        newState := Finished;
        return;
      } else {
        FeedDone(Reader(Invalid, newP), buf[next + 1..]);
        newState := Invalid;
        return;
      }
      next := next + 1;
    }
  }

  /** One chunk through the four phase blocks of `cursor_position`; Finished
      and Invalid stand for the two jumps to `abort`. */
  method ScanChunk(state: ReplyPhase, p: TermPosition, buf: seq<Char>)
    returns (newState: ReplyPhase, newP: TermPosition)
    requires !Done(Reader(state, p)) && buf != []
    ensures Reader(newState, newP) == Feed(Reader(state, p), buf)
  {
    newState, newP := state, p;
    ghost var r0 := Reader(state, p);
    assert buf[0..] == buf;
    var begin := 0;
    if newState == Start {
      var found := FindEscape(buf, begin);
      SkipJunk(r0, buf, begin, found);
      begin := found;
      if begin == |buf| {
        return;
      }
      FeedStep(Reader(newState, newP), buf, begin);
      newState := Escape;
      begin := begin + 1;
      if begin == |buf| {
        return;
      }
    }
    if newState == Escape {
      FeedStep(Reader(newState, newP), buf, begin);
      if buf[begin] != LeftBracket {
        FeedDone(Reader(Invalid, newP), buf[begin + 1..]);
        newState := Invalid;
        return;
      }
      newState := Bracket;
      begin := begin + 1;
      if begin == |buf| {
        return;
      }
    }
    assert Feed(r0, buf) == Feed(Reader(newState, newP), buf[begin..]);
    if newState == Bracket {
      newState, newP, begin := ScanRow(newP, buf, begin);
    }
    if newState == Column {
      newState, newP := ScanColumn(newP, buf, begin);
    }
  }

  /** `cursor_position` after its request is written: the `read` loop over
      the given read results, with the `abort` exits. */
  method CursorPositionQuery(results: seq<ReadResult>) returns (p: TermPosition)
    ensures p == CursorReply(results)
  {
    p := TermPosition(0, 0);
    var state := Start;
    var k := 0;
    while k < |results|
      invariant 0 <= k <= |results|
      invariant !Done(Reader(state, p))
      invariant CursorReply(results) == Query(Reader(state, p), results[k..])
    {
      var e := results[k];
      assert results[k..][0] == e && results[k..][1..] == results[k + 1..];
      k := k + 1;
      if e.ReadError? {
        if e.errno == EAgain || e.errno == EWouldBlock {
          continue;
        }
        p := InvalidPos;
        return;
      } else if e.bytes == [] {
        p := InvalidPos;
        return;
      }
      state, p := ScanChunk(state, p, e.bytes);
      if state == Finished {
        return;
      } else if state == Invalid {
        p := InvalidPos;
        return;
      }
    }
    p := InvalidPos;
  }

  /** Chunk boundaries do not matter to the byte reader. */
  lemma {:induction false} ChunkBoundaries(r: Reader, a: seq<Char>, b: seq<Char>)
    ensures Feed(r, a + b) == Feed(Feed(r, a), b)
    decreases |a|
  {
    if a == [] {
      assert a + b == b;
    } else if !Done(r) {
      assert (a + b)[0] == a[0] && (a + b)[1..] == a[1..] + b;
      ChunkBoundaries(Advance(r, a[0]), a[1..], b);
    }
  }

  /** A reply delivered in two non-empty reads gives the same position as the
      same bytes delivered in one. */
  lemma SplitReply(r: Reader, a: seq<Char>, b: seq<Char>, more: seq<ReadResult>)
    requires !Done(r) && a != [] && b != [] && !Done(Feed(r, a))
    ensures Query(r, [Bytes(a), Bytes(b)] + more) == Query(r, [Bytes(a + b)] + more)
  {
    ChunkBoundaries(r, a, b);
    assert ([Bytes(a), Bytes(b)] + more)[1..] == [Bytes(b)] + more;
    assert ([Bytes(b)] + more)[1..] == more;
    assert ([Bytes(a + b)] + more)[1..] == more;
  }

  /** Bytes before the first ESC are skipped. */
  lemma {:induction false} SkipLeading(junk: seq<Char>, rest: seq<Char>)
    requires NoEscape(junk)
    ensures Feed(Fresh, junk + rest) == Feed(Fresh, rest)
    decreases |junk|
  {
    if junk == [] {
      assert junk + rest == rest;
    } else {
      assert (junk + rest)[0] == junk[0] && (junk + rest)[1..] == junk[1..] + rest;
      SkipLeading(junk[1..], rest);
    }
  }

  /** Row digits are accumulated in 16 bits, the way event parameters are. */
  lemma {:induction false} RowDigits(pos: TermPosition, ds: seq<Char>, rest: seq<Char>)
    requires AllDigits(ds)
    ensures Feed(Reader(Bracket, pos), ds + rest)
         == Feed(Reader(Bracket, pos.(row := AccumulateU16(pos.row, ds))), rest)
    decreases |ds|
  {
    if ds == [] {
      assert ds + rest == rest;
    } else {
      assert (ds + rest)[0] == ds[0] && (ds + rest)[1..] == ds[1..] + rest;
      RowDigits(pos.(row := ToU16(pos.row * 10 + (ds[0] - Zero))), ds[1..], rest);
    }
  }

  /** Column digits are accumulated in 16 bits. */
  lemma {:induction false} ColumnDigits(pos: TermPosition, ds: seq<Char>, rest: seq<Char>)
    requires AllDigits(ds)
    ensures Feed(Reader(Column, pos), ds + rest)
         == Feed(Reader(Column, pos.(col := AccumulateU16(pos.col, ds))), rest)
    decreases |ds|
  {
    if ds == [] {
      assert ds + rest == rest;
    } else {
      assert (ds + rest)[0] == ds[0] && (ds + rest)[1..] == ds[1..] + rest;
      ColumnDigits(pos.(col := ToU16(pos.col * 10 + (ds[0] - Zero))), ds[1..], rest);
    }
  }

  /** The bytes of a reply for the given row and column. */
  function Reply(row: nat, col: nat): seq<Char> {
    [Esc, LeftBracket] + Decimal(row) + [RowTerminator] + Decimal(col) + [ReplyTerminator]
  }

  /** After the reply's leading `ESC [` the reader is reading the row. */
  lemma ReplyHead(s: seq<Char>)
    ensures Feed(Fresh, [Esc, LeftBracket] + s) == Feed(Reader(Bracket, TermPosition(0, 0)), s)
  {
    assert ([Esc, LeftBracket] + s)[0] == Esc && ([Esc, LeftBracket] + s)[1..] == [LeftBracket] + s;
    assert ([LeftBracket] + s)[0] == LeftBracket && ([LeftBracket] + s)[1..] == s;
  }

  /** Feeding a whole reply: the reader finishes with the row and column, each
      taken modulo 2^16, and ignores what follows. */
  lemma FeedReply(row: nat, col: nat, rest: seq<Char>)
    ensures Feed(Fresh, Reply(row, col) + rest) == Reader(Finished, TermPosition(ToU16(col), ToU16(row)))
  {
    var last := [ReplyTerminator] + rest;
    var tail := [RowTerminator] + (Decimal(col) + last);
    var atRow := Reader(Bracket, TermPosition(0, ToU16(row)));
    var atCol := Reader(Column, TermPosition(ToU16(col), ToU16(row)));
    assert Feed(Fresh, Reply(row, col) + rest) == Feed(atRow, tail) by {
      assert Reply(row, col) + rest == [Esc, LeftBracket] + (Decimal(row) + tail);
      ReplyHead(Decimal(row) + tail);
      RowDigits(TermPosition(0, 0), Decimal(row), tail);
      AccumulateDecimal(row);
    }
    assert Feed(atRow, tail) == Feed(atCol, last) by {
      assert tail[0] == RowTerminator && tail[1..] == Decimal(col) + last;
      ColumnDigits(TermPosition(0, ToU16(row)), Decimal(col), last);
      AccumulateDecimal(col);
    }
    assert last[0] == ReplyTerminator && last[1..] == rest;
    FeedDone(Reader(Finished, atCol.pos), rest);
  }

  /** The reply round trip: whatever precedes the first ESC in the read, the
      reply `ESC [ row ; col R` yields (col, row) modulo 2^16, whatever
      follows it in the same read and whatever reads come after. */
  lemma ReplyRoundTrip(junk: seq<Char>, row: nat, col: nat, rest: seq<Char>, more: seq<ReadResult>)
    requires NoEscape(junk)
    ensures CursorReply([Bytes(junk + Reply(row, col) + rest)] + more) == TermPosition(ToU16(col), ToU16(row))
  {
    assert junk + Reply(row, col) + rest == junk + (Reply(row, col) + rest);
    SkipLeading(junk, Reply(row, col) + rest);
    FeedReply(row, col, rest);
  }

  /** A genuine reply for row and column 65535 (modulo 2^16) cannot be told
      apart from the failure sentinel. */
  lemma SentinelCollision(row: nat, col: nat)
    ensures CursorReply([Bytes(Reply(row, col))]) == InvalidPos
        <==> ToU16(row) == 0xFFFF && ToU16(col) == 0xFFFF
  {
    assert InvalidPos == TermPosition(0xFFFF, 0xFFFF) by {
      assert ToU16(0xFFFF_FFFF) == 0xFFFF;
    }
    ReplyAlone(row, col);
  }

  /** A read holding exactly one reply decodes to its column and row. */
  lemma ReplyAlone(row: nat, col: nat)
    ensures CursorReply([Bytes(Reply(row, col))]) == TermPosition(ToU16(col), ToU16(row))
  {
    ReplyRoundTrip([], row, col, [], []);
    assert [Bytes([] + Reply(row, col) + [])] + [] == [Bytes(Reply(row, col))] by {
      assert [] + Reply(row, col) + [] == Reply(row, col);
    }
  }

  /** Any number of EAGAIN/EWOULDBLOCK failures are retried; end of input
      after them gives the sentinel. */
  lemma {:induction false} RetriesThenEnd(r: Reader, retries: nat, more: seq<ReadResult>)
    requires !Done(r)
    ensures Query(r, Retries(retries) + more) == Query(r, more)
    ensures Query(r, Retries(retries) + [Bytes([])] + more) == InvalidPos
    decreases retries
  {
    if retries == 0 {
      assert Retries(retries) + more == more;
      assert Retries(retries) + [Bytes([])] + more == [Bytes([])] + more;
    } else {
      RetriesThenEnd(r, retries - 1, more);
      assert (Retries(retries) + more)[1..] == Retries(retries - 1) + more;
      assert (Retries(retries) + [Bytes([])] + more)[1..] == Retries(retries - 1) + [Bytes([])] + more;
    }
  }

  function Retries(n: nat): (rs: seq<ReadResult>)
    ensures |rs| == n && forall i | 0 <= i < n :: rs[i] == ReadError(EAgain)
  {
    if n == 0 then [] else [ReadError(EAgain)] + Retries(n - 1)
  }

  /** A terminal that never answers, a failed read other than EAGAIN, or a
      byte other than `[` after the ESC all give the sentinel. */
  lemma Failures(junk: seq<Char>, c: Char, errno: int, rest: seq<Char>, more: seq<ReadResult>)
    requires NoEscape(junk)
    ensures CursorReply([]) == InvalidPos
    ensures errno != EAgain ==> CursorReply([ReadError(errno)] + more) == InvalidPos
    ensures c != LeftBracket ==> CursorReply([Bytes(junk + [Esc, c] + rest)] + more) == InvalidPos
  {
    assert junk + [Esc, c] + rest == junk + ([Esc, c] + rest);
    SkipLeading(junk, [Esc, c] + rest);
    assert ([Esc, c] + rest)[0] == Esc && ([Esc, c] + rest)[1..] == [c] + rest;
    assert ([c] + rest)[0] == c && ([c] + rest)[1..] == rest;
    if c != LeftBracket {
      FeedDone(Reader(Invalid, TermPosition(0, 0)), rest);
    }
  }

  /** A byte other than a digit or `;` among the row digits gives the
      sentinel, whatever follows. */
  lemma WrongRowByte(ds: seq<Char>, c: Char, rest: seq<Char>, more: seq<ReadResult>)
    requires AllDigits(ds) && !IsDigit(c) && c != RowTerminator
    ensures CursorReply([Bytes([Esc, LeftBracket] + ds + [c] + rest)] + more) == InvalidPos
  {
    var pos := TermPosition(0, AccumulateU16(0, ds));
    assert Feed(Fresh, [Esc, LeftBracket] + ds + [c] + rest) == Feed(Reader(Bracket, pos), [c] + rest) by {
      assert [Esc, LeftBracket] + ds + [c] + rest == [Esc, LeftBracket] + (ds + ([c] + rest));
      ReplyHead(ds + ([c] + rest));
      RowDigits(TermPosition(0, 0), ds, [c] + rest);
    }
    FeedCons(Reader(Bracket, pos), c, rest);
    FeedDone(Reader(Invalid, pos), rest);
  }

  /** A byte other than a digit or `R` among the column digits gives the
      sentinel, whatever follows. */
  lemma WrongColumnByte(rs: seq<Char>, cs: seq<Char>, c: Char, rest: seq<Char>, more: seq<ReadResult>)
    requires AllDigits(rs) && AllDigits(cs) && !IsDigit(c) && c != ReplyTerminator
    ensures CursorReply([Bytes([Esc, LeftBracket] + rs + [RowTerminator] + cs + [c] + rest)] + more) == InvalidPos
  {
    var atRow := TermPosition(0, AccumulateU16(0, rs));
    var pos := atRow.(col := AccumulateU16(0, cs));
    var tail := [RowTerminator] + (cs + ([c] + rest));
    assert Feed(Fresh, [Esc, LeftBracket] + rs + [RowTerminator] + cs + [c] + rest)
        == Feed(Reader(Bracket, atRow), tail) by {
      assert [Esc, LeftBracket] + rs + [RowTerminator] + cs + [c] + rest == [Esc, LeftBracket] + (rs + tail);
      ReplyHead(rs + tail);
      RowDigits(TermPosition(0, 0), rs, tail);
    }
    assert Feed(Reader(Bracket, atRow), tail) == Feed(Reader(Column, pos), [c] + rest) by {
      FeedCons(Reader(Bracket, atRow), RowTerminator, cs + ([c] + rest));
      ColumnDigits(atRow, cs, [c] + rest);
    }
    FeedCons(Reader(Column, pos), c, rest);
    FeedDone(Reader(Invalid, pos), rest);
  }
}
