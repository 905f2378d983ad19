/** The operation log's tail reader (crates/trashd-common/src/oplog.rs, `read_log_tail`).
  *
  * It walks the file backwards in 8192-byte chunks, counting line ends, and stops
  * in the middle of a chunk.  It is proved to return exactly the last lines.
  */
module OpLog {
  import opened Wrappers
  import opened Bytes
  import opened LineText
  import TextCodec

  const CHUNK := 8192

  // ---------------------------------------------------------------- lines

  /** The lines of a log. */
  function LogLines(s: Text): seq<Text> {
    Lines(s, LF, CR)
  }

  function Last<T>(items: seq<T>, n: nat): seq<T> {
    if |items| <= n then items else items[|items| - n..]
  }

  /** Line feeds at positions `from` up to, not including, `to`. */
  function Breaks(s: Text, from: nat, to: nat): (n: nat)
    requires from <= |s|
    requires to <= |s|
    decreases |s| - from
  {
    if from >= to then 0 else (if s[from] == LF then 1 else 0) + Breaks(s, from + 1, to)
  }

  lemma {:induction false} BreaksSkip(s: Text, from: nat, k: nat, to: nat)
    requires from <= k <= to <= |s| && forall j :: from <= j < k ==> s[j] != LF
    ensures Breaks(s, from, to) == Breaks(s, k, to)
    decreases |s| - from
  {
    if from < k { BreaksSkip(s, from + 1, k, to); }
  }

  lemma {:induction false} BreaksShift(s: Text, c: nat, from: nat, to: nat)
    requires c <= from <= |s| && c <= to <= |s|
    ensures Breaks(s, from, to) == Breaks(s[c..], from - c, to - c)
    decreases |s| - from
  {
    if from < to { BreaksShift(s, c, from + 1, to); }
  }

  /** A nonempty text has one line more than it has separating line feeds. */
  lemma {:induction false} CountLines(s: Text)
    requires s != []
    ensures |LogLines(s)| == 1 + Breaks(s, 0, |s| - 1)
    decreases |s|
  {
    var k := LineEnd(s, 0, LF);
    if k >= |s| - 1 {
      BreaksSkip(s, 0, |s| - 1, |s| - 1);
      if k < |s| {
        assert s[k + 1..] == [];
        assert LogLines(s) == [DropCr(s[..k], CR)] + LogLines(s[k + 1..]);
      }
    } else {
      BreaksSkip(s, 0, k, |s| - 1);
      assert LogLines(s) == [DropCr(s[..k], CR)] + LogLines(s[k + 1..]);
      CountLines(s[k + 1..]);
      BreaksShift(s, k + 1, k + 1, |s| - 1);
    }
  }

  // ---------------------------------------------------------------- where the tail starts

  /** `c` is where the last `n` lines start: after a line feed that separates two lines, with
    * exactly `n - 1` separators behind it, or at 0 when there are no more than that. */
  predicate IsTailStart(s: Text, n: nat, c: nat) {
    && n > 0 && c <= |s|
    && if c == 0 then s == [] || Breaks(s, 0, |s| - 1) < n
       else c < |s| && s[c - 1] == LF && Breaks(s, c, |s| - 1) == n - 1
  }

  lemma NoLines()
    ensures LogLines([]) == []
  {
  }

  /** The bytes from there on hold exactly the last `n` lines. */
  lemma TailHoldsLastLines(s: Text, n: nat, c: nat)
    requires IsTailStart(s, n, c)
    ensures LogLines(s[c..]) == Last(LogLines(s), n)
  {
    hide Lines, Breaks;
    if s == [] {
      NoLines();
      assert s[c..] == s;
    } else if c == 0 {
      CountLines(s);
      assert s[0..] == s;
    } else {
      LinesSplit(s, c, LF, CR);
      CountLines(s[c..]);
      BreaksShift(s, c, c, |s| - 1);
    }
  }

  lemma {:induction false} BreaksAppend(s: Text, from: nat, mid: nat, to: nat)
    requires from <= mid <= to <= |s|
    ensures Breaks(s, from, to) == Breaks(s, from, mid) + Breaks(s, mid, to)
    decreases |s| - from
  {
    if from < mid { BreaksAppend(s, from + 1, mid, to); }
  }

  lemma TailStartUnique(s: Text, n: nat, c: nat, d: nat)
    requires IsTailStart(s, n, c) && IsTailStart(s, n, d)
    ensures c == d
  {
    if c < d {
      BreaksAppend(s, c, d - 1, |s| - 1);
    } else if d < c {
      BreaksAppend(s, d, c - 1, |s| - 1);
    }
  }

  /** While fewer than `n` separators were seen from `p` on, the tail starts no later than `p`. */
  lemma TailStartsBefore(s: Text, n: nat, p: nat)
    requires p <= |s| && (p < |s| ==> Breaks(s, p, |s| - 1) < n)
    ensures forall c: nat :: IsTailStart(s, n, c) ==> c <= p
  {
    forall c: nat | IsTailStart(s, n, c) ensures c <= p {
      if c > p {
        BreaksAppend(s, p, c - 1, |s| - 1);
      }
    }
  }

  /** A valid log has a valid tail: the cut never falls inside a character. */
  lemma ValidLogHasValidTail(s: Text, n: nat, c: nat)
    requires IsUtf8(s) && IsTailStart(s, n, c)
    ensures IsUtf8(s[c..])
  {
    if c == 0 { assert s[0..] == s; } else { SuffixAfterAscii(s, c - 1); }
  }

  // ---------------------------------------------------------------- read_log_tail

  function Reverse(s: Text): (r: Text)
    ensures |r| == |s|
  {
    seq(|s|, i requires 0 <= i < |s| => s[|s| - 1 - i])
  }

  /** The reader has pushed everything from `p` on and still wants `remaining` lines. */
  predicate Collected(log: Text, maxLines: nat, p: nat, remaining: nat, reversed: Text) {
    && p <= |log| && 0 < remaining <= maxLines
    && Reverse(reversed) == log[p..]
    && (if p == |log| then remaining == maxLines else Breaks(log, p, |log| - 1) == maxLines - remaining)
  }

  /** One byte further back: a separator is counted before it is pushed. */
  lemma CollectOne(log: Text, maxLines: nat, p: nat, remaining: nat, reversed: Text)
    requires Collected(log, maxLines, p, remaining, reversed) && p > 0
    ensures var separates := log[p - 1] == LF && p - 1 != |log| - 1;
            var wanted := if separates then remaining - 1 else remaining;
            if wanted == 0 then IsTailStart(log, maxLines, p)
            else Collected(log, maxLines, p - 1, wanted, reversed + [log[p - 1]])
  {
    var pushed := Reverse(reversed + [log[p - 1]]);
    forall i | 0 <= i < |pushed| ensures pushed[i] == log[p - 1..][i] {
      if i > 0 { assert Reverse(reversed)[i - 1] == log[p..][i - 1]; }
    }
  }

  /** Nothing read yet. */
  lemma CollectNothing(log: Text, maxLines: nat)
    requires maxLines > 0
    ensures Collected(log, maxLines, |log|, maxLines, [])
  {
    assert Reverse([]) == [];
  }

  lemma CollectedIs(log: Text, maxLines: nat, p: nat, remaining: nat, reversed: Text)
    requires Collected(log, maxLines, p, remaining, reversed)
    ensures p <= |log| && 0 < remaining && Reverse(reversed) == log[p..]
    ensures p < |log| ==> Breaks(log, p, |log| - 1) < maxLines
    ensures p == 0 ==> IsTailStart(log, maxLines, 0)
  {
  }

  datatype Error = ReadFailed(position: nat) | NotUtf8

  /** `log` is what lies below the end offset; `readable(p)` says whether the read at `p`
    * succeeds; `low` and `high` bound the last chunk that was asked for. That chunk reaches the
    * cut, and lies wholly before it exactly when the cut falls on a chunk boundary: the line feed
    * in front of the cut must be seen. All other chunks lie above it. */
  method ReadLogTail(log: Text, maxLines: nat, readable: nat -> bool)
    returns (r: Result<seq<Text>, Error>, ghost cut: nat, ghost low: nat, ghost high: nat)
    ensures maxLines == 0 ==> r == Ok([])
    ensures maxLines > 0 && !(r.Err? && r.error.ReadFailed?) ==>
              && IsTailStart(log, maxLines, cut)
              && r == (if IsUtf8(log[cut..]) then Ok(Last(LogLines(log), maxLines)) else Err(NotUtf8))
              && IsLastChunk(|log|, low, high) && low <= cut <= high
              && (log != [] ==> readable(low) && (high <= cut <==> IsOnBoundary(|log|, cut)))
    ensures r.Err? && r.error.ReadFailed? ==>
              && !readable(r.error.position) && r.error.position == low && IsLastChunk(|log|, low, high)
              && forall c: nat :: IsTailStart(log, maxLines, c) ==> c <= high
  {
    cut, low, high := 0, |log|, |log|;
    if maxLines == 0 {
      assert Last(LogLines(log), 0) == [];
      r := Ok([]);
      return;
    }
    var end := |log|;
    var position: nat := end;
    var remaining: nat := maxLines;
    var reversed: Text := [];
    ghost var p := end;   // everything from here on has been pushed
    CollectNothing(log, maxLines);
    hide Collected, Breaks, IsTailStart, Reverse, LogLines, Last, IsUtf8;
    label chunks: while position > 0
      invariant p == position == low && Collected(log, maxLines, p, remaining, reversed)
      invariant if position == end then high == end else IsLastChunk(end, low, high) && readable(low)
      invariant position > 0 ==> (end - position) % CHUNK == 0
      decreases position
    {
      var length := if position < CHUNK then position else CHUNK;
      NextBoundary(end, position);
      high := position;
      position := position - length;
      low := position;
      if !readable(position) {
        CollectedIs(log, maxLines, p, remaining, reversed);
        TailStartsBefore(log, maxLines, p);
        r := Err(ReadFailed(position));
        return;
      }
      var chunk := log[position..position + length];
      var index := length;
      while index > 0
        invariant 0 <= index <= length && p == position + index
        invariant Collected(log, maxLines, p, remaining, reversed)
      {
        index := index - 1;
        var byte := chunk[index];
        CollectedIs(log, maxLines, p, remaining, reversed);
        CollectOne(log, maxLines, p, remaining, reversed);
        if byte == LF && position + index != end - 1 {
          remaining := remaining - 1;
          if remaining == 0 {
            break chunks;
          }
        }
        reversed := reversed + [byte];
        p := p - 1;
      }
    }
    cut := p;
    if remaining > 0 { CollectedIs(log, maxLines, p, remaining, reversed); }
    OnlyTopIsBoundary(end, low, high, cut);
    r := Decode(log, maxLines, cut, Reverse(reversed));
  }

  /** A chunk the reader asks for: aligned from the end, and cut short only at the start. */
  predicate IsLastChunk(end: nat, low: nat, high: nat) {
    if end == 0 then low == high == 0
    else low < high <= end && (end - high) % CHUNK == 0 && low == if high < CHUNK then 0 else high - CHUNK
  }

  predicate IsOnBoundary(end: nat, cut: nat) {
    0 < cut <= end && (end - cut) % CHUNK == 0
  }

  lemma NextBoundary(end: nat, position: nat)
    requires 0 < position <= end && (end - position) % CHUNK == 0
    ensures position >= CHUNK ==> (end - (position - CHUNK)) % CHUNK == 0
  {
  }

  /** Inside a chunk only its upper end is a boundary. */
  lemma OnlyTopIsBoundary(end: nat, low: nat, high: nat, cut: nat)
    requires IsLastChunk(end, low, high) && low <= cut <= high
    requires cut == low ==> cut == 0
    ensures end > 0 ==> (high <= cut <==> IsOnBoundary(end, cut))
  {
    if low < cut < high {
      assert (end - cut) - (end - high) == high - cut < CHUNK;
      assert (end - cut) % CHUNK == ((end - high) % CHUNK + (high - cut)) % CHUNK;
    }
  }

  /** A log whose last line fills exactly one chunk: its tail starts at 1, and the byte before is
    * read as a chunk of its own. */
  lemma ExtraChunkWitness(log: Text)
    requires log == [LF] + seq(CHUNK, _ => 97)
    ensures IsTailStart(log, 1, 1) && IsOnBoundary(|log|, 1)
    ensures IsLastChunk(|log|, 0, 1)
  {
    forall j | 1 <= j < |log| ensures log[j] != LF { }
    BreaksSkip(log, 1, |log| - 1, |log| - 1);
  }

  /** The collected bytes as lines. */
  method Decode(log: Text, maxLines: nat, ghost cut: nat, content: Text) returns (r: Result<seq<Text>, Error>)
    requires IsTailStart(log, maxLines, cut) && content == log[cut..]
    ensures r == if IsUtf8(content) then Ok(Last(LogLines(log), maxLines)) else Err(NotUtf8)
  {
    TailHoldsLastLines(log, maxLines, cut);
    if !IsUtf8(content) {
      return Err(NotUtf8);
    }
    return Ok(LogLines(content));
  }

  // ---------------------------------------------------------------- writing records

  predicate IsPrintable(b: u8) {
    0x20 <= b <= 0x7E
  }

  function EscapedByte(b: u8): Text {
    if b == BACKSLASH then [BACKSLASH, BACKSLASH]
    else if IsPrintable(b) then [b]
    else [BACKSLASH, 120, HexLower(b / 16), HexLower(b % 16)]
  }

  function EscapedField(value: Text): Text {
    if value == [] then [] else EscapedByte(value[0]) + EscapedField(value[1..])
  }

  /** What an escaped byte looks like: a backslash twice, any other byte outside the printable ones as
    * backslash, x, and two digits; all others stay. */
  lemma EscapedBytesAre(b: u8)
    ensures var c := b as char;
            EscapedField([b]) ==
            if c == '\\' then [b, b]
            else if ' ' <= c <= '~' then [b]
            else ['\\' as int, 'x' as int, "0123456789abcdef"[b / 16] as int, "0123456789abcdef"[b % 16] as int]
  {
    assert EscapedField([b]) == EscapedByte(b) + EscapedField([]);
    LowerDigit(b / 16);
    LowerDigit(b % 16);
  }

  lemma LowerDigit(d: nat)
    requires d < 16
    ensures HexLower(d) == "0123456789abcdef"[d] as int
  {
  }

  lemma {:induction false} EscapedAppend(a: Text, b: Text)
    ensures EscapedField(a + b) == EscapedField(a) + EscapedField(b)
  {
    if a == [] {
      assert a + b == b;
    } else {
      assert (a + b)[1..] == a[1..] + b;
      EscapedAppend(a[1..], b);
    }
  }

  /** escape_field_bytes. */
  method EscapeFieldBytes(value: Text) returns (escaped: Text)
    ensures escaped == EscapedField(value)
  {
    escaped := [];
    for i := 0 to |value|
      invariant escaped == EscapedField(value[..i])
    {
      assert value[..i + 1] == value[..i] + [value[i]];
      EscapedAppend(value[..i], [value[i]]);
      assert EscapedField([value[i]]) == EscapedByte(value[i]) + EscapedField([]);
      escaped := escaped + EscapedByte(value[i]);
    }
    assert value[..|value|] == value;
  }

  predicate AllPrintable(s: Text) {
    forall i :: 0 <= i < |s| ==> IsPrintable(s[i])
  }

  /** A field is printable ASCII, so it can hold no line end. */
  lemma {:induction false} FieldsArePrintable(value: Text)
    ensures AllPrintable(EscapedField(value))
  {
    if value != [] {
      FieldsArePrintable(value[1..]);
    }
  }

  lemma FirstByteShows(a: u8, b: u8, s: Text, t: Text)
    requires EscapedByte(a) + s == EscapedByte(b) + t
    ensures a == b && s == t
  {
    var l, r := EscapedByte(a) + s, EscapedByte(b) + t;
    assert l[0] == EscapedByte(a)[0] && r[0] == EscapedByte(b)[0];
    if a == BACKSLASH || !IsPrintable(a) || b == BACKSLASH || !IsPrintable(b) {
      assert |EscapedByte(a)| > 1 && |EscapedByte(b)| > 1;
      assert l[1] == EscapedByte(a)[1] && r[1] == EscapedByte(b)[1];
      if a != BACKSLASH {
        assert l[2] == EscapedByte(a)[2] && r[2] == EscapedByte(b)[2];
        assert l[3] == EscapedByte(a)[3] && r[3] == EscapedByte(b)[3];
        assert a == 16 * (a / 16) + a % 16 && b == 16 * (b / 16) + b % 16;
      }
    }
    assert EscapedByte(a) == EscapedByte(b);
    assert s == l[|EscapedByte(a)|..] && t == r[|EscapedByte(b)|..];
  }

  /** Different values are written differently. */
  lemma {:induction false} EscapesDiffer(a: Text, b: Text)
    requires EscapedField(a) == EscapedField(b)
    ensures a == b
  {
    if a != [] && b != [] {
      FirstByteShows(a[0], b[0], EscapedField(a[1..]), EscapedField(b[1..]));
      EscapesDiffer(a[1..], b[1..]);
      assert a == [a[0]] + a[1..] && b == [b[0]] + b[1..];
    }
  }

  lemma LastOfConcat<T>(a: seq<T>, b: seq<T>, n: nat)
    requires n <= |b|
    ensures Last(a + b, n) == b[|b| - n..]
  {
  }

  lemma PrintableIsLine(record: Text)
    requires AllPrintable(record)
    ensures IsLine(record, LF, CR)
  {
  }

  /** Records appended to a log of whole lines are found as they are, each as one line. */
  lemma AppendedRecordsAreLines(log: Text, records: seq<Text>)
    requires log == [] || log[|log| - 1] == LF
    requires forall i :: 0 <= i < |records| ==> AllPrintable(records[i])
    ensures LogLines(log + Unlines(records, LF)) == LogLines(log) + records
  {
    hide Lines, Unlines, AllPrintable, IsLine;
    var all, c := log + Unlines(records, LF), |log|;
    LinesSplit(all, c, LF, CR);
    assert all[..c] == log && all[c..] == Unlines(records, LF);
    forall i | 0 <= i < |records| ensures IsLine(records[i], LF, CR) {
      PrintableIsLine(records[i]);
    }
    LinesRoundTrip(records, LF, CR);
  }

  // ---------------------------------------------------------------- the operations' records

  /** What is logged; paths, identifiers and commands are arbitrary bytes. */
  datatype Operation =
    | Trashed(id: Text, path: Text, command: Option<Text>)
    | Restored(id: Text, to: Text)
    | Purged(id: Text)
    | Emptied(count: nat, filter: Option<Text>)

  function Ascii(s: string): (r: Text)
    requires forall i :: 0 <= i < |s| ==> ' ' <= s[i] <= '~'
    ensures AllPrintable(r)
  {
    seq(|s|, i requires 0 <= i < |s| => s[i] as int)
  }

  function Number(n: nat): (r: Text)
    ensures AllPrintable(r)
  {
    Ascii(TextCodec.Digits(n))
  }

  function OrElse(value: Option<Text>, default: string): Text
    requires forall i :: 0 <= i < |default| ==> ' ' <= default[i] <= '~'
  {
    match value case Some(v) => v case None => Ascii(default)
  }

  /** The message of log_trash, log_restore, log_purge and log_empty. */
  function Message(op: Operation): Text {
    match op
    case Trashed(id, path, command) =>
      Ascii("TRASH id=") + EscapedField(id) + Ascii(" path=") + EscapedField(path)
      + Ascii(" cmd=") + EscapedField(OrElse(command, "-"))
    case Restored(id, to) => Ascii("RESTORE id=") + EscapedField(id) + Ascii(" to=") + EscapedField(to)
    case Purged(id) => Ascii("PURGE id=") + EscapedField(id)
    case Emptied(count, filter) =>
      Ascii("EMPTY count=") + Number(count) + Ascii(" filter=") + EscapedField(OrElse(filter, "all"))
  }

  /** One line of write_log, without its line feed. */
  datatype Record = Record(timestamp: string, pid: nat, op: Operation)

  /** Time stamps are digits, dashes, colons and a T. */
  predicate IsTimestamp(s: string) {
    forall i :: 0 <= i < |s| ==> ' ' <= s[i] <= '~'
  }

  function RecordText(r: Record): Text
    requires IsTimestamp(r.timestamp)
  {
    Ascii(r.timestamp) + Ascii(" pid=") + Number(r.pid) + Ascii(" ") + Message(r.op)
  }

  lemma TwoPrintable(a: Text, b: Text)
    requires AllPrintable(a) && AllPrintable(b)
    ensures AllPrintable(a + b)
  {
  }

  lemma LabelledField(before: Text, name: Text, value: Text)
    requires AllPrintable(before) && AllPrintable(name)
    ensures AllPrintable(before + name + EscapedField(value))
  {
    hide EscapedField, AllPrintable;
    FieldsArePrintable(value);
    TwoPrintable(before, name);
    TwoPrintable(before + name, EscapedField(value));
  }

  lemma NothingIsPrintable(s: Text)
    ensures AllPrintable([]) && [] + s == s
  {
  }

  lemma MessageIsPrintable(op: Operation)
    ensures AllPrintable(Message(op))
  {
    hide EscapedField, Ascii, Number, AllPrintable, OrElse;
    match op
    case Trashed(id, path, command) =>
      NothingIsPrintable(Ascii("TRASH id="));
      LabelledField([], Ascii("TRASH id="), id);
      var first := Ascii("TRASH id=") + EscapedField(id);
      LabelledField(first, Ascii(" path="), path);
      LabelledField(first + Ascii(" path=") + EscapedField(path), Ascii(" cmd="), OrElse(command, "-"));
    case Restored(id, to) =>
      NothingIsPrintable(Ascii("RESTORE id="));
      LabelledField([], Ascii("RESTORE id="), id);
      LabelledField(Ascii("RESTORE id=") + EscapedField(id), Ascii(" to="), to);
    case Purged(id) =>
      NothingIsPrintable(Ascii("PURGE id="));
      LabelledField([], Ascii("PURGE id="), id);
    case Emptied(count, filter) =>
      TwoPrintable(Ascii("EMPTY count="), Number(count));
      LabelledField(Ascii("EMPTY count=") + Number(count), Ascii(" filter="), OrElse(filter, "all"));
  }

  /** No field, whatever its bytes, takes a record out of its line. */
  lemma RecordsArePrintable(r: Record)
    requires IsTimestamp(r.timestamp)
    ensures AllPrintable(RecordText(r))
  {
    hide Ascii, Number, AllPrintable, Message;
    MessageIsPrintable(r.op);
    var head := Ascii(r.timestamp) + Ascii(" pid=");
    TwoPrintable(Ascii(r.timestamp), Ascii(" pid="));
    TwoPrintable(head, Number(r.pid));
    TwoPrintable(head + Number(r.pid), Ascii(" "));
    TwoPrintable(head + Number(r.pid) + Ascii(" "), Message(r.op));
  }

  lemma AsciiAppend(a: string, b: string)
    requires forall i :: 0 <= i < |a| ==> ' ' <= a[i] <= '~'
    requires forall i :: 0 <= i < |b| ==> ' ' <= b[i] <= '~'
    ensures Ascii(a + b) == Ascii(a) + Ascii(b)
  {
  }

  /** A word, and what follows it behind a space. */
  lemma WordsJoin(a: Text, tag: string, value: Text)
    requires forall i :: 0 <= i < |tag| ==> ' ' <= tag[i] <= '~'
    ensures Split(a + Ascii(" " + tag) + value, SPACE) == Split(a, SPACE) + Split(Ascii(tag) + value, SPACE)
  {
    AsciiAppend(" ", tag);
    assert a + Ascii(" " + tag) + value == a + [SPACE] + (Ascii(tag) + value);
    SplitJoined(a, SPACE, Ascii(tag) + value);
  }

  /** What a line says, word by word: the operation, and each of its fields under its own tag. A
    * missing command reads as a dash, a missing filter as all. */
  lemma MessageWords(op: Operation)
    ensures Split(Message(op), SPACE) ==
            match op
            case Trashed(id, path, command) =>
              [Ascii("TRASH")] + Split(Ascii("id=") + EscapedField(id), SPACE)
              + Split(Ascii("path=") + EscapedField(path), SPACE)
              + Split(Ascii("cmd=") + EscapedField(if command.Some? then command.value else Ascii("-")), SPACE)
            case Restored(id, to) =>
              [Ascii("RESTORE")] + Split(Ascii("id=") + EscapedField(id), SPACE)
              + Split(Ascii("to=") + EscapedField(to), SPACE)
            case Purged(id) => [Ascii("PURGE")] + Split(Ascii("id=") + EscapedField(id), SPACE)
            case Emptied(count, filter) =>
              [Ascii("EMPTY")] + Split(Ascii("count=") + Number(count), SPACE)
              + Split(Ascii("filter=") + EscapedField(if filter.Some? then filter.value else Ascii("all")), SPACE)
  {
    hide Split, EscapedField, Number;
    match op
    case Trashed(id, path, command) =>
      FirstWord("TRASH", "id=", EscapedField(id));
      assert "TRASH" + " " + "id=" == "TRASH id=" && " " + "path=" == " path=" && " " + "cmd=" == " cmd=";
      var first := Ascii("TRASH id=") + EscapedField(id);
      WordsJoin(first, "path=", EscapedField(path));
      WordsJoin(first + Ascii(" path=") + EscapedField(path), "cmd=", EscapedField(OrElse(command, "-")));
    case Restored(id, to) =>
      FirstWord("RESTORE", "id=", EscapedField(id));
      assert "RESTORE" + " " + "id=" == "RESTORE id=" && " " + "to=" == " to=";
      WordsJoin(Ascii("RESTORE id=") + EscapedField(id), "to=", EscapedField(to));
    case Purged(id) =>
      FirstWord("PURGE", "id=", EscapedField(id));
      assert "PURGE" + " " + "id=" == "PURGE id=";
    case Emptied(count, filter) =>
      FirstWord("EMPTY", "count=", Number(count));
      assert "EMPTY" + " " + "count=" == "EMPTY count=" && " " + "filter=" == " filter=";
      WordsJoin(Ascii("EMPTY count=") + Number(count), "filter=", EscapedField(OrElse(filter, "all")));
  }

  /** And the whole line: the time, the process, and the message. */
  lemma RecordWords(r: Record)
    requires IsTimestamp(r.timestamp)
    ensures Split(RecordText(r), SPACE) ==
            Split(Ascii(r.timestamp), SPACE) + Split(Ascii("pid=") + Number(r.pid), SPACE) + Split(Message(r.op), SPACE)
  {
    hide Split, Message, Number;
    var head := Ascii(r.timestamp) + Ascii(" pid=") + Number(r.pid);
    assert " " + "pid=" == " pid=";
    WordsJoin(Ascii(r.timestamp), "pid=", Number(r.pid));
    assert RecordText(r) == head + [SPACE] + Message(r.op);
    SplitJoined(head, SPACE, Message(r.op));
  }

  lemma FirstWord(word: string, tag: string, value: Text)
    requires forall i :: 0 <= i < |word| ==> ' ' < word[i] <= '~'
    requires forall i :: 0 <= i < |tag| ==> ' ' <= tag[i] <= '~'
    ensures Split(Ascii(word + " " + tag) + value, SPACE) == [Ascii(word)] + Split(Ascii(tag) + value, SPACE)
  {
    assert word + " " + tag == word + (" " + tag);
    AsciiAppend(word, " " + tag);
    WordsJoin(Ascii(word), tag, value);
    SplitWhole(Ascii(word), SPACE);
  }

  /** A space is not escaped, so a label inside a field passes for the next field: for all such parts
    * these two operations are written alike. */
  lemma LabelsCanBeForged(a: Text, b: Text, c: Text)
    ensures Message(Restored(a + Ascii(" to=") + b, c)) == Message(Restored(a, b + Ascii(" to=") + c))
  {
    hide EscapedField;
    var tag := Ascii(" to=");
    EscapedPlain(tag);
    EscapedAppend(a + tag, b);
    EscapedAppend(a, tag);
    EscapedAppend(b + tag, c);
    EscapedAppend(b, tag);
  }

  lemma {:induction false} EscapedPlain(s: Text)
    requires AllPrintable(s) && BACKSLASH !in s
    ensures EscapedField(s) == s
  {
    if s != [] {
      EscapedPlain(s[1..]);
      assert s == [s[0]] + s[1..];
    }
  }

  /** No field but the last has a space. */
  predicate IsSpaceless(op: Operation) {
    match op
    case Trashed(id, path, _) => SPACE !in id && SPACE !in path
    case Restored(id, _) => SPACE !in id
    case _ => true
  }

  /** The same operation, up to what a missing command or filter is written as. */
  predicate ReadsAs(a: Operation, b: Operation) {
    match a
    case Trashed(id, path, command) =>
      b.Trashed? && b.id == id && b.path == path && OrElse(b.command, "-") == OrElse(command, "-")
    case Restored(id, to) => b == a
    case Purged(id) => b == a
    case Emptied(count, filter) => b.Emptied? && b.count == count && OrElse(b.filter, "all") == OrElse(filter, "all")
  }

  lemma {:induction false} EscapedSpaceless(value: Text)
    requires SPACE !in value
    ensures SPACE !in EscapedField(value)
  {
    if value != [] { EscapedSpaceless(value[1..]); }
  }

  lemma WordIsOwn(tag: string, a: Text, b: Text)
    requires forall i :: 0 <= i < |tag| ==> ' ' < tag[i] <= '~'
    requires SPACE !in a && SPACE !in b
    ensures Split(Ascii(tag) + EscapedField(a), SPACE) == [Ascii(tag) + EscapedField(a)]
    ensures Ascii(tag) + EscapedField(a) == Ascii(tag) + EscapedField(b) ==> a == b
  {
    hide Split;
    EscapedSpaceless(a);
    SplitWhole(Ascii(tag) + EscapedField(a), SPACE);
    if Ascii(tag) + EscapedField(a) == Ascii(tag) + EscapedField(b) {
      SameTail(Ascii(tag), EscapedField(a), EscapedField(b));
      EscapesDiffer(a, b);
    }
  }

  lemma SameTail(head: Text, a: Text, b: Text)
    requires head + a == head + b
    ensures a == b
  {
    assert a == (head + a)[|head|..] && b == (head + b)[|head|..];
  }

  lemma CountShows(n: nat, m: nat)
    ensures Split(Ascii("count=") + Number(n), SPACE) == [Ascii("count=") + Number(n)]
    ensures Ascii("count=") + Number(n) == Ascii("count=") + Number(m) ==> n == m
  {
    hide Split;
    SplitWhole(Ascii("count=") + Number(n), SPACE);
    if Ascii("count=") + Number(n) == Ascii("count=") + Number(m) {
      SameTail(Ascii("count="), Number(n), Number(m));
      var x, y := TextCodec.Digits(n), TextCodec.Digits(m);
      assert |Number(n)| == |x| && |Number(m)| == |y|;
      forall i | 0 <= i < |x| ensures x[i] == y[i] { assert Number(n)[i] == Number(m)[i]; }
      assert x == y;
      TextCodec.DigitsRoundTrip(n);
      TextCodec.DigitsRoundTrip(m);
    }
  }

  lemma KindShows(a: Operation, b: Operation)
    requires Message(a) == Message(b)
    ensures (a.Trashed? <==> b.Trashed?) && (a.Restored? <==> b.Restored?) && (a.Purged? <==> b.Purged?)
  {
    hide EscapedField, Number;
    assert Message(a)[0] == (if a.Trashed? then 84 else if a.Restored? then 82 else if a.Purged? then 80 else 69);
    assert Message(b)[0] == (if b.Trashed? then 84 else if b.Restored? then 82 else if b.Purged? then 80 else 69);
  }

  /** Operations without such spaces are written differently. */
  lemma OperationsDiffer(a: Operation, b: Operation)
    requires Message(a) == Message(b) && IsSpaceless(a) && IsSpaceless(b)
    ensures ReadsAs(a, b)
  {
    hide Split, EscapedField, Number;
    KindShows(a, b);
    MessageWords(a);
    MessageWords(b);
    match a
    case Trashed(id, path, command) =>
      WordIsOwn("id=", id, b.id);
      WordIsOwn("id=", b.id, id);
      WordIsOwn("path=", path, b.path);
      WordIsOwn("path=", b.path, path);
      var words, others := Split(Message(a), SPACE), Split(Message(b), SPACE);
      assert words[1] == others[1] && words[2] == others[2];
      var head := Ascii("TRASH id=") + EscapedField(id) + Ascii(" path=") + EscapedField(path) + Ascii(" cmd=");
      SameTail(head, EscapedField(OrElse(command, "-")), EscapedField(OrElse(b.command, "-")));
      EscapesDiffer(OrElse(command, "-"), OrElse(b.command, "-"));
    case Restored(id, to) =>
      WordIsOwn("id=", id, b.id);
      WordIsOwn("id=", b.id, id);
      assert Split(Message(a), SPACE)[1] == Split(Message(b), SPACE)[1];
      SameTail(Ascii("RESTORE id=") + EscapedField(id) + Ascii(" to="), EscapedField(to), EscapedField(b.to));
      EscapesDiffer(to, b.to);
    case Purged(id) =>
      SameTail(Ascii("PURGE id="), EscapedField(id), EscapedField(b.id));
      EscapesDiffer(id, b.id);
    case Emptied(count, filter) =>
      CountShows(count, b.count);
      CountShows(b.count, count);
      assert Split(Message(a), SPACE)[1] == Split(Message(b), SPACE)[1];
      SameTail(Ascii("EMPTY count=") + Number(count) + Ascii(" filter="), EscapedField(OrElse(filter, "all")),
               EscapedField(OrElse(b.filter, "all")));
      EscapesDiffer(OrElse(filter, "all"), OrElse(b.filter, "all"));
  }

  predicate AllTimed(records: seq<Record>) {
    forall i :: 0 <= i < |records| ==> IsTimestamp(records[i].timestamp)
  }

  function Texts(records: seq<Record>): (r: seq<Text>)
    requires AllTimed(records)
    ensures |r| == |records| && forall i :: 0 <= i < |records| ==> r[i] == RecordText(records[i])
  {
    seq(|records|, i requires 0 <= i < |records| => RecordText(records[i]))
  }

  /** What write_log appends, record after record. */
  function Appended(log: Text, records: seq<Record>): Text
    requires AllTimed(records)
  {
    log + Unlines(Texts(records), LF)
  }

  /** A tail of the log holds the last operations in order, each as one line: whatever bytes the
    * identifiers, paths, commands and filters hold, no record can forge another. */
  lemma AppendedRecordsReadBack(log: Text, records: seq<Record>, n: nat)
    requires log == [] || log[|log| - 1] == LF
    requires AllTimed(records) && n <= |records|
    ensures LogLines(Appended(log, records)) == LogLines(log) + Texts(records)
    ensures Last(LogLines(Appended(log, records)), n) == Texts(records)[|records| - n..]
  {
    hide LogLines, Unlines, AllPrintable, Last, RecordText;
    var texts := Texts(records);
    forall i | 0 <= i < |texts| ensures AllPrintable(texts[i]) {
      RecordsArePrintable(records[i]);
    }
    AppendedRecordsAreLines(log, texts);
    LastOfConcat(LogLines(log), texts, n);
  }
}
