/** The `.trashinfo` sidecar (crates/trashd-common/src/trashinfo.rs): what
  * `to_trashinfo_string` writes, `parse_with_resolver` reads back, and nothing in the
  * recorded command can change that.
  *
  * Dates are abstract: a codec says how a date is written and what a written date resolves to. */
module TrashInfo {
  import opened Wrappers
  import opened Bytes
  import opened LineText
  import opened TextCodec

  // ---------------------------------------------------------------- characters and trimming

  /** `char::is_control`: the Unicode category Cc. */
  predicate IsControl(c: char) {
    var n := c as int;
    n < 0x20 || 0x7F <= n < 0xA0
  }

  /** `char::is_whitespace`: the Unicode property White_Space. */
  predicate IsWhitespace(c: char) {
    var n := c as int;
    || 9 <= n <= 13 || n == 0x20 || n == 0x85 || n == 0xA0 || n == 0x1680
    || 0x2000 <= n <= 0x200A || n == 0x2028 || n == 0x2029 || n == 0x202F || n == 0x205F || n == 0x3000
  }

  function TrimStart(s: string): string {
    if s != "" && IsWhitespace(s[0]) then TrimStart(s[1..]) else s
  }

  function TrimEnd(s: string): (r: string)
    ensures s != "" && !IsWhitespace(s[0]) ==> r != "" && r[0] == s[0]
  {
    if s != "" && IsWhitespace(s[|s| - 1]) then TrimEnd(s[..|s| - 1]) else s
  }

  function Trim(s: string): string {
    TrimEnd(TrimStart(s))
  }

  predicate IsTrimmed(s: string) {
    s == "" || (!IsWhitespace(s[0]) && !IsWhitespace(s[|s| - 1]))
  }

  /** What the writer keeps of a command. */
  function StripControl(s: string): (r: string)
    ensures forall c :: c in r ==> !IsControl(c)
  {
    if s == "" then "" else (if IsControl(s[0]) then "" else [s[0]]) + StripControl(s[1..])
  }

  /** Each control character goes, wherever it stands, and every other character stays in its place. */
  lemma {:induction false} StripsOneByOne(a: string, c: char, b: string)
    ensures StripControl(a + [c] + b) == StripControl(a) + (if IsControl(c) then "" else [c]) + StripControl(b)
  {
    if a == "" {
      assert a + [c] + b == [c] + b;
    } else {
      assert (a + [c] + b)[1..] == a[1..] + [c] + b;
      StripsOneByOne(a[1..], c, b);
    }
  }

  /** What has none is kept as it is. */
  lemma {:induction false} OrdinaryIsKept(s: string)
    requires forall c :: c in s ==> !IsControl(c)
    ensures StripControl(s) == s
  {
    if s != "" {
      OrdinaryIsKept(s[1..]);
      assert s == [s[0]] + s[1..];
    }
  }

  // ---------------------------------------------------------------- keys

  datatype Key = Path | DeletionDate | Command | Pid | Size | Hash | Compressed | DeletedNs

  const HEADER := "[Trash Info]"

  function KeyName(k: Key): (s: string)
    ensures s != "" && s[0] in {'P', 'D', 'X'} && IsTrimmed(s)
    ensures '=' !in s && '\n' !in s
  {
    match k
    case Path => "Path"
    case DeletionDate => "DeletionDate"
    case Command => "X-Trashd-Command"
    case Pid => "X-Trashd-PID"
    case Size => "X-Trashd-Size"
    case Hash => "X-Trashd-Hash"
    case Compressed => "X-Trashd-Compressed"
    case DeletedNs => "X-Trashd-DeletedNs"
  }

  /** Which field a key names; the hash has an older second name. */
  function KeyOf(name: string): Option<Key> {
    if name == "Path" then Some(Path)
    else if name == "DeletionDate" then Some(DeletionDate)
    else if name == "X-Trashd-Command" then Some(Command)
    else if name == "X-Trashd-PID" then Some(Pid)
    else if name == "X-Trashd-Size" then Some(Size)
    else if name == "X-Trashd-Hash" || name == "X-Trashd-SHA256" then Some(Hash)
    else if name == "X-Trashd-Compressed" then Some(Compressed)
    else if name == "X-Trashd-DeletedNs" then Some(DeletedNs)
    else None
  }

  lemma KeyOfName(k: Key)
    ensures KeyOf(Trim(KeyName(k))) == Some(k)
  {
    var s := KeyName(k);
    assert TrimStart(s) == s && TrimEnd(s) == s;
    assert "X-Trashd-Size"[9] != "X-Trashd-Hash"[9];
  }

  // ---------------------------------------------------------------- path segments

  predicate IsDots(segment: Text) {
    segment == [DOT] || segment == [DOT, DOT]
  }

  /** Some slash-separated piece of the path is `.` or `..`. */
  predicate HasDotSegment(path: Text) {
    exists i :: 0 <= i < |Split(path, SLASH)| && IsDots(Split(path, SLASH)[i])
  }

  /** `components()` yields a ParentDir. */
  predicate HasParentComponent(path: Text) {
    [DOT, DOT] in Split(path, SLASH)
  }

  /** The check on the value as written, before it is decoded as a whole. */
  predicate WrittenDotSegment(value: string) {
    exists i :: 0 <= i < |Split(value, '/')| && IsDots(Decode(StringBytes(Split(value, '/')[i])))
  }

  lemma {:induction false} EncodeKeepsSegmentsWhole(segment: Text)
    requires SLASH !in segment
    ensures '/' !in Encode(segment, true)
  {
    if segment != [] {
      EncodeKeepsSegmentsWhole(segment[1..]);
    }
  }

  lemma EncodeSlash(head: Text, tail: Text)
    ensures Encode(head + [SLASH] + tail, true) == Encode(head, true) + "/" + Encode(tail, true)
  {
    EncodeAppend(head + [SLASH], tail, true);
    EncodeAppend(head, [SLASH], true);
    assert [SLASH][1..] == [];
    assert Encode([SLASH], true) == "/";
  }

  /** Encoding a path encodes its segments. */
  lemma {:induction false} SplitEncoded(path: Text)
    ensures var written, plain := Split(Encode(path, true), '/'), Split(path, SLASH);
            && |written| == |plain|
            && forall i :: 0 <= i < |plain| ==> written[i] == Encode(plain[i], true)
    decreases |path|
  {
    hide Encode, Split;
    var k := LineEnd(path, 0, SLASH);
    var head := path[..k];
    EncodeKeepsSegmentsWhole(head);
    assert k < |path| ==> path == head + [SLASH] + path[k + 1..];
    if k == |path| {
      assert head == path;
      SplitWhole(path, SLASH);
      SplitWhole(Encode(head, true), '/');
    } else {
      var tail := path[k + 1..];
      EncodeSlash(head, tail);
      SplitFirst(head, SLASH, tail);
      SplitFirst(Encode(head, true), '/', Encode(tail, true));
      SplitEncoded(tail);
    }
  }

  lemma WrittenMeansPlain(path: Text)
    ensures WrittenDotSegment(Encode(path, true)) <==> HasDotSegment(path)
    ensures HasParentComponent(path) ==> HasDotSegment(path)
    ensures HasDotSegment(path) <==> [DOT] in Split(path, SLASH) || [DOT, DOT] in Split(path, SLASH)
  {
    var written, plain := Split(Encode(path, true), '/'), Split(path, SLASH);
    SplitEncoded(path);
    forall i | 0 <= i < |plain|
      ensures Decode(StringBytes(written[i])) == plain[i]
    {
      EncodeDecodes(plain[i], true);
    }
    if WrittenDotSegment(Encode(path, true)) {
      var i :| 0 <= i < |written| && IsDots(Decode(StringBytes(written[i])));
      assert IsDots(plain[i]);
    }
    if HasDotSegment(path) {
      var i :| 0 <= i < |plain| && IsDots(plain[i]);
      assert IsDots(Decode(StringBytes(written[i])));
    }
    if HasParentComponent(path) {
      var i :| 0 <= i < |plain| && plain[i] == [DOT, DOT];
      assert IsDots(plain[i]);
    }
  }

  // ---------------------------------------------------------------- the record

  /** How dates are written, and what a written date resolves to, if anything. */
  datatype DateCodec<!D> = DateCodec(format: D -> string, parse: string -> Option<D>)

  datatype Info<D> = Info(path: Text, date: D, command: Option<string>, pid: Option<nat>,
                          size: Option<nat>, hash: Option<string>, compressed: Option<string>,
                          ns: Option<nat>)

  /** What the parser has assigned so far. */
  datatype Fields<D> = Fields(path: Option<Text>, date: Option<D>, command: Option<string>,
                              pid: Option<nat>, size: Option<nat>, hash: Option<string>,
                              compressed: Option<string>, ns: Option<nat>)

  const U32_LIMIT := 0x1_0000_0000
  const U64_LIMIT := 0x1_0000_0000_0000_0000

  function OptionalLine(k: Key, value: Option<string>): seq<string>
  {
    match value case None => [] case Some(v) => [KeyName(k) + "=" + v]
  }

  function Shown(n: Option<nat>): Option<string> {
    match n case None => None case Some(v) => Some(Digits(v))
  }

  function Sanitized(command: Option<string>): Option<string> {
    match command case None => None case Some(c) => Some(StripControl(c))
  }

  /** A part of the record: the keys with the values to write, in order. */
  type Entries = seq<(Key, Option<string>)>

  function EntryList<D>(codec: DateCodec<D>, info: Info<D>): Entries {
    [(Path, Some(Encode(info.path, true))), (DeletionDate, Some(codec.format(info.date))),
     (Command, Sanitized(info.command)), (Pid, Shown(info.pid)), (Size, Shown(info.size)),
     (Hash, info.hash), (Compressed, info.compressed), (DeletedNs, Shown(info.ns))]
  }

  function EntryLines(entries: Entries): seq<string>
  {
    if entries == [] then [] else OptionalLine(entries[0].0, entries[0].1) + EntryLines(entries[1..])
  }

  /** The lines a sidecar is made of. */
  function RecordLines<D>(codec: DateCodec<D>, info: Info<D>): seq<string> {
    [HEADER] + EntryLines(EntryList(codec, info))
  }

  function Serialized<D>(codec: DateCodec<D>, info: Info<D>): string {
    Unlines(RecordLines(codec, info), '\n')
  }

  function EntryText(k: Key, value: Option<string>): string
  {
    match value case None => "" case Some(v) => KeyName(k) + "=" + v + "\n"
  }

  /** The text once the first `i` entries are written. */
  function Upto(entries: Entries, i: nat): string
    requires i <= |entries|
  {
    if i == 0 then HEADER + "\n" else Upto(entries, i - 1) + EntryText(entries[i - 1].0, entries[i - 1].1)
  }

  lemma {:induction false} EntryLinesAppend(a: Entries, b: Entries)
    ensures EntryLines(a + b) == EntryLines(a) + EntryLines(b)
  {
    if a == [] {
      assert a + b == b;
    } else {
      assert (a + b)[1..] == a[1..] + b;
      EntryLinesAppend(a[1..], b);
    }
  }

  lemma EntryTextIsItsLines(k: Key, value: Option<string>)
    ensures Unlines(OptionalLine(k, value), '\n') == EntryText(k, value)
    ensures EntryLines([(k, value)]) == OptionalLine(k, value)
  {
    if value.Some? { assert OptionalLine(k, value)[1..] == []; }
    assert [(k, value)][1..] == [];
  }

  lemma EntryLinesStep(entries: Entries, i: nat)
    requires i < |entries|
    ensures EntryLines(entries[..i + 1]) == EntryLines(entries[..i]) + OptionalLine(entries[i].0, entries[i].1)
    ensures Unlines(OptionalLine(entries[i].0, entries[i].1), '\n') == EntryText(entries[i].0, entries[i].1)
  {
    var (k, value) := entries[i];
    assert entries[..i + 1] == entries[..i] + [(k, value)];
    EntryLinesAppend(entries[..i], [(k, value)]);
    EntryTextIsItsLines(k, value);
  }

  lemma AppendLines(text: string, before: seq<string>, more: seq<string>)
    requires text == Unlines([HEADER] + before, '\n')
    ensures Unlines([HEADER] + (before + more), '\n') == text + Unlines(more, '\n')
  {
    UnlinesAppend([HEADER] + before, more, '\n');
    assert [HEADER] + before + more == [HEADER] + (before + more);
  }

  lemma HeaderAlone(entries: Entries)
    ensures HEADER + "\n" == Unlines([HEADER] + EntryLines(entries[..0]), '\n')
  {
    assert [HEADER] + EntryLines(entries[..0]) == [HEADER] && [HEADER][1..] == [];
  }

  lemma {:induction false} UptoIsItsLines(entries: Entries, i: nat)
    requires i <= |entries|
    ensures Upto(entries, i) == Unlines([HEADER] + EntryLines(entries[..i]), '\n')
  {
    hide Unlines, EntryLines, OptionalLine, EntryText;
    if i == 0 {
      HeaderAlone(entries);
    } else {
      UptoIsItsLines(entries, i - 1);
      EntryLinesStep(entries, i - 1);
      AppendLines(Upto(entries, i - 1), EntryLines(entries[..i - 1]), OptionalLine(entries[i - 1].0, entries[i - 1].1));
    }
  }

  /** One more line, if there is a value. */
  method PushLine(s: string, k: Key, value: Option<string>, ghost entries: Entries, ghost i: nat) returns (r: string)
    requires i < |entries| && entries[i] == (k, value)
    requires s == Upto(entries, i)
    ensures r == Upto(entries, i + 1)
  {
    r := s;
    if value.Some? {
      r := r + (KeyName(k) + "=" + value.value + "\n");
    }
  }

  /** to_trashinfo_string. */
  method Serialize<D>(codec: DateCodec<D>, info: Info<D>) returns (s: string)
    ensures s == Serialized(codec, info)
  {
    var encoded := EncodeText(info.path, true);
    ghost var all := EntryList(codec, info);
    s := HEADER + "\n";
    s := PushLine(s, Path, Some(encoded), all, 0);
    s := PushLine(s, DeletionDate, Some(codec.format(info.date)), all, 1);
    s := PushLine(s, Command, Sanitized(info.command), all, 2);
    s := PushLine(s, Pid, Shown(info.pid), all, 3);
    s := PushLine(s, Size, Shown(info.size), all, 4);
    s := PushLine(s, Hash, info.hash, all, 5);
    s := PushLine(s, Compressed, info.compressed, all, 6);
    s := PushLine(s, DeletedNs, Shown(info.ns), all, 7);
    UptoIsItsLines(all, 8);
    assert all[..8] == all;
  }

  // ---------------------------------------------------------------- parsing

  /** `split_once('=')`. */
  function SplitOnce(line: string): Option<(string, string)> {
    var k := LineEnd(line, 0, '=');
    if k == |line| then None else Some((line[..k], line[k + 1..]))
  }

  function Unset<D>(): Fields<D> {
    Fields(None, None, None, None, None, None, None, None)
  }

  /** One recognized `key=value`; None rejects the whole file. */
  function Assign<D>(codec: DateCodec<D>, f: Fields<D>, key: Key, value: string): Option<Fields<D>> {
    match key
    case Path =>
      if f.path.Some? then Some(f)
      else if WrittenDotSegment(value) then None
      else
        var decoded := Decode(StringBytes(value));
        if HasParentComponent(decoded) then None else Some(f.(path := Some(decoded)))
    case DeletionDate => Some(if f.date.Some? then f else f.(date := codec.parse(Trim(value))))
    case Command => Some(if f.command.Some? then f else f.(command := Some(Trim(value))))
    case Pid => Some(if f.pid.Some? then f else f.(pid := ParseUnsigned(Trim(value), U32_LIMIT)))
    case Size => Some(if f.size.Some? then f else f.(size := ParseUnsigned(Trim(value), U64_LIMIT)))
    case Hash => Some(if f.hash.Some? then f else f.(hash := Some(Trim(value))))
    case Compressed => Some(if f.compressed.Some? then f else f.(compressed := Some(Trim(value))))
    case DeletedNs => Some(if f.ns.Some? then f else f.(ns := ParseUnsigned(Trim(value), U64_LIMIT)))
  }

  /** One line of the file. */
  function Step<D>(codec: DateCodec<D>, f: Fields<D>, line: string): Option<Fields<D>> {
    if Trim(line) == HEADER || Trim(line) == "" then Some(f)
    else
      match SplitOnce(line)
      case None => Some(f)
      case Some((key, value)) =>
        match KeyOf(Trim(key))
        case None => Some(f)
        case Some(k) => Assign(codec, f, k, value)
  }

  function Fold<D>(codec: DateCodec<D>, f: Fields<D>, lines: seq<string>): Option<Fields<D>>
    decreases |lines|
  {
    if lines == [] then Some(f)
    else
      match Step(codec, f, lines[0])
      case None => None
      case Some(g) => Fold(codec, g, lines[1..])
  }

  /** The first line with anything on it. */
  function FirstNonBlank(lines: seq<string>): Option<string> {
    if lines == [] then None
    else if Trim(lines[0]) != "" then Some(lines[0])
    else FirstNonBlank(lines[1..])
  }

  function Finish<D>(f: Fields<D>): Option<Info<D>> {
    match (f.path, f.date)
    case (Some(path), Some(date)) => Some(Info(path, date, f.command, f.pid, f.size, f.hash, f.compressed, f.ns))
    case _ => None
  }

  function ParsedLines<D>(codec: DateCodec<D>, lines: seq<string>): Option<Info<D>> {
    match FirstNonBlank(lines)
    case None => None
    case Some(first) =>
      if Trim(first) != HEADER then None
      else match Fold(codec, Unset(), lines) case None => None case Some(f) => Finish(f)
  }

  function Parsed<D>(codec: DateCodec<D>, content: string): Option<Info<D>> {
    ParsedLines(codec, Lines(content, '\n', '\r'))
  }

  /** parse_with_resolver. */
  method Parse<D>(codec: DateCodec<D>, content: string) returns (r: Option<Info<D>>)
    ensures r == Parsed(codec, content)
  {
    var lines := Lines(content, '\n', '\r');
    var i := 0;
    while i < |lines| && Trim(lines[i]) == ""
      invariant 0 <= i <= |lines|
      invariant FirstNonBlank(lines) == FirstNonBlank(lines[i..])
    {
      i := i + 1;
    }
    if i == |lines| || Trim(lines[i]) != HEADER {
      return None;
    }
    var f: Fields<D> := Unset();
    for j := 0 to |lines|
      invariant Fold(codec, Unset(), lines) == Fold(codec, f, lines[j..])
    {
      assert lines[j..][1..] == lines[j + 1..];
      var g := Step(codec, f, lines[j]);
      if g.None? {
        return None;
      }
      f := g.value;
    }
    r := Finish(f);
  }

  // ---------------------------------------------------------------- any file whatever

  predicate Kept<T(==)>(a: Option<T>, b: Option<T>) {
    a.Some? ==> b == a
  }

  /** Every field set in `f` has the same value in `g`. */
  ghost predicate Extends<D>(f: Fields<D>, g: Fields<D>) {
    && Kept(f.path, g.path) && (f.date.Some? ==> g.date == f.date) && Kept(f.command, g.command)
    && Kept(f.pid, g.pid) && Kept(f.size, g.size) && Kept(f.hash, g.hash)
    && Kept(f.compressed, g.compressed) && Kept(f.ns, g.ns)
  }

  lemma AssignKeeps<D>(codec: DateCodec<D>, f: Fields<D>, key: Key, value: string)
    requires Assign(codec, f, key, value).Some?
    ensures Extends(f, Assign(codec, f, key, value).value)
  {
  }

  lemma StepKeeps<D>(codec: DateCodec<D>, f: Fields<D>, line: string)
    requires Step(codec, f, line).Some?
    ensures Extends(f, Step(codec, f, line).value)
  {
    match SplitOnce(line)
    case None =>
    case Some((key, value)) =>
      if Trim(line) != HEADER && Trim(line) != "" && KeyOf(Trim(key)).Some? {
        AssignKeeps(codec, f, KeyOf(Trim(key)).value, value);
      }
  }

  /** The first occurrence wins, for every field: later lines change nothing that is set. */
  lemma {:induction false} LaterLinesNeverOverride<D>(codec: DateCodec<D>, f: Fields<D>, lines: seq<string>)
    requires Fold(codec, f, lines).Some?
    ensures Extends(f, Fold(codec, f, lines).value)
    decreases |lines|
  {
    if lines != [] {
      StepKeeps(codec, f, lines[0]);
      LaterLinesNeverOverride(codec, Step(codec, f, lines[0]).value, lines[1..]);
    }
  }

  lemma {:induction false} FoldConcat<D>(codec: DateCodec<D>, f: Fields<D>, a: seq<string>, b: seq<string>)
    ensures Fold(codec, f, a + b) ==
            match Fold(codec, f, a) case None => None case Some(g) => Fold(codec, g, b)
    decreases |a|
  {
    if a == [] {
      assert a + b == b;
    } else {
      assert (a + b)[1..] == a[1..] + b && (a + b)[0] == a[0];
      match Step(codec, f, a[0])
      case None =>
      case Some(g) => FoldConcat(codec, g, a[1..], b);
    }
  }

  lemma {:induction false} FirstStaysFirst(a: seq<string>, b: seq<string>)
    ensures FirstNonBlank(a).Some? ==> FirstNonBlank(a + b) == FirstNonBlank(a)
  {
    if a != [] {
      assert (a + b)[0] == a[0] && (a + b)[1..] == a[1..] + b;
      FirstStaysFirst(a[1..], b);
    }
  }

  /** Only a path can have a file rejected, and only the first one is looked at. */
  lemma {:induction false} PathSettled<D>(codec: DateCodec<D>, f: Fields<D>, lines: seq<string>)
    requires f.path.Some?
    ensures Fold(codec, f, lines).Some?
    decreases |lines|
  {
    if lines != [] {
      assert Step(codec, f, lines[0]).Some?;
      StepKeeps(codec, f, lines[0]);
      PathSettled(codec, Step(codec, f, lines[0]).value, lines[1..]);
    }
  }

  /** Nothing appended to a good file overrides what it says, or spoils it: the longer file is
    * accepted, with the same path and date and every extension that was set. */
  lemma AppendedTextNeverOverrides<D>(codec: DateCodec<D>, content: string, more: string)
    requires content == "" || content[|content| - 1] == '\n'
    requires Parsed(codec, content).Some?
    ensures Parsed(codec, content + more).Some?
    ensures var x, y := Parsed(codec, content).value, Parsed(codec, content + more).value;
            && y.path == x.path && y.date == x.date
            && Kept(x.command, y.command) && Kept(x.pid, y.pid) && Kept(x.size, y.size)
            && Kept(x.hash, y.hash) && Kept(x.compressed, y.compressed) && Kept(x.ns, y.ns)
  {
    hide Lines, Fold, FirstNonBlank;
    var all, c := content + more, |content|;
    LinesSplit(all, c, '\n', '\r');
    assert all[..c] == content && all[c..] == more;
    var a, b := Lines(content, '\n', '\r'), Lines(more, '\n', '\r');
    FirstStaysFirst(a, b);
    FoldConcat(codec, Unset<D>(), a, b);
    PathSettled(codec, Fold(codec, Unset<D>(), a).value, b);
    LaterLinesNeverOverride(codec, Fold(codec, Unset<D>(), a).value, b);
  }

  lemma {:induction false} FoldedPathIsSafe<D>(codec: DateCodec<D>, f: Fields<D>, lines: seq<string>)
    requires f.path.Some? ==> !HasParentComponent(f.path.value)
    ensures var r := Fold(codec, f, lines);
            r.Some? && r.value.path.Some? ==> !HasParentComponent(r.value.path.value)
    decreases |lines|
  {
    if lines != [] && Step(codec, f, lines[0]).Some? {
      FoldedPathIsSafe(codec, Step(codec, f, lines[0]).value, lines[1..]);
    }
  }

  /** No file, however crafted, yields a path that climbs to a parent directory. */
  lemma NoSidecarClimbs<D>(codec: DateCodec<D>, content: string)
    ensures var r := Parsed(codec, content);
            r.Some? ==> !HasParentComponent(r.value.path)
  {
    FoldedPathIsSafe(codec, Unset<D>(), Lines(content, '\n', '\r'));
  }

  // ---------------------------------------------------------------- written records read back

  /** Text that a line can carry as a value without losing any of it. */
  predicate IsClean(value: string) {
    '\n' !in value && IsTrimmed(value)
  }

  predicate CleanIfAny(value: Option<string>) {
    value.Some? ==> IsClean(value.value)
  }

  predicate FitsIfAny(n: Option<nat>, limit: nat) {
    n.Some? ==> n.value < limit
  }

  /** What the writer is given: machine integers, and clean hash, compression name and date text. */
  predicate Writable<D>(codec: DateCodec<D>, info: Info<D>) {
    && FitsIfAny(info.pid, U32_LIMIT) && FitsIfAny(info.size, U64_LIMIT) && FitsIfAny(info.ns, U64_LIMIT)
    && CleanIfAny(info.hash) && CleanIfAny(info.compressed) && IsClean(codec.format(info.date))
  }

  lemma TrimClean(s: string)
    requires IsTrimmed(s)
    ensures Trim(s) == s
  {
  }

  lemma SplitAtFirst(key: string, value: string)
    requires '=' !in key
    ensures SplitOnce(key + "=" + value) == Some((key, value))
  {
    var line := key + "=" + value;
    assert line[..|key|] == key && line[|key| + 1..] == value;
    LineEndAt(line, |key|, '=');
  }

  /** A written line assigns exactly its own field. */
  lemma WrittenLine<D>(codec: DateCodec<D>, f: Fields<D>, k: Key, value: string)
    ensures Step(codec, f, KeyName(k) + "=" + value) == Assign(codec, f, k, value)
  {
    var line := KeyName(k) + "=" + value;
    assert line[0] == KeyName(k)[0] && !IsWhitespace(line[0]);
    assert Trim(line)[0] == line[0];
    SplitAtFirst(KeyName(k), value);
    KeyOfName(k);
  }

  function AssignIfAny<D>(codec: DateCodec<D>, f: Fields<D>, k: Key, value: Option<string>): Option<Fields<D>> {
    match value case None => Some(f) case Some(v) => Assign(codec, f, k, v)
  }

  /** Reading the lines of some entries assigns the entries one by one. */
  function AssignAll<D>(codec: DateCodec<D>, f: Fields<D>, entries: Entries): Option<Fields<D>>
    decreases |entries|
  {
    if entries == [] then Some(f)
    else
      match AssignIfAny(codec, f, entries[0].0, entries[0].1)
      case None => None
      case Some(g) => AssignAll(codec, g, entries[1..])
  }

  lemma OptionalLineReads<D>(codec: DateCodec<D>, f: Fields<D>, k: Key, value: Option<string>, rest: seq<string>)
    ensures Fold(codec, f, OptionalLine(k, value) + rest) ==
            match AssignIfAny(codec, f, k, value) case None => None case Some(g) => Fold(codec, g, rest)
  {
    match value
    case None =>
      assert OptionalLine(k, value) + rest == rest;
    case Some(v) =>
      WrittenLine(codec, f, k, v);
      assert (OptionalLine(k, value) + rest)[1..] == rest;
  }

  lemma {:induction false} EntriesRead<D>(codec: DateCodec<D>, f: Fields<D>, entries: Entries)
    ensures Fold(codec, f, EntryLines(entries)) == AssignAll(codec, f, entries)
    decreases |entries|
  {
    if entries != [] {
      var (k, value) := entries[0];
      OptionalLineReads(codec, f, k, value, EntryLines(entries[1..]));
      match AssignIfAny(codec, f, k, value)
      case None =>
      case Some(g) => EntriesRead(codec, g, entries[1..]);
    }
  }

  lemma NumberReads(n: nat, limit: nat)
    requires n < limit
    ensures IsClean(Digits(n)) && ParseUnsigned(Trim(Digits(n)), limit) == Some(n)
  {
    var s := Digits(n);
    assert IsDigit(s[0]) && IsDigit(s[|s| - 1]);
    TrimClean(s);
    ParseDigits(n, limit);
  }

  /** What comes back of a command. */
  function ReadCommand(command: Option<string>): Option<string> {
    match command case None => None case Some(c) => Some(Trim(StripControl(c)))
  }

  predicate ValueIsLine(value: string) {
    '\n' !in value && (value != "" ==> value[|value| - 1] != '\r')
  }

  lemma RecordLineIsLine(k: Key, value: string)
    requires ValueIsLine(value)
    ensures IsLine(KeyName(k) + "=" + value, '\n', '\r')
  {
  }

  lemma EncodedIsLine(path: Text)
    ensures ValueIsLine(Encode(path, true))
  {
    var s := Encode(path, true);
    EncodeAlphabet(path, true);
    forall i | 0 <= i < |s| ensures s[i] != '\n' && s[i] != '\r' {
      assert IsEncodedChar(s[i]);
    }
  }

  lemma StrippedIsLine(command: string)
    ensures ValueIsLine(StripControl(command))
  {
    assert IsControl('\n') && IsControl('\r');
    var s := StripControl(command);
    if s != "" { assert s[|s| - 1] in s; }
  }

  predicate Lineable(entry: (Key, Option<string>)) {
    entry.1.Some? ==> ValueIsLine(entry.1.value)
  }

  predicate AllLines(lines: seq<string>) {
    forall i :: 0 <= i < |lines| ==> IsLine(lines[i], '\n', '\r')
  }

  predicate AllLineable(entries: Entries) {
    forall i :: 0 <= i < |entries| ==> Lineable(entries[i])
  }

  lemma {:induction false} EntryLinesAreLines(entries: Entries)
    requires AllLineable(entries)
    ensures AllLines(EntryLines(entries))
  {
    if entries != [] {
      assert Lineable(entries[0]);
      if entries[0].1.Some? { RecordLineIsLine(entries[0].0, entries[0].1.value); }
      EntryLinesAreLines(entries[1..]);
    }
  }

  lemma NumberIsLineable(k: Key, n: Option<nat>, limit: nat)
    requires FitsIfAny(n, limit)
    ensures Lineable((k, Shown(n)))
  {
    if n.Some? { NumberReads(n.value, limit); }
  }

  lemma RecordIsLineable<D>(codec: DateCodec<D>, info: Info<D>)
    requires Writable(codec, info)
    ensures AllLineable(EntryList(codec, info))
  {
    EncodedIsLine(info.path);
    if info.command.Some? { StrippedIsLine(info.command.value); }
    NumberIsLineable(Pid, info.pid, U32_LIMIT);
    NumberIsLineable(Size, info.size, U64_LIMIT);
    NumberIsLineable(DeletedNs, info.ns, U64_LIMIT);
  }

  /** A header and entry lines read as the entries assigned one by one. */
  lemma EntriesTextReads<D>(codec: DateCodec<D>, entries: Entries)
    requires AllLineable(entries)
    ensures Parsed(codec, Unlines([HEADER] + EntryLines(entries), '\n')) ==
            match AssignAll(codec, Unset<D>(), entries) case None => None case Some(f) => Finish(f)
  {
    var lines := [HEADER] + EntryLines(entries);
    EntryLinesAreLines(entries);
    LinesRoundTrip(lines, '\n', '\r');
    assert lines[0] == HEADER && Trim(HEADER) == HEADER && lines[1..] == EntryLines(entries);
    EntriesRead(codec, Unset<D>(), entries);
  }

  lemma AssignNumber<D>(codec: DateCodec<D>, f: Fields<D>, n: Option<nat>)
    ensures f.pid == None && FitsIfAny(n, U32_LIMIT) ==>
              AssignIfAny(codec, f, Pid, Shown(n)) == Some(f.(pid := n))
    ensures f.size == None && FitsIfAny(n, U64_LIMIT) ==>
              AssignIfAny(codec, f, Size, Shown(n)) == Some(f.(size := n))
    ensures f.ns == None && FitsIfAny(n, U64_LIMIT) ==>
              AssignIfAny(codec, f, DeletedNs, Shown(n)) == Some(f.(ns := n))
  {
    if n.Some? {
      if n.value < U32_LIMIT { NumberReads(n.value, U32_LIMIT); }
      if n.value < U64_LIMIT { NumberReads(n.value, U64_LIMIT); }
    }
  }

  lemma AssignText<D>(codec: DateCodec<D>, f: Fields<D>, v: Option<string>)
    requires CleanIfAny(v)
    ensures f.hash == None ==> AssignIfAny(codec, f, Hash, v) == Some(f.(hash := v))
    ensures f.compressed == None ==> AssignIfAny(codec, f, Compressed, v) == Some(f.(compressed := v))
  {
    if v.Some? { TrimClean(v.value); }
  }

  function Extensions<D>(info: Info<D>): Entries {
    [(Command, Sanitized(info.command)), (Pid, Shown(info.pid)), (Size, Shown(info.size)),
     (Hash, info.hash), (Compressed, info.compressed), (DeletedNs, Shown(info.ns))]
  }

  lemma AssignOne<D>(codec: DateCodec<D>, f: Fields<D>, entries: Entries, i: nat, g: Fields<D>)
    requires i < |entries| && AssignIfAny(codec, f, entries[i].0, entries[i].1) == Some(g)
    ensures AssignAll(codec, f, entries[i..]) == AssignAll(codec, g, entries[i + 1..])
  {
    assert entries[i..][1..] == entries[i + 1..];
  }

  lemma ExtensionsAssign<D>(codec: DateCodec<D>, f: Fields<D>, info: Info<D>)
    requires f.command == None && f.pid == None && f.size == None
    requires f.hash == None && f.compressed == None && f.ns == None
    requires Writable(codec, info)
    ensures AssignAll(codec, f, Extensions(info)) ==
            Some(Fields(f.path, f.date, ReadCommand(info.command), info.pid, info.size, info.hash,
                        info.compressed, info.ns))
  {
    var e := Extensions(info);
    var f1 := f.(command := ReadCommand(info.command));
    var f2 := f1.(pid := info.pid);
    var f3 := f2.(size := info.size);
    var f4 := f3.(hash := info.hash);
    var f5 := f4.(compressed := info.compressed);
    AssignNumber(codec, f1, info.pid);
    AssignNumber(codec, f2, info.size);
    AssignText(codec, f3, info.hash);
    AssignText(codec, f4, info.compressed);
    AssignNumber(codec, f5, info.ns);
    assert e == e[0..];
    AssignOne(codec, f, e, 0, f1);
    AssignOne(codec, f1, e, 1, f2);
    AssignOne(codec, f2, e, 2, f3);
    AssignOne(codec, f3, e, 3, f4);
    AssignOne(codec, f4, e, 4, f5);
    AssignOne(codec, f5, e, 5, f5.(ns := info.ns));
  }

  /** The whole record: path and date are set, then the extensions. */
  lemma RecordAssigns<D>(codec: DateCodec<D>, info: Info<D>)
    requires Writable(codec, info)
    ensures AssignAll(codec, Unset<D>(), EntryList(codec, info)) ==
            if HasDotSegment(info.path) then None
            else Some(Fields(Some(info.path), codec.parse(codec.format(info.date)), ReadCommand(info.command),
                             info.pid, info.size, info.hash, info.compressed, info.ns))
  {
    var e := EntryList(codec, info);
    WrittenMeansPlain(info.path);
    EncodeDecodes(info.path, true);
    if !HasDotSegment(info.path) {
      var f1 := Unset<D>().(path := Some(info.path));
      var f2 := f1.(date := codec.parse(codec.format(info.date)));
      TrimClean(codec.format(info.date));
      assert e == e[0..] && e[2..] == Extensions(info);
      AssignOne(codec, Unset(), e, 0, f1);
      AssignOne(codec, f1, e, 1, f2);
      ExtensionsAssign(codec, f2, info);
    }
  }

  /** What a written record reads back as. Records whose path has a `.` or `..` segment, or whose
    * date text resolves to nothing, are refused; of the others only the command changes, and
    * the date becomes what its text resolves to. */
  lemma WrittenRecordReads<D>(codec: DateCodec<D>, info: Info<D>)
    requires Writable(codec, info)
    ensures var date := codec.parse(codec.format(info.date));
            Parsed(codec, Serialized(codec, info)) ==
            if HasDotSegment(info.path) || date.None? then None
            else Some(info.(date := date.value, command := ReadCommand(info.command)))
  {
    RecordIsLineable(codec, info);
    EntriesTextReads(codec, EntryList(codec, info));
    RecordAssigns(codec, info);
  }

  /** Whatever the command, every other field reads back the same. */
  lemma CommandCannotForge<D>(codec: DateCodec<D>, info: Info<D>, command: Option<string>)
    requires Writable(codec, info)
    ensures var plain, forged := Parsed(codec, Serialized(codec, info)),
                                 Parsed(codec, Serialized(codec, info.(command := command)));
            match plain
            case None => forged == None
            case Some(p) => forged == Some(p.(command := ReadCommand(command)))
  {
    WrittenRecordReads(codec, info);
    WrittenRecordReads(codec, info.(command := command));
  }
}
