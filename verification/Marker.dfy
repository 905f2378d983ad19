/** The compression marker's line in a sidecar (crates/trashd-common/src/store.rs,
  * `set_compression_marker`): setting and clearing it leaves every other field as it reads. */
module Marker {
  import opened Wrappers
  import opened Bytes
  import opened LineText
  import opened TextCodec
  import opened TrashInfo

  const MARKER := "X-Trashd-Compressed="

  /** The text up to and with its first line feed. */
  function FirstPiece(text: string): (piece: string)
    ensures piece <= text && (text != "" ==> piece != "")
  {
    var k := LineEnd(text, 0, '\n');
    if k == |text| then text else text[..k + 1]
  }

  predicate IsMarked(line: string) {
    MARKER <= line
  }

  /** The pieces that are not the marker's. */
  function DropMarked(text: string): string
    decreases |text|
  {
    if text == "" then ""
    else
      var piece := FirstPiece(text);
      (if IsMarked(piece) then "" else piece) + DropMarked(text[|piece|..])
  }

  /** A new marker line after whatever is kept. */
  function WithMarker(kept: string, algorithm: Option<string>): string {
    match algorithm
    case None => kept
    case Some(name) =>
      kept + (if kept != "" && kept[|kept| - 1] != '\n' then "\n" else "") + (MARKER + name + "\n")
  }

  function SetMarker(text: string, algorithm: Option<string>): string {
    WithMarker(DropMarked(text), algorithm)
  }

  lemma DropMarkedAt(text: string, i: nat, before: string)
    requires i < |text|
    ensures var piece := FirstPiece(text[i..]);
            before + DropMarked(text[i..]) ==
            if IsMarked(piece) then before + DropMarked(text[i + |piece|..])
            else before + piece + DropMarked(text[i + |piece|..])
  {
    hide IsMarked, FirstPiece;
    var rest := text[i..];
    var after := DropMarked(text[i + |FirstPiece(rest)|..]);
    assert rest[|FirstPiece(rest)|..] == text[i + |FirstPiece(rest)|..];
    assert "" + after == after;
  }

  /** The loop over the old file's lines. */
  method KeptText(text: string) returns (r: string)
    ensures r == DropMarked(text)
  {
    r := "";
    var i := 0;
    hide DropMarked, FirstPiece, IsMarked;
    ghost var whole := DropMarked(text);
    assert text[0..] == text && "" + whole == whole;
    while i < |text|
      invariant 0 <= i <= |text|
      invariant r + DropMarked(text[i..]) == whole
    {
      DropMarkedAt(text, i, r);
      var piece := FirstPiece(text[i..]);
      if !IsMarked(piece) {
        r := r + piece;
      }
      i := i + |piece|;
    }
    NothingToDrop();
    assert text[i..] == "" && r + "" == r;
  }

  /** set_compression_marker. */
  method SetCompressionMarker(text: string, algorithm: Option<string>) returns (r: string)
    ensures r == SetMarker(text, algorithm)
  {
    r := KeptText(text);
    hide DropMarked;
    if algorithm.Some? {
      if r != "" && r[|r| - 1] != '\n' {
        r := r + "\n";
      }
      r := r + (MARKER + algorithm.value + "\n");
    }
  }

  // ---------------------------------------------------------------- on the lines of a record

  function Unmarked(lines: seq<string>): seq<string> {
    if lines == [] then []
    else (if IsMarked(lines[0]) then [] else [lines[0]]) + Unmarked(lines[1..])
  }

  lemma DropMarkedCons(line: string, rest: string)
    requires '\n' !in line
    ensures DropMarked(line + "\n" + rest) == (if IsMarked(line) then "" else line + "\n") + DropMarked(rest)
  {
    var text := line + "\n" + rest;
    assert text[..|line|] == line;
    LineEndAt(text, |line|, '\n');
    var piece := FirstPiece(text);
    assert piece == line + "\n" && text[|piece|..] == rest;
    assert |line| < |MARKER| ==> piece[|line|] == '\n' && MARKER[|line|] != '\n';
  }

  lemma NothingToDrop()
    ensures DropMarked("") == ""
  {
  }

  lemma UnlinesCons(line: string, rest: seq<string>)
    ensures Unlines([line] + rest, '\n') == line + "\n" + Unlines(rest, '\n')
  {
    assert ([line] + rest)[1..] == rest;
  }

  lemma UnmarkedCons(line: string, rest: seq<string>)
    ensures Unmarked([line] + rest) == (if IsMarked(line) then [] else [line]) + Unmarked(rest)
  {
    assert ([line] + rest)[1..] == rest;
  }

  lemma {:induction false} DropMarkedLines(lines: seq<string>)
    requires forall i :: 0 <= i < |lines| ==> '\n' !in lines[i]
    ensures DropMarked(Unlines(lines, '\n')) == Unlines(Unmarked(lines), '\n')
  {
    if lines == [] {
      NothingToDrop();
    } else {
      hide DropMarked, Unlines, Unmarked;
      var line, rest := lines[0], lines[1..];
      assert lines == [line] + rest;
      DropMarkedLines(rest);
      UnlinesCons(line, rest);
      UnmarkedCons(line, rest);
      DropMarkedCons(line, Unlines(rest, '\n'));
      if IsMarked(line) {
        assert [] + Unmarked(rest) == Unmarked(rest);
      } else {
        UnlinesCons(line, Unmarked(rest));
      }
    }
  }

  /** Only the marker's own line starts as it does. */
  lemma MarkerIsOne(k: Key, value: string)
    ensures IsMarked(KeyName(k) + "=" + value) <==> k == Compressed
  {
    var line := KeyName(k) + "=" + value;
    if k == Compressed {
      assert line[..|MARKER|] == MARKER;
    } else if |line| >= |MARKER| {
      assert MARKER[0] == 'X' && MARKER[9] == 'C' && MARKER[12] == 'p';
      if k == Path { assert line[0] == 'P'; }
      else if k == DeletionDate { assert line[0] == 'D'; }
      else if k == Command { assert line[12] == 'm'; }
      else if k == Pid { assert line[9] == 'P'; }
      else if k == Size { assert line[9] == 'S'; }
      else if k == Hash { assert line[9] == 'H'; }
      else { assert line[9] == 'D'; }
    }
  }

  function WithoutCompressed(entries: Entries): Entries {
    if entries == [] then []
    else (if entries[0].0 == Compressed then [] else [entries[0]]) + WithoutCompressed(entries[1..])
  }

  lemma EntryLinesCons(entry: (Key, Option<string>), rest: Entries)
    ensures EntryLines([entry] + rest) == OptionalLine(entry.0, entry.1) + EntryLines(rest)
    ensures WithoutCompressed([entry] + rest) ==
            (if entry.0 == Compressed then [] else [entry]) + WithoutCompressed(rest)
  {
    assert ([entry] + rest)[1..] == rest;
  }

  lemma UnmarkedOptional(k: Key, value: Option<string>, rest: seq<string>)
    ensures Unmarked(OptionalLine(k, value) + rest) ==
            (if k == Compressed then [] else OptionalLine(k, value)) + Unmarked(rest)
  {
    match value
    case None =>
      assert [] + rest == rest && [] + Unmarked(rest) == Unmarked(rest);
    case Some(v) =>
      MarkerIsOne(k, v);
      UnmarkedCons(KeyName(k) + "=" + v, rest);
  }

  lemma {:induction false} UnmarkedEntries(entries: Entries)
    ensures Unmarked(EntryLines(entries)) == EntryLines(WithoutCompressed(entries))
  {
    if entries != [] {
      hide Unmarked, EntryLines, WithoutCompressed, OptionalLine;
      var entry, rest := entries[0], entries[1..];
      assert entries == [entry] + rest;
      UnmarkedEntries(rest);
      EntryLinesCons(entry, rest);
      UnmarkedOptional(entry.0, entry.1, EntryLines(rest));
      if entry.0 == Compressed {
        assert [] + WithoutCompressed(rest) == WithoutCompressed(rest);
        assert [] + EntryLines(WithoutCompressed(rest)) == EntryLines(WithoutCompressed(rest));
      } else {
        EntryLinesCons(entry, WithoutCompressed(rest));
      }
    }
  }

  // ---------------------------------------------------------------- main result

  /** The entries once the marker was set anew: in order, with the marker last. */
  function MarkedEntries<D>(codec: DateCodec<D>, info: Info<D>, algorithm: Option<string>): Entries {
    [(Path, Some(Encode(info.path, true))), (DeletionDate, Some(codec.format(info.date))),
     (Command, Sanitized(info.command)), (Pid, Shown(info.pid)), (Size, Shown(info.size)),
     (Hash, info.hash), (DeletedNs, Shown(info.ns)), (Compressed, algorithm)]
  }

  lemma MarkedEntriesAre<D>(codec: DateCodec<D>, info: Info<D>, algorithm: Option<string>)
    ensures MarkedEntries(codec, info, algorithm) ==
            WithoutCompressed(EntryList(codec, info)) + [(Compressed, algorithm)]
  {
    var all := EntryList(codec, info);
    NoneCompressed(all, 0, 6);
    WithoutAt(all, 6);
    NoneCompressed(all, 7, 8);
    assert all[0..] == all && all[8..] == [];
    hide WithoutCompressed;
    assert WithoutCompressed(all) == all[0..6] + all[7..8];
  }

  lemma {:induction false} NoneCompressed(entries: Entries, i: nat, j: nat)
    requires i <= j <= |entries| && forall k :: i <= k < j ==> entries[k].0 != Compressed
    ensures WithoutCompressed(entries[i..]) == entries[i..j] + WithoutCompressed(entries[j..])
    decreases j - i
  {
    hide WithoutCompressed;
    if i < j {
      WithoutAt(entries, i);
      NoneCompressed(entries, i + 1, j);
      assert entries[i..j] == [entries[i]] + entries[i + 1..j];
    } else {
      assert entries[i..j] == [];
    }
  }

  lemma WithoutAt(entries: Entries, i: nat)
    requires i < |entries|
    ensures WithoutCompressed(entries[i..]) ==
            (if entries[i].0 == Compressed then [] else [entries[i]]) + WithoutCompressed(entries[i + 1..])
  {
    assert entries[i..][1..] == entries[i + 1..];
  }

  /** The text after setting the marker on a written record. */
  lemma MarkedText<D>(codec: DateCodec<D>, info: Info<D>, algorithm: Option<string>)
    requires Writable(codec, info)
    ensures SetMarker(Serialized(codec, info), algorithm) ==
            Unlines([HEADER] + EntryLines(MarkedEntries(codec, info, algorithm)), '\n')
  {
    var entries, kept := EntryList(codec, info), WithoutCompressed(EntryList(codec, info));
    RecordIsLineable(codec, info);
    MarkedEntriesAre(codec, info, algorithm);
    hide DropMarked, EntryLines, WithoutCompressed, EntryList, MarkedEntries, Unlines, AllLineable, EntryText;
    DroppedText(entries);
    EndsInFeed(HEADER, EntryLines(kept));
    AppendMarker(EntryLines(kept), kept, algorithm);
    MarkerText(Unlines([HEADER] + EntryLines(kept), '\n'), algorithm);
  }

  lemma MarkerText(kept: string, algorithm: Option<string>)
    requires kept != "" && kept[|kept| - 1] == '\n'
    ensures WithMarker(kept, algorithm) == kept + EntryText(Compressed, algorithm)
  {
    if algorithm.Some? {
      assert KeyName(Compressed) + "=" == MARKER;
      assert kept + "" == kept;
    } else {
      assert kept + "" == kept;
    }
  }

  /** What is kept of the written entries. */
  lemma DroppedText(entries: Entries)
    requires AllLineable(entries)
    ensures DropMarked(Unlines([HEADER] + EntryLines(entries), '\n')) ==
            Unlines([HEADER] + EntryLines(WithoutCompressed(entries)), '\n')
  {
    EntryLinesAreLines(entries);
    assert !IsMarked(HEADER) by { assert HEADER[0] != MARKER[0]; }
    hide DropMarked, Unmarked, EntryLines, WithoutCompressed, Unlines, AllLineable, IsMarked;
    var lines := [HEADER] + EntryLines(entries);
    forall i | 0 <= i < |lines| ensures '\n' !in lines[i] {
      if i > 0 { assert IsLine(EntryLines(entries)[i - 1], '\n', '\r'); }
    }
    DropMarkedLines(lines);
    UnmarkedCons(HEADER, EntryLines(entries));
    UnmarkedEntries(entries);
  }

  lemma {:induction false} EndsInFeed(line: string, rest: seq<string>)
    ensures var text := Unlines([line] + rest, '\n'); text != "" && text[|text| - 1] == '\n'
    decreases |rest|
  {
    UnlinesCons(line, rest);
    if rest != [] {
      assert rest == [rest[0]] + rest[1..];
      EndsInFeed(rest[0], rest[1..]);
    }
  }

  lemma AppendMarker(before: seq<string>, kept: Entries, algorithm: Option<string>)
    requires before == EntryLines(kept)
    ensures Unlines([HEADER] + EntryLines(kept + [(Compressed, algorithm)]), '\n') ==
            Unlines([HEADER] + before, '\n') + EntryText(Compressed, algorithm)
  {
    EntryLinesAppend(kept, [(Compressed, algorithm)]);
    EntryTextIsItsLines(Compressed, algorithm);
    AppendLines(Unlines([HEADER] + before, '\n'), before, OptionalLine(Compressed, algorithm));
  }

  /** The marked entries assign the record with the new marker. */
  lemma MarkedAssigns<D>(codec: DateCodec<D>, info: Info<D>, algorithm: Option<string>)
    requires Writable(codec, info) && CleanIfAny(algorithm)
    ensures AssignAll(codec, Unset<D>(), MarkedEntries(codec, info, algorithm)) ==
            AssignAll(codec, Unset<D>(), EntryList(codec, info.(compressed := algorithm)))
  {
    var e := MarkedEntries(codec, info, algorithm);
    RecordAssigns(codec, info.(compressed := algorithm));
    WrittenMeansPlain(info.path);
    EncodeDecodes(info.path, true);
    assert e == e[0..];
    if !HasDotSegment(info.path) {
      var f1 := Unset<D>().(path := Some(info.path));
      var f2 := f1.(date := codec.parse(codec.format(info.date)));
      var f3 := f2.(command := ReadCommand(info.command));
      TrimClean(codec.format(info.date));
      AssignOne(codec, Unset(), e, 0, f1);
      AssignOne(codec, f1, e, 1, f2);
      AssignOne(codec, f2, e, 2, f3);
      MarkedTailAssigns(codec, f3, info, algorithm);
    }
  }

  lemma MarkedTailAssigns<D>(codec: DateCodec<D>, f: Fields<D>, info: Info<D>, algorithm: Option<string>)
    requires Writable(codec, info) && CleanIfAny(algorithm)
    requires f.pid == None && f.size == None && f.hash == None && f.compressed == None && f.ns == None
    ensures AssignAll(codec, f, MarkedEntries(codec, info, algorithm)[3..]) ==
            Some(f.(pid := info.pid, size := info.size, hash := info.hash, ns := info.ns, compressed := algorithm))
  {
    var e := MarkedEntries(codec, info, algorithm);
    var f4 := f.(pid := info.pid);
    var f5 := f4.(size := info.size);
    var f6 := f5.(hash := info.hash);
    var f7 := f6.(ns := info.ns);
    AssignNumber(codec, f, info.pid);
    AssignNumber(codec, f4, info.size);
    AssignText(codec, f5, info.hash);
    AssignNumber(codec, f6, info.ns);
    AssignText(codec, f7, algorithm);
    AssignOne(codec, f, e, 3, f4);
    AssignOne(codec, f4, e, 4, f5);
    AssignOne(codec, f5, e, 5, f6);
    AssignOne(codec, f6, e, 6, f7);
    AssignOne(codec, f7, e, 7, f7.(compressed := algorithm));
  }

  /** Setting or clearing the marker of a written sidecar reads back exactly like the record written
    * with that marker: no other field changes, and an older marker is gone. */
  lemma MarkerChangesOnlyItself<D>(codec: DateCodec<D>, info: Info<D>, algorithm: Option<string>)
    requires Writable(codec, info) && CleanIfAny(algorithm)
    ensures Parsed(codec, SetMarker(Serialized(codec, info), algorithm)) ==
            Parsed(codec, Serialized(codec, info.(compressed := algorithm)))
  {
    var other := info.(compressed := algorithm);
    MarkedText(codec, info, algorithm);
    MarkedAssigns(codec, info, algorithm);
    MarkedIsLineable(codec, info, algorithm);
    RecordIsLineable(codec, other);
    hide AssignAll, MarkedEntries, EntryList, EntryLines, SetMarker, Parsed;
    EntriesTextReads(codec, MarkedEntries(codec, info, algorithm));
    EntriesTextReads(codec, EntryList(codec, other));
  }

  lemma MarkedIsLineable<D>(codec: DateCodec<D>, info: Info<D>, algorithm: Option<string>)
    requires Writable(codec, info) && CleanIfAny(algorithm)
    ensures AllLineable(MarkedEntries(codec, info, algorithm))
  {
    var all, e := EntryList(codec, info), MarkedEntries(codec, info, algorithm);
    RecordIsLineable(codec, info);
    forall i | 0 <= i < 8 ensures Lineable(e[i]) {
      if i < 6 { assert Lineable(all[i]); } else if i == 6 { assert Lineable(all[7]); }
    }
  }

  // ---------------------------------------------------------------- on any sidecar whatever

  lemma MarkedBeforeCr(line: string)
    ensures IsMarked(DropCr(line, '\r')) <==> IsMarked(line)
  {
    if line != "" && line[|line| - 1] == '\r' && IsMarked(line) {
      assert |line| > |MARKER| by { assert line[|MARKER| - 1] == '='; }
      assert DropCr(line, '\r')[..|MARKER|] == line[..|MARKER|];
    }
  }

  /** The kept text has the kept lines, line ends and all. */
  lemma {:induction false} KeptTextReads(text: string)
    ensures Lines(DropMarked(text), '\n', '\r') == Unmarked(Lines(text, '\n', '\r'))
    decreases |text|
  {
    var k := LineEnd(text, 0, '\n');
    if text != "" && k == |text| {
      assert text[|text|..] == "" && text + "" == text;
      UnmarkedCons(text, []);
      assert [text] + [] == [text];
    } else if text != "" {
      var line, rest := text[..k], text[k + 1..];
      assert text == line + "\n" + rest;
      KeptTextReads(rest);
      DropMarkedCons(line, rest);
      MarkedBeforeCr(line);
      hide Lines, DropMarked, Unmarked, IsMarked;
      ConsLine(line, rest, '\n', '\r');
      ConsLine(line, DropMarked(rest), '\n', '\r');
      UnmarkedCons(DropCr(line, '\r'), Lines(rest, '\n', '\r'));
      assert "" + DropMarked(rest) == DropMarked(rest);
    }
  }

  /** The parser takes the line for the marker's, as the value it gives: also when blanks are around
    * the key. */
  function NamedBy(line: string): Option<string> {
    if Trim(line) == HEADER || Trim(line) == "" then None
    else
      match SplitOnce(line)
      case None => None
      case Some((key, value)) => if KeyOf(Trim(key)) == Some(Compressed) then Some(Trim(value)) else None
  }

  function FirstNamed(lines: seq<string>): Option<string> {
    if lines == [] then None
    else if NamedBy(lines[0]).Some? then NamedBy(lines[0])
    else FirstNamed(lines[1..])
  }

  /** The same fields but for the marker. */
  predicate Alike<D(==)>(f: Fields<D>, g: Fields<D>) {
    f == g.(compressed := f.compressed)
  }

  lemma StepAlike<D>(codec: DateCodec<D>, f: Fields<D>, g: Fields<D>, line: string)
    requires Alike(f, g)
    ensures Step(codec, f, line).Some? <==> Step(codec, g, line).Some?
    ensures Step(codec, f, line).Some? ==> Alike(Step(codec, f, line).value, Step(codec, g, line).value)
  {
    hide Trim, SplitOnce, KeyOf, WrittenDotSegment, HasParentComponent;
  }

  lemma StepNames<D>(codec: DateCodec<D>, f: Fields<D>, line: string)
    requires Step(codec, f, line).Some?
    ensures Step(codec, f, line).value.compressed ==
            if f.compressed.Some? then f.compressed else NamedBy(line)
  {
    hide Trim, SplitOnce, KeyOf, WrittenDotSegment, HasParentComponent;
  }

  lemma {:induction false} FoldNames<D>(codec: DateCodec<D>, f: Fields<D>, lines: seq<string>)
    requires Fold(codec, f, lines).Some?
    ensures Fold(codec, f, lines).value.compressed == if f.compressed.Some? then f.compressed else FirstNamed(lines)
    decreases |lines|
  {
    hide Step, NamedBy;
    if lines != [] {
      StepNames(codec, f, lines[0]);
      FoldNames(codec, Step(codec, f, lines[0]).value, lines[1..]);
    }
  }

  /** A line that starts like the marker's sets that field and no other. */
  lemma MarkedStep<D>(codec: DateCodec<D>, f: Fields<D>, line: string)
    requires IsMarked(line)
    ensures Step(codec, f, line).Some? && Alike(Step(codec, f, line).value, f)
    ensures Trim(line) != "" && Trim(line) != HEADER
  {
    var value := line[|MARKER|..];
    assert line == MARKER + value && MARKER == KeyName(Compressed) + "=";
    assert line == KeyName(Compressed) + "=" + value;
    WrittenLine(codec, f, Compressed, value);
    assert line[0] == 'X' && Trim(line)[0] == 'X';
  }

  /** Without those lines the file reads the same but for the marker. */
  lemma {:induction false} UnmarkedFold<D>(codec: DateCodec<D>, f: Fields<D>, g: Fields<D>, lines: seq<string>)
    requires Alike(f, g)
    ensures Fold(codec, f, lines).Some? <==> Fold(codec, g, Unmarked(lines)).Some?
    ensures Fold(codec, f, lines).Some? ==>
              Alike(Fold(codec, f, lines).value, Fold(codec, g, Unmarked(lines)).value)
    decreases |lines|
  {
    hide Step, IsMarked, NamedBy;
    if lines != [] {
      var line, rest := lines[0], lines[1..];
      if IsMarked(line) {
        MarkedStep(codec, f, line);
        assert [] + Unmarked(rest) == Unmarked(rest);
        UnmarkedFold(codec, Step(codec, f, line).value, g, rest);
      } else {
        StepAlike(codec, f, g, line);
        assert Unmarked(lines)[0] == line && Unmarked(lines)[1..] == Unmarked(rest);
        if Step(codec, f, line).Some? {
          UnmarkedFold(codec, Step(codec, f, line).value, Step(codec, g, line).value, rest);
        }
      }
    }
  }

  lemma {:induction false} HeaderStays<D>(codec: DateCodec<D>, lines: seq<string>)
    requires FirstNonBlank(lines).Some? && Trim(FirstNonBlank(lines).value) == HEADER
    ensures FirstNonBlank(Unmarked(lines)) == FirstNonBlank(lines)
  {
    hide Trim;
    var line := lines[0];
    if IsMarked(line) { MarkedStep(codec, Unset<D>(), line); }
    assert Unmarked(lines)[0] == line && Unmarked(lines)[1..] == Unmarked(lines[1..]);
    if Trim(line) == "" { HeaderStays(codec, lines[1..]); }
  }

  /** Clearing the marker of any sidecar that reads at all changes no other field. The marker itself
    * goes too, unless a line names it that is not written as this program does. */
  lemma ClearingKeepsTheRest<D>(codec: DateCodec<D>, text: string)
    requires Parsed(codec, text).Some?
    ensures Parsed(codec, SetMarker(text, None)) ==
            Some(Parsed(codec, text).value.(compressed := FirstNamed(Unmarked(Lines(text, '\n', '\r')))))
  {
    hide Lines, DropMarked, Unmarked, Fold, FirstNonBlank, FirstNamed, Trim;
    var lines := Lines(text, '\n', '\r');
    KeptTextReads(text);
    HeaderStays(codec, lines);
    UnmarkedFold(codec, Unset<D>(), Unset<D>(), lines);
    FoldNames(codec, Unset<D>(), Unmarked(lines));
  }

  // ---------------------------------------------------------------- setting it on any sidecar

  predicate EndsInCr(s: string) {
    s != "" && s[|s| - 1] == '\r'
  }

  lemma {:induction false} TrimCr(s: string)
    requires EndsInCr(s)
    ensures Trim(DropCr(s, '\r')) == Trim(s)
    decreases |s|
  {
    var t := DropCr(s, '\r');
    if t == "" {
      assert s[1..] == "";
    } else if IsWhitespace(s[0]) {
      assert DropCr(s[1..], '\r') == t[1..];
      TrimCr(s[1..]);
    }
  }

  lemma SplitCr(line: string)
    requires EndsInCr(line)
    ensures SplitOnce(line).None? ==> SplitOnce(DropCr(line, '\r')).None?
    ensures SplitOnce(line).Some? ==>
              var (key, value) := SplitOnce(line).value;
              EndsInCr(value) && SplitOnce(DropCr(line, '\r')) == Some((key, DropCr(value, '\r')))
  {
    var k, cut := LineEnd(line, 0, '='), DropCr(line, '\r');
    forall j | 0 <= j < k && j < |cut| ensures cut[j] != '=' {
      assert cut[j] == line[j];
    }
    if k < |line| {
      assert cut[..k] == line[..k] && cut[k] == '=';
      LineEndAt(cut, k, '=');
      assert cut[k + 1..] == DropCr(line[k + 1..], '\r');
    } else {
      LineEndAt(cut, |cut|, '=');
    }
  }

  lemma {:induction false} DecodeSnoc(bytes: Text)
    ensures Decode(bytes + [CR]) == Decode(bytes) + [CR]
    decreases |bytes|
  {
    var all := bytes + [CR];
    if bytes == [] {
      assert all[1..] == [] && UnitAt(all, 0) == (CR, 1);
    } else {
      var n := UnitAt(bytes, 0).1;
      assert EscapeAt(all, 0) <==> EscapeAt(bytes, 0);
      assert UnitAt(all, 0) == UnitAt(bytes, 0);
      assert all[n..] == bytes[n..] + [CR];
      DecodeSnoc(bytes[n..]);
    }
  }

  lemma DecodedCr(value: string)
    requires EndsInCr(value)
    ensures Decode(StringBytes(value)) == Decode(StringBytes(DropCr(value, '\r'))) + [CR]
  {
    var t := DropCr(value, '\r');
    assert value == t + "\r" && "\r"[1..] == "";
    StringBytesAppend(t, "\r");
    assert StringBytes("\r") == [CR];
    DecodeSnoc(StringBytes(t));
  }

  lemma AssignCr<D>(codec: DateCodec<D>, f: Fields<D>, key: Key, value: string)
    requires EndsInCr(value) && Assign(codec, f, key, value).Some?
    ensures var was, now := Assign(codec, f, key, value).value, Assign(codec, f, key, DropCr(value, '\r'));
            if key == Path && f.path.None? then was.path.Some? && (now.Some? ==> now.value.path != was.path)
            else now == Some(was) && was.path == f.path
  {
    hide WrittenDotSegment, HasParentComponent, Decode, StringBytes, ParseUnsigned, Trim, DropCr;
    TrimCr(value);
    DecodedCr(value);
  }

  /** A carriage return at the end of a line counts for the first path, and for nothing else. */
  lemma CutStep<D>(codec: DateCodec<D>, f: Fields<D>, line: string)
    requires EndsInCr(line) && Step(codec, f, line).Some?
    ensures var was, now := Step(codec, f, line).value, Step(codec, f, DropCr(line, '\r'));
            if f.path.Some? || was.path.None? then now == Some(was)
            else now.Some? ==> now.value.path != was.path
  {
    TrimCr(line);
    SplitCr(line);
    hide KeyOf, Trim, SplitOnce, DropCr, Assign, EndsInCr;
    if SplitOnce(line).Some? {
      var (key, value) := SplitOnce(line).value;
      if Trim(line) != HEADER && Trim(line) != "" && KeyOf(Trim(key)).Some? {
        AssignCr(codec, f, KeyOf(Trim(key)).value, value);
      }
    }
  }

  function CutLast(lines: seq<string>): seq<string> {
    if lines == [] then [] else lines[..|lines| - 1] + [DropCr(lines[|lines| - 1], '\r')]
  }

  lemma CutLastCons(head: string, tail: seq<string>)
    requires tail != []
    ensures CutLast([head] + tail) == [head] + CutLast(tail)
    ensures ([head] + tail)[|[head] + tail| - 1] == tail[|tail| - 1]
  {
  }

  /** A line feed after text that has none at its end takes a carriage return along. */
  lemma {:induction false} FeedCutsLast(s: string)
    requires s != "" && s[|s| - 1] != '\n'
    ensures Lines(s, '\n', '\r') != [] && Lines(s + "\n", '\n', '\r') == CutLast(Lines(s, '\n', '\r'))
    ensures var last := Lines(s, '\n', '\r')[|Lines(s, '\n', '\r')| - 1]; EndsInCr(last) <==> EndsInCr(s)
    decreases |s|
  {
    var k := LineEnd(s, 0, '\n');
    if k == |s| {
      ConsLine(s, "", '\n', '\r');
      assert s + "\n" + "" == s + "\n";
      assert CutLast([s]) == [DropCr(s, '\r')];
    } else {
      var line, rest := s[..k], s[k + 1..];
      assert s == line + "\n" + rest && s + "\n" == line + "\n" + (rest + "\n");
      assert EndsInCr(s) <==> EndsInCr(rest);
      FeedCutsLast(rest);
      hide Lines, CutLast, DropCr, EndsInCr;
      ConsLine(line, rest, '\n', '\r');
      ConsLine(line, rest + "\n", '\n', '\r');
      CutLastCons(DropCr(line, '\r'), Lines(rest, '\n', '\r'));
    }
  }

  lemma OneMoreLine(before: string, line: string)
    requires before != "" && before[|before| - 1] == '\n' && '\n' !in line
    ensures Lines(before + (line + "\n"), '\n', '\r') == Lines(before, '\n', '\r') + [DropCr(line, '\r')]
  {
    hide Lines;
    var all := before + (line + "\n");
    LinesSplit(all, |before|, '\n', '\r');
    assert all[..|before|] == before && all[|before|..] == line + "\n" + "";
    ConsLine(line, "", '\n', '\r');
    NoLines();
    assert [DropCr(line, '\r')] + [] == [DropCr(line, '\r')];
  }

  /** The lines of the new file: the kept ones, the last one cut if it had no line feed, and one
    * more. */
  lemma SetReads(kept: string, whole: string, line: string)
    requires kept != "" && '\n' !in line
    requires whole == (if kept[|kept| - 1] == '\n' then kept else kept + "\n") + (line + "\n")
    ensures Lines(whole, '\n', '\r') ==
            (if kept[|kept| - 1] == '\n' then Lines(kept, '\n', '\r') else CutLast(Lines(kept, '\n', '\r')))
            + [DropCr(line, '\r')]
  {
    hide Lines, CutLast, DropCr, EndsInCr;
    if kept[|kept| - 1] == '\n' {
      OneMoreLine(kept, line);
    } else {
      FeedCutsLast(kept);
      OneMoreLine(kept + "\n", line);
    }
  }

  lemma WithMarkerIs(kept: string, name: string, line: string)
    requires kept != "" && '\n' !in name && line == MARKER + name
    ensures '\n' !in line
    ensures WithMarker(kept, Some(name)) ==
            (if kept[|kept| - 1] == '\n' then kept else kept + "\n") + (line + "\n")
  {
    assert kept + "" == kept;
  }

  lemma NoLines()
    ensures Lines("", '\n', '\r') == []
  {
  }

  lemma {:induction false} HeaderStaysCut(lines: seq<string>, more: seq<string>)
    requires FirstNonBlank(lines).Some? && Trim(FirstNonBlank(lines).value) == HEADER
    ensures FirstNonBlank(lines + more) == FirstNonBlank(lines)
    ensures FirstNonBlank(CutLast(lines) + more).Some? && Trim(FirstNonBlank(CutLast(lines) + more).value) == HEADER
  {
    hide Trim;
    var cut := CutLast(lines);
    if EndsInCr(lines[|lines| - 1]) { TrimCr(lines[|lines| - 1]); }
    assert (lines + more)[0] == lines[0] && (lines + more)[1..] == lines[1..] + more;
    assert (cut + more)[0] == cut[0] && (cut + more)[1..] == cut[1..] + more;
    if Trim(lines[0]) == "" {
      assert cut[1..] == CutLast(lines[1..]);
      HeaderStaysCut(lines[1..], more);
    }
  }

  lemma NamedByMarked(line: string)
    requires IsMarked(line)
    ensures NamedBy(line) == Some(Trim(line[|MARKER|..]))
  {
    var value := line[|MARKER|..];
    assert line == KeyName(Compressed) + "=" + value;
    MarkedStep(DateCodec(x => "", x => Some(0)), Unset<int>(), line);
    SplitAtFirst(KeyName(Compressed), value);
    KeyOfName(Compressed);
  }

  lemma CutMarker(name: string)
    ensures var cut := DropCr(MARKER + name, '\r'); IsMarked(cut) && Trim(cut[|MARKER|..]) == Trim(name)
  {
    var line := MARKER + name;
    var cut := DropCr(line, '\r');
    assert line[..|MARKER|] == MARKER && line[|MARKER|..] == name;
    MarkedBeforeCr(line);
    hide Trim;
    assert MARKER[|MARKER| - 1] == '=';
    assert cut[|MARKER|..] == DropCr(name, '\r');
    if EndsInCr(name) { TrimCr(name); }
  }

  /** The new line gives the marker its name, unless it has one. */
  lemma NewLineReads<D>(codec: DateCodec<D>, f: Fields<D>, name: string)
    ensures Step(codec, f, DropCr(MARKER + name, '\r')) ==
            Some(f.(compressed := if f.compressed.Some? then f.compressed else Some(Trim(name))))
  {
    hide Trim, Step, IsMarked, NamedBy;
    var cut := DropCr(MARKER + name, '\r');
    CutMarker(name);
    MarkedStep(codec, f, cut);
    StepNames(codec, f, cut);
    NamedByMarked(cut);
  }

  /** The path comes in the last line. */
  predicate PathIsLast<D>(codec: DateCodec<D>, lines: seq<string>) {
    lines != [] && match Fold(codec, Unset(), lines[..|lines| - 1]) case None => false case Some(f) => f.path.None?
  }

  lemma FoldLast<D>(codec: DateCodec<D>, f: Fields<D>, lines: seq<string>, last: string)
    ensures Fold(codec, f, lines + [last]) ==
            match Fold(codec, f, lines) case None => None case Some(g) => Step(codec, g, last)
  {
    FoldConcat(codec, f, lines, [last]);
    assert [last][1..] == [];
  }

  /** What the cut of the last line does to the fields. */
  lemma CutFold<D>(codec: DateCodec<D>, lines: seq<string>)
    requires lines != [] && EndsInCr(lines[|lines| - 1])
    requires Fold(codec, Unset<D>(), lines).Some? && Fold(codec, Unset<D>(), lines).value.path.Some?
    ensures var was, now := Fold(codec, Unset<D>(), lines), Fold(codec, Unset<D>(), CutLast(lines));
            if PathIsLast(codec, lines) then now.Some? ==> now.value.path != was.value.path else now == was
  {
    hide Step, Fold, EndsInCr;
    var n := |lines| - 1;
    var init, last := lines[..n], lines[n];
    assert lines == init + [last];
    FoldLast(codec, Unset<D>(), init, last);
    FoldLast(codec, Unset<D>(), init, DropCr(last, '\r'));
    CutStep(codec, Fold(codec, Unset<D>(), init).value, last);
  }

  /** Setting the marker of any sidecar that reads at all changes no other field either, if and only
    * if the path is not given by a last line that ends in a bare carriage return: the line feed put
    * behind it makes it part of the line end. */
  lemma SettingKeepsTheRest<D>(codec: DateCodec<D>, text: string, name: string)
    requires Parsed(codec, text).Some? && '\n' !in name
    ensures var kept := Lines(DropMarked(text), '\n', '\r');
            var named := if FirstNamed(kept).Some? then FirstNamed(kept) else Some(Trim(name));
            Parsed(codec, SetMarker(text, Some(name))) == Some(Parsed(codec, text).value.(compressed := named))
            <==> !(EndsInCr(DropMarked(text)) && PathIsLast(codec, kept))
  {
    hide Lines, DropMarked, Unmarked, Fold, FirstNonBlank, FirstNamed, Trim, Step, PathIsLast, CutLast;
    var lines, kept := Lines(text, '\n', '\r'), DropMarked(text);
    KeptTextReads(text);
    HeaderStays(codec, lines);
    UnmarkedFold(codec, Unset<D>(), Unset<D>(), lines);
    FoldNames(codec, Unset<D>(), Unmarked(lines));
    var keptLines, line := Lines(kept, '\n', '\r'), DropCr(MARKER + name, '\r');
    KeptIsThere(kept);
    HeaderStaysCut(keptLines, [line]);
    WithMarkerIs(kept, name, MARKER + name);
    SetReads(kept, WithMarker(kept, Some(name)), MARKER + name);
    if kept[|kept| - 1] != '\n' {
      FeedCutsLast(kept);
      if EndsInCr(kept) { CutFold(codec, keptLines); } else { NothingCut(keptLines); }
    }
    var read := if kept[|kept| - 1] == '\n' then keptLines else CutLast(keptLines);
    FoldLast(codec, Unset<D>(), read, line);
    if Fold(codec, Unset<D>(), read).Some? { NewLineReads(codec, Fold(codec, Unset<D>(), read).value, name); }
  }

  lemma LateReturnLines(text: string, d: string, p: string)
    requires d == KeyName(DeletionDate) + "=" + "d" && p == KeyName(Path) + "=" + "a\r"
    requires text == HEADER + "\n" + (d + "\n" + p)
    ensures Lines(text, '\n', '\r') == [HEADER, d, p] && DropMarked(text) == text
  {
    MarkerIsOne(DeletionDate, "d");
    MarkerIsOne(Path, "a\r");
    assert !IsMarked(HEADER) by { assert HEADER[0] != MARKER[0]; }
    LinesHere(HEADER, d, p);
    DropHere(HEADER, d, p);
  }

  lemma LinesHere(header: string, d: string, p: string)
    requires '\n' !in header && '\n' !in d && '\n' !in p && p != "" && !EndsInCr(header) && !EndsInCr(d)
    ensures Lines(header + "\n" + (d + "\n" + p), '\n', '\r') == [header, d, p]
  {
    ConsLine(header, d + "\n" + p, '\n', '\r');
    ConsLine(d, p, '\n', '\r');
    assert Lines(p, '\n', '\r') == [p];
    assert [header] + ([d] + [p]) == [header, d, p];
  }

  lemma DropHere(header: string, d: string, p: string)
    requires '\n' !in header && '\n' !in d && '\n' !in p && p != ""
    requires !IsMarked(header) && !IsMarked(d) && !IsMarked(p)
    ensures DropMarked(header + "\n" + (d + "\n" + p)) == header + "\n" + (d + "\n" + p)
  {
    DropMarkedCons(header, d + "\n" + p);
    DropMarkedCons(d, p);
    assert FirstPiece(p) == p && p[|p|..] == "" && p + "" == p;
  }

  lemma PathReads<D>(codec: DateCodec<D>, f: Fields<D>, value: string)
    requires value == "a\r" && f.path.None?
    ensures Assign(codec, f, Path, value) == Some(f.(path := Some([97, 13])))
  {
    assert value[1..] == "\r" && value[1..][1..] == "";
    assert StringBytes("\r") == [13];
    assert StringBytes(value) == [97, 13];
    var bytes: Text := [97, 13];
    assert bytes[1..] == [13] && bytes[1..][1..] == [];
    assert Decode(bytes[1..]) == [13] && Decode(bytes) == [97, 13];
    SplitWhole(value, '/');
    SplitWhole(bytes, SLASH);
  }

  /** A sidecar on which it does: its last line gives the path, and the name ends in a carriage
    * return that the new line feed takes along. */
  lemma LateReturnIsTaken(codec: DateCodec<int>, text: string, d: string, p: string)
    requires codec.parse("d") == Some(0)
    requires d == KeyName(DeletionDate) + "=" + "d" && p == KeyName(Path) + "=" + "a\r"
    requires text == HEADER + "\n" + (d + "\n" + p)
    ensures Parsed(codec, text) == Some(Info([97, 13], 0, None, None, None, None, None, None))
    ensures Parsed(codec, SetMarker(text, Some("zstd"))) !=
            Some(Info([97, 13], 0, None, None, None, None, Some("zstd"), None))
  {
    hide Lines, Fold, SetMarker, Step, DropMarked, Trim, FirstNamed, EndsInCr, FirstNonBlank, PathIsLast;
    LateReturnLines(text, d, p);
    LateReturnFolds(codec, d, p);
    LateReturnEnds(text, d, p);
    TrimClean("zstd");
    FoldNames(codec, Unset<int>(), [HEADER, d, p]);
    SettingKeepsTheRest(codec, text, "zstd");
  }

  lemma LateReturnEnds(text: string, d: string, p: string)
    requires p == KeyName(Path) + "=" + "a\r" && text == HEADER + "\n" + (d + "\n" + p)
    ensures EndsInCr(text) && Trim(HEADER) == HEADER
  {
    assert p[|p| - 1] == '\r' && text[|text| - 1] == p[|p| - 1];
    TrimClean(HEADER);
  }

  lemma LateReturnFolds(codec: DateCodec<int>, d: string, p: string)
    requires codec.parse("d") == Some(0)
    requires d == KeyName(DeletionDate) + "=" + "d" && p == KeyName(Path) + "=" + "a\r"
    ensures var dated := Unset<int>().(date := Some(0));
            && Fold(codec, Unset<int>(), [HEADER, d]) == Some(dated)
            && Fold(codec, Unset<int>(), [HEADER, d, p]) == Some(dated.(path := Some([97, 13])))
    ensures PathIsLast(codec, [HEADER, d, p]) && FirstNonBlank([HEADER, d, p]) == Some(HEADER)
  {
    var dated := Unset<int>().(date := Some(0));
    TrimClean(HEADER);
    TrimClean("d");
    WrittenLine(codec, Unset<int>(), DeletionDate, "d");
    WrittenLine(codec, dated, Path, "a\r");
    PathReads(codec, dated, "a\r");
    hide Step, Trim;
    assert [HEADER, d] == [HEADER] + [d] && [HEADER, d, p] == [HEADER, d] + [p];
    assert Step(codec, Unset<int>(), HEADER) == Some(Unset<int>()) by { HeaderStep(codec); }
    FoldLast(codec, Unset<int>(), [], HEADER);
    assert [] + [HEADER] == [HEADER];
    FoldLast(codec, Unset<int>(), [HEADER], d);
    FoldLast(codec, Unset<int>(), [HEADER, d], p);
    assert [HEADER, d, p][..2] == [HEADER, d];
  }

  lemma HeaderStep<D>(codec: DateCodec<D>)
    ensures Step(codec, Unset<D>(), HEADER) == Some(Unset<D>())
  {
    TrimClean(HEADER);
  }

  lemma KeptIsThere(kept: string)
    requires FirstNonBlank(Lines(kept, '\n', '\r')).Some?
    ensures kept != ""
  {
  }

  lemma NothingCut(lines: seq<string>)
    requires lines != [] && !EndsInCr(lines[|lines| - 1])
    ensures CutLast(lines) == lines
  {
  }
}
