/** The `directorysizes` cache (crates/trashd-common/src/directorysizes.rs): a text file of
  * `size mtime name` rows that stands for a map from raw directory names to sizes. */
module DirectorySizes {
  import opened Wrappers
  import opened Bytes
  import opened LineText
  import opened TextCodec

  type i64 = x: int | -0x8000_0000_0000_0000 <= x < 0x8000_0000_0000_0000

  const U64_LIMIT := 0x1_0000_0000_0000_0000
  const I64_LIMIT := 0x8000_0000_0000_0000

  // ---------------------------------------------------------------- numbers with a sign

  function SignedDigits(n: int): string {
    if n < 0 then "-" + Digits(0 - n) else Digits(n)
  }

  function Body(s: string): Option<nat> {
    if s == "" then None else DigitsValue(s)
  }

  function InRange(n: int): Option<int> {
    if -I64_LIMIT <= n < I64_LIMIT then Some(n) else None
  }

  /** `str::parse` for i64. */
  function ParseSigned(s: string): Option<int> {
    if s != "" && s[0] == '-'
    then match Body(s[1..]) case None => None case Some(v) => InRange(0 - v)
    else
      match Body(if s != "" && s[0] == '+' then s[1..] else s)
      case None => None
      case Some(v) => InRange(v)
  }

  lemma SignedRoundTrip(n: i64)
    ensures ParseSigned(SignedDigits(n)) == Some(n)
  {
    var m: nat := if n < 0 then 0 - n else n;
    DigitsRoundTrip(m);
    assert Digits(m) != "" && IsDigit(Digits(m)[0]);
    hide Digits, DigitsValue;
    if n < 0 { assert ("-" + Digits(m))[1..] == Digits(m); }
  }

  // ---------------------------------------------------------------- names

  const PLUS: u8 := '+' as int

  /** What `from_str_radix` reads from the two bytes of an escape: a plus sign counts. */
  function PairValue(hi: u8, lo: u8): Option<u8> {
    if IsHexDigit(hi) && IsHexDigit(lo) then Some(16 * HexDigitValue(hi) + HexDigitValue(lo))
    else if hi == PLUS && IsHexDigit(lo) then Some(HexDigitValue(lo))
    else None
  }

  /** Which pairs of characters are read: two digits in either case, or a plus sign and one digit. */
  lemma PairsThatCount(hi: u8, lo: u8)
    ensures PairValue(hi, lo).Some? <==>
            && (hi as char == '+' || '0' <= hi as char <= '9' || 'A' <= hi as char <= 'F' || 'a' <= hi as char <= 'f')
            && ('0' <= lo as char <= '9' || 'A' <= lo as char <= 'F' || 'a' <= lo as char <= 'f')
    ensures PairValue(hi, lo).Some? && hi as char == '+' ==> PairValue(hi, lo).value < 16
  {
  }

  function PairBytes(hi: u8, lo: u8): (r: Text)
    ensures r != []
  {
    match PairValue(hi, lo) case Some(v) => [v] case None => [PERCENT, hi, lo]
  }

  /** decode_name: permissive, and an escape always takes both of its bytes. */
  function DecodeName(bytes: Text): Text
    decreases |bytes|
  {
    if bytes == [] then []
    else if bytes[0] != PERCENT then [bytes[0]] + DecodeName(bytes[1..])
    else if |bytes| < 3 then bytes
    else PairBytes(bytes[1], bytes[2]) + DecodeName(bytes[3..])
  }

  /** What the checked reader demands: every percent sign starts a full escape. */
  predicate WellEscaped(bytes: Text)
    decreases |bytes|
  {
    if bytes == [] then true
    else if bytes[0] != PERCENT then WellEscaped(bytes[1..])
    else |bytes| >= 3 && IsHexDigit(bytes[1]) && IsHexDigit(bytes[2]) && WellEscaped(bytes[3..])
  }

  /** One step of the decoder, after what was decoded before. */
  lemma DecodeNameAt(bytes: Text, i: nat, before: Text)
    requires i < |bytes|
    ensures bytes[i] != PERCENT ==>
              before + DecodeName(bytes[i..]) == before + [bytes[i]] + DecodeName(bytes[i + 1..])
    ensures bytes[i] == PERCENT && i + 2 >= |bytes| ==>
              before + DecodeName(bytes[i..]) == before + bytes[i..]
    ensures bytes[i] == PERCENT && i + 2 < |bytes| ==>
              before + DecodeName(bytes[i..])
              == before + PairBytes(bytes[i + 1], bytes[i + 2]) + DecodeName(bytes[i + 3..])
  {
    hide PairBytes;
    var rest := bytes[i..];
    assert rest[1..] == bytes[i + 1..];
    if i + 2 < |bytes| { assert rest[3..] == bytes[i + 3..]; }
  }

  method DecodeNameText(bytes: Text) returns (name: Text)
    ensures name == DecodeName(bytes)
  {
    name := [];
    var i := 0;
    assert bytes[0..] == bytes;
    assert DecodeName(bytes[|bytes|..]) == [];
    hide PairBytes, DecodeName;
    while i < |bytes|
      invariant 0 <= i <= |bytes|
      invariant name + DecodeName(bytes[i..]) == DecodeName(bytes)
    {
      DecodeNameAt(bytes, i, name);
      if bytes[i] != PERCENT {
        name := name + [bytes[i]];
        i := i + 1;
      } else if i + 2 < |bytes| {
        name := name + PairBytes(bytes[i + 1], bytes[i + 2]);
        i := i + 3;
      } else {
        name := name + bytes[i..];
        i := |bytes|;
      }
    }
  }

  method CheckEscapes(bytes: Text) returns (ok: bool)
    ensures ok == WellEscaped(bytes)
  {
    var i := 0;
    while i < |bytes|
      invariant 0 <= i <= |bytes|
      invariant WellEscaped(bytes) == WellEscaped(bytes[i..])
    {
      ghost var rest := bytes[i..];
      if bytes[i] == PERCENT {
        if !(i + 2 < |bytes| && IsHexDigit(bytes[i + 1]) && IsHexDigit(bytes[i + 2])) {
          return false;
        }
        assert rest[3..] == bytes[i + 3..];
        i := i + 3;
      } else {
        assert rest[1..] == bytes[i + 1..];
        i := i + 1;
      }
    }
    ok := true;
  }

  lemma HeadsAgree(bytes: Text)
    requires bytes != [] && WellEscaped(bytes)
    ensures var (b, n) := UnitAt(bytes, 0);
            && WellEscaped(bytes[n..])
            && DecodeName(bytes) == [b] + DecodeName(bytes[n..]) && Decode(bytes) == [b] + Decode(bytes[n..])
  {
    if bytes[0] == PERCENT { assert EscapeAt(bytes, 0); }
  }

  lemma NothingDecodes()
    ensures DecodeName([]) == [] && Decode([]) == []
  {
  }

  /** On well-escaped names the permissive decoder is the strict one. */
  lemma {:induction false} DecodersAgree(bytes: Text)
    requires WellEscaped(bytes)
    ensures DecodeName(bytes) == Decode(bytes)
    decreases |bytes|
  {
    hide DecodeName, Decode, WellEscaped;
    if bytes == [] {
      NothingDecodes();
    } else {
      HeadsAgree(bytes);
      DecodersAgree(bytes[UnitAt(bytes, 0).1..]);
    }
  }

  lemma EncodedByteIsWellEscaped(b: u8, rest: Text)
    requires WellEscaped(rest)
    ensures WellEscaped(StringBytes(EncodeByte(b, false)) + rest)
  {
    var e := EncodeByte(b, false);
    var s := StringBytes(e) + rest;
    if IsUnreserved(b) {
      assert e[1..] == "" && StringBytes(e) == [b];
      assert s[1..] == rest;
    } else {
      var h, l := HexUpper(b / 16), HexUpper(b % 16);
      assert e[1..] == [h, l] && e[1..][1..] == [l] && e[1..][1..][1..] == "";
      assert StringBytes([l]) == [l as int];
      assert StringBytes([h, l]) == [h as int, l as int];
      assert StringBytes(e) == [PERCENT, h as int, l as int];
      assert s[0] == PERCENT && s[1] == h as int && s[2] == l as int && s[3..] == rest;
    }
  }

  lemma {:induction false} EncodedIsWellEscaped(name: Text)
    ensures WellEscaped(StringBytes(Encode(name, false)))
  {
    if name != [] {
      EncodedIsWellEscaped(name[1..]);
      EncodedByteIsWellEscaped(name[0], StringBytes(Encode(name[1..], false)));
      StringBytesAppend(EncodeByte(name[0], false), Encode(name[1..], false));
    }
  }

  // ---------------------------------------------------------------- rows

  datatype Row = Empty | Malformed | Row(size: u64, mtime: i64, name: Text, malformed: bool)

  /** A name a directory can have. */
  predicate IsLegal(name: Text) {
    name != [] && SLASH !in name && 0 !in name && name != [DOT] && name != [DOT, DOT]
  }

  /** `splitn(3, ' ')`, when it has three parts. */
  function ThreeParts(line: string): Option<(string, string, string)> {
    var i := LineEnd(line, 0, ' ');
    if i == |line| then None
    else
      var j := LineEnd(line, i + 1, ' ');
      if j == |line| then None else Some((line[..i], line[i + 1..j], line[j + 1..]))
  }

  /** parse_cache_row. */
  function ParseRow(line: string): Row {
    if line == "" then Empty
    else
      match ThreeParts(line)
      case None => Malformed
      case Some((size, mtime, encoded)) =>
        match (ParseUnsigned(size, U64_LIMIT), ParseSigned(mtime))
        case (Some(s), Some(t)) =>
          var bytes := StringBytes(encoded);
          Row(s, t, DecodeName(bytes), !WellEscaped(bytes) || !IsLegal(DecodeName(bytes)))
        case _ => Malformed
  }

  method ParseCacheRow(line: string) returns (row: Row)
    ensures row == ParseRow(line)
  {
    if line == "" {
      return Empty;
    }
    var parts := ThreeParts(line);
    if parts.None? {
      return Malformed;
    }
    var size, mtime := ParseUnsigned(parts.value.0, U64_LIMIT), ParseSigned(parts.value.1);
    if size.None? || mtime.None? {
      return Malformed;
    }
    var bytes := StringBytes(parts.value.2);
    var ok := CheckEscapes(bytes);
    var name := DecodeNameText(bytes);
    row := Row(size.value, mtime.value, name, !ok || !IsLegal(name));
  }

  /** The row as it is written. */
  function RowText(size: u64, mtime: i64, name: Text): string {
    Digits(size) + " " + (SignedDigits(mtime) + " " + Encode(name, false))
  }

  lemma NumberHasNo(n: int, c: char)
    requires !IsDigit(c) && c != '-'
    ensures c !in SignedDigits(n)
    ensures n >= 0 ==> c !in Digits(n)
  {
  }

  lemma EncodedHasNo(name: Text, c: char)
    requires !IsEncodedChar(c)
    ensures c !in Encode(name, false)
  {
    EncodeAlphabet(name, false);
  }

  lemma ThreePartsOf(a: string, b: string, c: string)
    requires ' ' !in a && ' ' !in b
    ensures ThreeParts(a + " " + (b + " " + c)) == Some((a, b, c))
  {
    var line := a + " " + (b + " " + c);
    var i, j := |a|, |a| + 1 + |b|;
    assert line[..i] == a && line[i + 1..j] == b && line[j + 1..] == c;
    LineEndAt(line, i, ' ');
    assert LineEnd(line, i + 1, ' ') == j by {
      assert line[j] == ' ';
      forall k | i + 1 <= k < j ensures line[k] != ' ' {
        assert line[k] == b[k - i - 1];
      }
    }
  }

  /** A written row reads back as it was, for every raw name; it is flagged exactly when no
    * directory can have that name. */
  lemma RowRoundTrip(size: u64, mtime: i64, name: Text)
    ensures ParseRow(RowText(size, mtime, name)) == Row(size, mtime, name, !IsLegal(name))
  {
    var line := RowText(size, mtime, name);
    NumberHasNo(size, ' ');
    NumberHasNo(mtime, ' ');
    ThreePartsOf(Digits(size), SignedDigits(mtime), Encode(name, false));
    ParseDigits(size, U64_LIMIT);
    SignedRoundTrip(mtime);
    EncodedIsWellEscaped(name);
    DecodersAgree(StringBytes(Encode(name, false)));
    EncodeDecodes(name, false);
  }

  /** And it is one line of text. */
  lemma RowIsLine(size: u64, mtime: i64, name: Text)
    ensures '\n' !in RowText(size, mtime, name)
    ensures '\r' !in RowText(size, mtime, name)
    ensures RowText(size, mtime, name) != ""
  {
    NumberHasNo(size, '\n');
    NumberHasNo(size, '\r');
    NumberHasNo(mtime, '\n');
    NumberHasNo(mtime, '\r');
    EncodedHasNo(name, '\n');
    EncodedHasNo(name, '\r');
  }

  // ---------------------------------------------------------------- the whole cache

  datatype Entry = Entry(size: u64, mtime: i64)

  datatype Cache = Cache(entries: map<Text, Entry>, malformed: bool)

  function AddRow(c: Cache, row: Row): Cache {
    match row
    case Empty => c
    case Malformed => c.(malformed := true)
    case Row(size, mtime, name, bad) =>
      Cache(c.entries[name := Entry(size, mtime)], c.malformed || bad)
  }

  /** What some lines stand for: later rows win. */
  function Meaning(lines: seq<string>): Cache {
    if lines == [] then Cache(map[], false)
    else AddRow(Meaning(lines[..|lines| - 1]), ParseRow(lines[|lines| - 1]))
  }

  function CacheLines(content: string): seq<string> {
    Lines(content, '\n', '\r')
  }

  /** parse_cache as a function of the text. */
  function Parsed(content: string): Cache {
    Meaning(CacheLines(content))
  }

  method ParseCache(content: string) returns (c: Cache)
    ensures c == Parsed(content)
  {
    hide ParseRow, CacheLines;
    var lines := CacheLines(content);
    c := Cache(map[], false);
    for i := 0 to |lines|
      invariant c == Meaning(lines[..i])
    {
      assert lines[..i + 1][..i] == lines[..i];
      var row := ParseCacheRow(lines[i]);
      match row
      case Empty =>
      case Malformed => c := c.(malformed := true);
      case Row(size, mtime, name, bad) =>
        c := Cache(c.entries[name := Entry(size, mtime)], c.malformed || bad);
    }
    assert lines[..|lines|] == lines;
  }

  datatype ReadOutcome = Content(text: string) | NotFound | Unreadable

  /** cached_names: one pass that keeps only names agrees with the parsed map and its flag. */
  method CachedNames(file: ReadOutcome) returns (r: Option<set<Text>>)
    ensures r == match file
                 case NotFound => Some({})
                 case Unreadable => None
                 case Content(text) =>
                   if Parsed(text).malformed then None else Some(Parsed(text).entries.Keys)
  {
    hide ParseRow, CacheLines;
    if file.NotFound? {
      return Some({});
    }
    if file.Unreadable? {
      return None;
    }
    var lines := CacheLines(file.text);
    var names, malformed := {}, false;
    for i := 0 to |lines|
      invariant names == Meaning(lines[..i]).entries.Keys && malformed == Meaning(lines[..i]).malformed
    {
      assert lines[..i + 1][..i] == lines[..i];
      var row := ParseCacheRow(lines[i]);
      match row
      case Empty =>
      case Malformed => malformed := true;
      case Row(_, _, name, bad) =>
        malformed := malformed || bad;
        names := names + {name};
    }
    assert lines[..|lines|] == lines;
    r := if malformed then None else Some(names);
  }

  /** cache_contains_name: None when the file cannot be read or any row is malformed, also one
    * after the match. */
  method CacheContainsName(file: ReadOutcome, name: Text) returns (r: Option<bool>)
    ensures r == match file
                 case Content(text) =>
                   if Parsed(text).malformed then None else Some(name in Parsed(text).entries)
                 case _ => None
  {
    hide ParseRow, CacheLines;
    if !file.Content? {
      return None;
    }
    var lines := CacheLines(file.text);
    var found, malformed := false, false;
    for i := 0 to |lines|
      invariant found == (name in Meaning(lines[..i]).entries) && malformed == Meaning(lines[..i]).malformed
    {
      assert lines[..i + 1][..i] == lines[..i];
      var row := ParseCacheRow(lines[i]);
      match row
      case Empty =>
      case Malformed => malformed := true;
      case Row(_, _, rowName, bad) =>
        malformed := malformed || bad;
        found := found || rowName == name;
    }
    assert lines[..|lines|] == lines;
    r := if malformed then None else Some(found);
  }

  // ---------------------------------------------------------------- recording one directory

  /** The name field of a line, decoded. */
  function NameOf(line: string): Option<Text> {
    match ThreeParts(line) case None => None case Some(parts) => Some(DecodeName(StringBytes(parts.2)))
  }

  predicate IsKept(line: string, name: Text) {
    line != "" && NameOf(line) != Some(name)
  }

  function KeptLines(lines: seq<string>, name: Text): (r: seq<string>)
    ensures forall i :: 0 <= i < |r| ==> r[i] in lines && IsKept(r[i], name)
  {
    if lines == [] then []
    else
      var last := lines[|lines| - 1];
      KeptLines(lines[..|lines| - 1], name) + (if IsKept(last, name) then [last] else [])
  }

  /** The new file: the other rows as they were, and one new row. */
  function Recorded(content: string, size: u64, mtime: i64, name: Text): string {
    Unlines(KeptLines(CacheLines(content), name) + [RowText(size, mtime, name)], '\n')
  }

  lemma MeaningSnoc(lines: seq<string>, line: string)
    ensures Meaning(lines + [line]) == AddRow(Meaning(lines), ParseRow(line))
  {
    assert (lines + [line])[..|lines|] == lines;
  }

  function Without(c: Cache, name: Text): Cache {
    Cache(c.entries - {name}, false)
  }

  lemma AddWithout(c: Cache, line: string, name: Text)
    requires !AddRow(c, ParseRow(line)).malformed
    ensures Without(AddRow(c, ParseRow(line)), name) ==
            if IsKept(line, name) then AddRow(Without(c, name), ParseRow(line)) else Without(c, name)
  {
  }

  /** Dropping the lines of a name drops exactly its entry. */
  lemma {:induction false} KeptMeaning(lines: seq<string>, name: Text)
    requires !Meaning(lines).malformed
    ensures Meaning(KeptLines(lines, name)) == Without(Meaning(lines), name)
  {
    hide ParseRow, AddRow, IsKept;
    if lines == [] {
      assert Meaning([]).entries - {name} == map[];
    } else {
      var rest, last := lines[..|lines| - 1], lines[|lines| - 1];
      StillGood(Meaning(rest), ParseRow(last));
      KeptMeaning(rest, name);
      AddWithout(Meaning(rest), last, name);
      MeaningSnoc(KeptLines(rest, name), last);
      assert KeptLines(rest, name) + [] == KeptLines(rest, name);
    }
  }

  lemma StillGood(c: Cache, row: Row)
    ensures !AddRow(c, row).malformed ==> !c.malformed
  {
  }

  predicate EndsInCr(line: string) {
    line != "" && line[|line| - 1] == '\r'
  }

  function WithoutCr(lines: seq<string>): (r: seq<string>)
    ensures |r| == |lines| && forall i :: 0 <= i < |lines| ==> r[i] == DropCr(lines[i], '\r')
  {
    seq(|lines|, i requires 0 <= i < |lines| => DropCr(lines[i], '\r'))
  }

  /** Written lines read back without a carriage return at their end. */
  lemma {:induction false} WrittenLinesRead(lines: seq<string>)
    requires forall i :: 0 <= i < |lines| ==> '\n' !in lines[i]
    ensures CacheLines(Unlines(lines, '\n')) == WithoutCr(lines)
  {
    if lines != [] {
      hide Lines;
      ConsLine(lines[0], Unlines(lines[1..], '\n'), '\n', '\r');
      WrittenLinesRead(lines[1..]);
    } else {
      assert Unlines(lines, '\n') == "";
    }
  }

  lemma {:induction false} LinesHaveNoFeed(s: string, i: nat)
    requires i < |CacheLines(s)|
    ensures '\n' !in CacheLines(s)[i]
    decreases |s|
  {
    var k := LineEnd(s, 0, '\n');
    if i > 0 {
      LinesHaveNoFeed(s[k + 1..], i - 1);
    }
  }

  /** Kept rows that end in a carriage return are the ones rewriting would change. */
  predicate NoKeptCr(content: string, name: Text) {
    var kept := KeptLines(CacheLines(content), name);
    forall i :: 0 <= i < |kept| ==> !EndsInCr(kept[i])
  }

  lemma RecordedLines(content: string, size: u64, mtime: i64, name: Text)
    ensures CacheLines(Recorded(content, size, mtime, name)) ==
            WithoutCr(KeptLines(CacheLines(content), name)) + [RowText(size, mtime, name)]
  {
    var lines := CacheLines(content);
    var kept, row := KeptLines(lines, name), RowText(size, mtime, name);
    RowIsLine(size, mtime, name);
    forall i | 0 <= i < |kept + [row]| ensures '\n' !in (kept + [row])[i] {
      if i < |kept| {
        assert kept[i] in lines;
        var j :| 0 <= j < |lines| && lines[j] == kept[i];
        LinesHaveNoFeed(content, j);
      }
    }
    WrittenLinesRead(kept + [row]);
    assert DropCr(row, '\r') == row;
    assert WithoutCr(kept + [row]) == WithoutCr(kept) + [row];
  }

  lemma {:induction false} DecodeNameSnoc(bytes: Text, b: u8)
    requires b != PERCENT && !IsHexDigit(b) && WellEscaped(bytes + [b])
    ensures WellEscaped(bytes)
    ensures DecodeName(bytes + [b]) == DecodeName(bytes) + [b]
    decreases |bytes|
  {
    var all := bytes + [b];
    if bytes == [] {
      assert all[1..] == [];
    } else if bytes[0] != PERCENT {
      assert all[1..] == bytes[1..] + [b];
      DecodeNameSnoc(bytes[1..], b);
    } else {
      assert all[3..] == bytes[3..] + [b];
      DecodeNameSnoc(bytes[3..], b);
    }
  }

  lemma ThreePartsDropCr(line: string)
    requires EndsInCr(line) && ThreeParts(line).Some?
    ensures var (a, b, c) := ThreeParts(line).value;
            EndsInCr(c) && ThreeParts(DropCr(line, '\r')) == Some((a, b, DropCr(c, '\r')))
  {
    var (a, b, c) := ThreeParts(line).value;
    assert line == a + " " + (b + " " + c);
    assert DropCr(line, '\r') == a + " " + (b + " " + DropCr(c, '\r'));
    var i := LineEnd(line, 0, ' ');
    forall k | 0 <= k < |b| ensures b[k] != ' ' {
      assert b[k] == line[i + 1 + k];
    }
    ThreePartsOf(a, b, DropCr(c, '\r'));
  }

  /** A name without its last byte. */
  function Shorter(name: Text): Text {
    if name == [] then [] else name[..|name| - 1]
  }

  lemma CrNameShortens(c: string)
    requires EndsInCr(c) && WellEscaped(StringBytes(c))
    ensures var t := StringBytes(DropCr(c, '\r'));
            WellEscaped(t) && DecodeName(StringBytes(c)) == DecodeName(t) + [CR]
  {
    hide DecodeName, WellEscaped;
    var t := DropCr(c, '\r');
    assert c == t + "\r" && "\r"[1..] == "";
    StringBytesAppend(t, "\r");
    assert StringBytes("\r") == [CR];
    DecodeNameSnoc(StringBytes(t), CR);
  }

  /** A good row that ends in a carriage return names another directory without it. */
  lemma CrRowChanges(line: string)
    requires EndsInCr(line) && ParseRow(line).Row? && !ParseRow(line).malformed
    ensures var (was, now) := (ParseRow(line), ParseRow(DropCr(line, '\r')));
            && was.name == Shorter(was.name) + [CR]
            && now == Row(was.size, was.mtime, Shorter(was.name), !IsLegal(Shorter(was.name)))
  {
    hide DecodeName, WellEscaped, IsLegal, ParseUnsigned, ParseSigned, ThreeParts, StringBytes, LineEnd;
    var (a, b, c) := ThreeParts(line).value;
    ThreePartsDropCr(line);
    CrNameShortens(c);
    assert DropCr(line, '\r') != "" by { PartsAreSome(); }
  }

  lemma PartsAreSome()
    ensures ThreeParts("").None?
  {
  }

  function RowsOf(lines: seq<string>): (r: seq<Row>)
    ensures |r| == |lines| && forall i :: 0 <= i < |lines| ==> r[i] == ParseRow(lines[i])
  {
    seq(|lines|, i requires 0 <= i < |lines| => ParseRow(lines[i]))
  }

  lemma {:induction false} GoodLine(lines: seq<string>, i: nat)
    requires !Meaning(lines).malformed && i < |lines|
    ensures ParseRow(lines[i]).Empty? || (ParseRow(lines[i]).Row? && !ParseRow(lines[i]).malformed)
  {
    if i < |lines| - 1 { GoodLine(lines[..|lines| - 1], i); }
  }

  lemma KeptRowSurvives(content: string, name: Text, i: nat)
    requires !Parsed(content).malformed && i < |KeptLines(CacheLines(content), name)|
    ensures var line := KeptLines(CacheLines(content), name)[i];
            ParseRow(DropCr(line, '\r')) == ParseRow(line) <==> !EndsInCr(line)
  {
    hide Meaning, ParseRow, Lines;
    var lines := CacheLines(content);
    var line := KeptLines(lines, name)[i];
    assert line in lines;
    var j :| 0 <= j < |lines| && lines[j] == line;
    GoodLine(lines, j);
    if EndsInCr(line) {
      NonEmptyRow(line);
      CrRowChanges(line);
    }
  }

  lemma NonEmptyRow(line: string)
    ensures ParseRow(line).Empty? ==> line == ""
  {
  }

  /** Exactly when every other row survives being rewritten: no kept row ends in a carriage
    * return, which `lines` takes for part of the line end the second time. */
  lemma OtherRowsSurvive(content: string, size: u64, mtime: i64, name: Text)
    requires !Parsed(content).malformed && IsLegal(name)
    ensures RowsOf(CacheLines(Recorded(content, size, mtime, name))) ==
            RowsOf(KeptLines(CacheLines(content), name)) + [Row(size, mtime, name, false)]
            <==> NoKeptCr(content, name)
  {
    hide Parsed, KeptLines, ParseRow, Recorded, Lines, EndsInCr, RowText, IsLegal;
    var kept, row := KeptLines(CacheLines(content), name), RowText(size, mtime, name);
    RecordedLines(content, size, mtime, name);
    RowRoundTrip(size, mtime, name);
    var after, before := RowsOf(WithoutCr(kept) + [row]), RowsOf(kept) + [Row(size, mtime, name, false)];
    forall i | 0 <= i < |kept|
      ensures after[i] == before[i] <==> !EndsInCr(kept[i])
    {
      KeptRowSurvives(content, name, i);
    }
    assert after[|kept|] == before[|kept|];
    if NoKeptCr(content, name) {
      assert after == before;
    }
  }

  /** What the last row of that name says. */
  function LastNamed(lines: seq<string>, name: Text): Option<Entry> {
    if lines == [] then None
    else
      match ParseRow(lines[|lines| - 1])
      case Row(size, mtime, n, _) =>
        if n == name then Some(Entry(size, mtime)) else LastNamed(lines[..|lines| - 1], name)
      case _ => LastNamed(lines[..|lines| - 1], name)
  }

  lemma {:induction false} LastNamedIsEntry(lines: seq<string>, name: Text)
    ensures LastNamed(lines, name) ==
            var m := Meaning(lines).entries; if name in m then Some(m[name]) else None
  {
    hide ParseRow;
    if lines != [] { LastNamedIsEntry(lines[..|lines| - 1], name); }
  }

  /** The last row of that name says the same once the carriage returns are gone. */
  predicate Unmoved(lines: seq<string>, name: Text) {
    LastNamed(WithoutCr(lines), name) == LastNamed(lines, name)
  }

  predicate Renames(line: string, name: Text) {
    EndsInCr(line) && match ParseRow(line) case Row(_, _, n, _) => name == n || name == Shorter(n) case _ => false
  }

  predicate IsGoodRow(line: string) {
    ParseRow(line).Empty? || (ParseRow(line).Row? && !ParseRow(line).malformed)
  }

  /** Only the two names of a row that ends in a carriage return are at stake. */
  lemma {:induction false} OthersAreUnmoved(lines: seq<string>, name: Text)
    requires forall i :: 0 <= i < |lines| ==> IsGoodRow(lines[i]) && !Renames(lines[i], name)
    ensures Unmoved(lines, name)
  {
    if lines != [] {
      var rest, last := lines[..|lines| - 1], lines[|lines| - 1];
      assert WithoutCr(lines)[..|lines| - 1] == WithoutCr(rest);
      OthersAreUnmoved(rest, name);
      assert IsGoodRow(last) && !Renames(last, name);
      if EndsInCr(last) {
        NonEmptyRow(last);
        CrRowChanges(last);
      }
      hide ParseRow;
    }
  }

  /** Each kept row that loses a carriage return leaves the map alone: the shorter name is one a
    * directory can have, and the longer and the shorter name, unless it is the one recorded, are
    * still given the same entry by their last rows. */
  predicate MapSurvives(content: string, name: Text) {
    var kept := KeptLines(CacheLines(content), name);
    forall i :: 0 <= i < |kept| ==> RowSpares(kept, kept[i], name)
  }

  predicate RowSpares(kept: seq<string>, line: string, name: Text) {
    EndsInCr(line) && ParseRow(line).Row? ==>
      var long := ParseRow(line).name;
      IsLegal(Shorter(long)) && Unmoved(kept, long) && (Shorter(long) == name || Unmoved(kept, Shorter(long)))
  }

  lemma GoodRowAdds(c: Cache, line: string)
    ensures !AddRow(c, ParseRow(line)).malformed <==> !c.malformed && IsGoodRow(line)
  {
    hide ParseRow;
  }

  lemma {:induction false} GoodRowsMean(lines: seq<string>)
    ensures !Meaning(lines).malformed <==> forall i :: 0 <= i < |lines| ==> IsGoodRow(lines[i])
  {
    hide ParseRow, IsGoodRow, AddRow;
    if lines != [] {
      var rest, last := lines[..|lines| - 1], lines[|lines| - 1];
      GoodRowsMean(rest);
      GoodRowAdds(Meaning(rest), last);
      assert forall i :: 0 <= i < |rest| ==> lines[i] == rest[i];
    }
  }

  lemma CutRowIsGood(line: string)
    requires IsGoodRow(line)
    ensures IsGoodRow(DropCr(line, '\r')) <==>
            !EndsInCr(line) || !ParseRow(line).Row? || IsLegal(Shorter(ParseRow(line).name))
  {
    hide ParseRow;
    if EndsInCr(line) {
      NonEmptyRow(line);
      CrRowChanges(line);
    }
  }

  /** What is kept, read again, means the same about every name but the recorded one. */
  predicate SameButFor(a: Cache, b: Cache, name: Text) {
    a.malformed == b.malformed && a.entries - {name} == b.entries - {name}
  }

  lemma UnmovedIsSame(kept: seq<string>, name: Text)
    ensures SameButFor(Meaning(WithoutCr(kept)), Meaning(kept), name) <==>
            && Meaning(WithoutCr(kept)).malformed == Meaning(kept).malformed
            && forall n :: n != name ==> Unmoved(kept, n)
  {
    hide Meaning, LastNamed;
    var a, b := Meaning(WithoutCr(kept)).entries, Meaning(kept).entries;
    forall n ensures Unmoved(kept, n) <==> ((n in a <==> n in b) && (n in a && n in b ==> a[n] == b[n])) {
      LastNamedIsEntry(WithoutCr(kept), n);
      LastNamedIsEntry(kept, n);
    }
    var x, y := a - {name}, b - {name};
    if forall n :: n != name ==> Unmoved(kept, n) {
      forall n ensures (n in x <==> n in y) && (n in x && n in y ==> x[n] == y[n]) {
        assert n != name ==> Unmoved(kept, n);
      }
      assert x == y;
    }
    if x == y {
      forall n | n != name ensures Unmoved(kept, n) {
        assert (n in x <==> n in a) && (n in y <==> n in b);
      }
    }
  }

  lemma SparedIsSame(kept: seq<string>, name: Text)
    requires forall i :: 0 <= i < |kept| ==> IsGoodRow(kept[i]) && IsKept(kept[i], name)
    ensures (forall i :: 0 <= i < |kept| ==> RowSpares(kept, kept[i], name)) <==>
            SameButFor(Meaning(WithoutCr(kept)), Meaning(kept), name)
  {
    hide Meaning, ParseRow, Unmoved, IsKept, IsLegal, Shorter, SameButFor, IsGoodRow;
    UnmovedIsSame(kept, name);
    GoodRowsMean(kept);
    GoodRowsMean(WithoutCr(kept));
    forall i | 0 <= i < |kept|
      ensures IsGoodRow(WithoutCr(kept)[i]) <==>
              !EndsInCr(kept[i]) || !ParseRow(kept[i]).Row? || IsLegal(Shorter(ParseRow(kept[i]).name))
      ensures ParseRow(kept[i]).Row? ==> ParseRow(kept[i]).name != name
    {
      CutRowIsGood(kept[i]);
      KeptIsOther(kept[i], name);
    }
    if forall i :: 0 <= i < |kept| ==> RowSpares(kept, kept[i], name) {
      forall n | n != name ensures Unmoved(kept, n) {
        if forall i :: 0 <= i < |kept| ==> !Renames(kept[i], n) {
          OthersAreUnmoved(kept, n);
        } else {
          var i :| 0 <= i < |kept| && Renames(kept[i], n);
          assert RowSpares(kept, kept[i], name);
        }
      }
    }
  }

  lemma KeptIsOther(line: string, name: Text)
    requires IsKept(line, name)
    ensures ParseRow(line).Row? ==> ParseRow(line).name != name
  {
  }

  /** Recording a directory updates the map at exactly that name, if and only if each row that
    * loses a carriage return on the way leaves the map alone. */
  lemma RecordUpdatesOneName(content: string, size: u64, mtime: i64, name: Text)
    requires !Parsed(content).malformed && IsLegal(name)
    ensures Parsed(Recorded(content, size, mtime, name)) ==
            Cache(Parsed(content).entries[name := Entry(size, mtime)], false)
            <==> MapSurvives(content, name)
  {
    hide Lines, ParseRow, RowText, KeptLines, Meaning, IsKept, RowSpares, Recorded, IsLegal, WithoutCr, IsGoodRow;
    var lines := CacheLines(content);
    var kept, row, e := KeptLines(lines, name), RowText(size, mtime, name), Entry(size, mtime);
    RecordedLines(content, size, mtime, name);
    RowRoundTrip(size, mtime, name);
    MeaningSnoc(WithoutCr(kept), row);
    KeptMeaning(lines, name);
    var before, now := Meaning(kept), Meaning(WithoutCr(kept));
    assert Parsed(Recorded(content, size, mtime, name)) == Cache(now.entries[name := e], now.malformed);
    assert before == Cache(Parsed(content).entries - {name}, false);
    GoodRowsMean(lines);
    forall i | 0 <= i < |kept| ensures IsGoodRow(kept[i]) {
      assert kept[i] in lines;
    }
    SparedIsSame(kept, name);
    UpdatedAlike(now.entries, Parsed(content).entries, name, e);
  }

  lemma UpdatedAlike(a: map<Text, Entry>, b: map<Text, Entry>, name: Text, e: Entry)
    ensures a[name := e] == b[name := e] <==> a - {name} == (b - {name}) - {name}
  {
    assert (b - {name}) - {name} == b - {name};
    if a[name := e] == b[name := e] {
      assert a - {name} == a[name := e] - {name} == b[name := e] - {name} == b - {name};
    }
    if a - {name} == b - {name} {
      assert a[name := e] == (a - {name})[name := e];
      assert b[name := e] == (b - {name})[name := e];
    }
  }

  lemma NumbersAreShort()
    ensures Digits(1) == "1" && SignedDigits(2) == "2"
  {
  }

  lemma CrRowReads(line: string)
    requires line == "1 2 x\r"
    ensures ParseRow(line) == Row(1, 2, [120, 13], false)
  {
    var bytes: Text := [120, 13];
    NumbersAreShort();
    assert line == "1" + " " + ("2" + " " + "x\r");
    ThreePartsOf("1", "2", "x\r");
    assert "x\r"[1..] == "\r" && "\r"[1..] == "";
    assert StringBytes("\r") == [13];
    assert StringBytes("x\r") == bytes;
    assert bytes[1..] == [13] && bytes[1..][1..] == [];
    assert DecodeName(bytes[1..]) == [13] && WellEscaped(bytes[1..]);
    ParseDigits(1, U64_LIMIT);
    SignedRoundTrip(2);
  }

  lemma CutRowIsWritten()
    ensures "1 2 x" == RowText(1, 2, [120])
  {
    NumbersAreShort();
    assert [120][1..] == [];
    assert Encode([120], false) == "x";
  }

  lemma OneLine(line: string)
    requires line != "" && '\n' !in line
    ensures CacheLines(line) == [line]
  {
  }

  lemma OneKept(line: string, name: Text)
    ensures IsKept(line, name) ==> KeptLines([line], name) == [line]
    ensures Meaning([line]) == AddRow(Cache(map[], false), ParseRow(line))
  {
    assert [line][..0] == [];
  }

  /** What recording does to a cache of one row that ends in a carriage return. */
  lemma LoneCrRow(content: string, cut: string, size: u64, mtime: i64, name: Text)
    requires content == cut + "\r" && '\n' !in cut && IsKept(content, name) && IsLegal(name)
    requires ParseRow(content).Row? && !ParseRow(content).malformed
    requires ParseRow(cut).Row? && !ParseRow(cut).malformed
    ensures var was := ParseRow(content);
            Parsed(content) == Cache(map[was.name := Entry(was.size, was.mtime)], false)
    ensures var now := ParseRow(cut);
            Parsed(Recorded(content, size, mtime, name)) ==
            Cache(map[now.name := Entry(now.size, now.mtime)][name := Entry(size, mtime)], false)
  {
    hide Lines, ParseRow, RowText, Meaning, KeptLines, IsKept;
    OneLine(content);
    OneKept(content, name);
    OneKept(cut, name);
    RecordedLines(content, size, mtime, name);
    RowRoundTrip(size, mtime, name);
    assert WithoutCr([content]) == [cut];
    MeaningSnoc([cut], RowText(size, mtime, name));
  }

  lemma NamesOfRows(line: string, name: Text)
    requires ParseRow(line).Row? && ParseRow(line).name != name
    ensures IsKept(line, name)
  {
  }

  /** A cache without a final line feed whose last name ends in a carriage return: recording
    * another directory renames that row. */
  lemma CrRowIsRenamed(content: string, name: Text)
    requires content == "1 2 x\r" && name == [121]
    ensures Parsed(content) == Cache(map[[120, 13] := Entry(1, 2)], false)
    ensures Parsed(Recorded(content, 5, 6, name)) == Cache(map[[120] := Entry(1, 2), name := Entry(5, 6)], false)
  {
    hide ParseRow, RowText, NameOf, IsKept, Parsed, Recorded, Lines, LineEnd;
    CrRowReads(content);
    CutRowIsWritten();
    RowRoundTrip(1, 2, [120]);
    NamesOfRows(content, name);
    LoneCrRow(content, "1 2 x", 5, 6, name);
  }

  // ---------------------------------------------------------------- the full rebuild

  /** One file of `info/`, with what looking at it and at its directory gave. */
  datatype Sidecar = Sidecar(filename: Text, isDir: Option<bool>, mtime: Option<i64>, measured: u64)

  /** ".trashinfo" */
  const SUFFIX: Text := [46, 116, 114, 97, 115, 104, 105, 110, 102, 111]

  function IdOf(filename: Text): Option<Text> {
    var n := |filename| - |SUFFIX|;
    if n >= 0 && filename[n..] == SUFFIX then Some(filename[..n]) else None
  }

  /** Exactly the file names that end so are sidecars, and what stands before that is the identifier. */
  lemma SidecarNames(filename: Text, id: Text)
    ensures IdOf(filename) == Some(id) <==> filename == id + StringBytes(".trashinfo")
  {
    SuffixBytes();
    if filename == id + SUFFIX {
      assert filename[|id|..] == SUFFIX && filename[..|id|] == id;
    }
  }

  lemma SuffixBytes()
    ensures StringBytes(".trashinfo") == SUFFIX
  {
    hide StringBytes;
    var s := ".trashinfo";
    AsciiBytes(s);
    assert forall i :: 0 <= i < |s| ==> s[i] as int == SUFFIX[i];
  }

  lemma {:induction false} AsciiBytes(s: string)
    requires forall i :: 0 <= i < |s| ==> s[i] as int < 0x80
    ensures |StringBytes(s)| == |s| && forall i :: 0 <= i < |s| ==> StringBytes(s)[i] == s[i] as int
  {
    if s != "" {
      AsciiBytes(s[1..]);
      assert forall i :: 0 < i < |s| ==> s[i] == s[1..][i - 1];
    }
  }

  /** The row a sidecar gets, if it gets one. `listing` is the directories of `files/`, unless
    * the scan failed. */
  function RowFor(previous: map<Text, Entry>, listing: Option<set<Text>>, s: Sidecar): Option<(Text, Entry)> {
    match (IdOf(s.filename), s.mtime)
    case (Some(id), Some(mtime)) =>
      if (listing.Some? && id !in listing.value) || s.isDir != Some(true) then None
      else if id in previous && previous[id].mtime == mtime then Some((id, Entry(previous[id].size, mtime)))
      else Some((id, Entry(s.measured, mtime)))
    case _ => None
  }

  function RebuiltLines(previous: map<Text, Entry>, listing: Option<set<Text>>, sidecars: seq<Sidecar>): seq<string> {
    if sidecars == [] then []
    else
      RebuiltLines(previous, listing, sidecars[..|sidecars| - 1]) +
      match RowFor(previous, listing, sidecars[|sidecars| - 1])
      case None => []
      case Some((id, e)) => [RowText(e.size, e.mtime, id)]
  }

  /** What those lines stand for. */
  function RebuiltCache(previous: map<Text, Entry>, listing: Option<set<Text>>, sidecars: seq<Sidecar>): Cache {
    if sidecars == [] then Cache(map[], false)
    else
      var c := RebuiltCache(previous, listing, sidecars[..|sidecars| - 1]);
      match RowFor(previous, listing, sidecars[|sidecars| - 1])
      case None => c
      case Some((id, e)) => Cache(c.entries[id := e], c.malformed || !IsLegal(id))
  }

  /** `join("\n")`. */
  function Join(lines: seq<string>): string {
    if lines == [] then "" else if |lines| == 1 then lines[0] else lines[0] + "\n" + Join(lines[1..])
  }

  function RebuiltText(previous: map<Text, Entry>, listing: Option<set<Text>>, sidecars: seq<Sidecar>): string {
    Join(RebuiltLines(previous, listing, sidecars)) + "\n"
  }

  lemma {:induction false} JoinIsUnlines(lines: seq<string>)
    requires lines != []
    ensures Join(lines) + "\n" == Unlines(lines, '\n')
  {
    if |lines| > 1 {
      JoinIsUnlines(lines[1..]);
      assert lines[0] + "\n" + Join(lines[1..]) + "\n" == lines[0] + "\n" + (Join(lines[1..]) + "\n");
    } else {
      assert lines[1..] == [];
    }
  }

  lemma {:induction false} RebuiltLinesMean(previous: map<Text, Entry>, listing: Option<set<Text>>,
                                            sidecars: seq<Sidecar>)
    ensures Meaning(RebuiltLines(previous, listing, sidecars)) == RebuiltCache(previous, listing, sidecars)
  {
    hide RowText, ParseRow, IsLegal, Meaning, RowFor;
    if sidecars == [] {
      EmptyMeaning();
    } else {
      var rest, last := sidecars[..|sidecars| - 1], sidecars[|sidecars| - 1];
      RebuiltLinesMean(previous, listing, rest);
      var lines := RebuiltLines(previous, listing, rest);
      match RowFor(previous, listing, last)
      case None => assert lines + [] == lines;
      case Some((id, e)) =>
        RowRoundTrip(e.size, e.mtime, id);
        MeaningSnoc(lines, RowText(e.size, e.mtime, id));
    }
  }

  predicate IsRewritable(line: string) {
    '\n' !in line && !EndsInCr(line)
  }

  predicate AllRewritable(lines: seq<string>) {
    forall i :: 0 <= i < |lines| ==> IsRewritable(lines[i])
  }

  lemma {:induction false} RebuiltLinesAreLines(previous: map<Text, Entry>, listing: Option<set<Text>>,
                                                sidecars: seq<Sidecar>)
    ensures AllRewritable(RebuiltLines(previous, listing, sidecars))
  {
    hide RowText, RowFor;
    if sidecars != [] {
      var before := RebuiltLines(previous, listing, sidecars[..|sidecars| - 1]);
      RebuiltLinesAreLines(previous, listing, sidecars[..|sidecars| - 1]);
      match RowFor(previous, listing, sidecars[|sidecars| - 1])
      case None =>
        assert before + [] == before;
      case Some((id, e)) =>
        RowIsLine(e.size, e.mtime, id);
        assert IsRewritable(RowText(e.size, e.mtime, id));
    }
  }

  lemma BlankFile()
    ensures CacheLines("\n") == [""] && Meaning([""]) == Cache(map[], false)
  {
    var s := "\n";
    assert LineEnd(s, 0, '\n') == 0 && s[1..] == "" && s[..0] == "";
    assert [""][..0] == [];
  }

  /** A rebuilt file reads back as the rows it was built from. */
  lemma RebuildReads(previous: map<Text, Entry>, listing: Option<set<Text>>, sidecars: seq<Sidecar>)
    ensures Parsed(RebuiltText(previous, listing, sidecars)) == RebuiltCache(previous, listing, sidecars)
  {
    hide Lines, Meaning, RebuiltLines, RebuiltCache, Unlines;
    var lines := RebuiltLines(previous, listing, sidecars);
    RebuiltLinesMean(previous, listing, sidecars);
    RebuiltLinesAreLines(previous, listing, sidecars);
    if lines == [] {
      BlankFile();
      assert RebuiltText(previous, listing, sidecars) == "\n";
      EmptyMeaning();
    } else {
      JoinIsUnlines(lines);
      assert forall i :: 0 <= i < |lines| ==> IsRewritable(lines[i]);
      WrittenLinesRead(lines);
      forall i | 0 <= i < |lines| ensures DropCr(lines[i], '\r') == lines[i] {
        assert IsRewritable(lines[i]);
      }
      assert WithoutCr(lines) == lines;
    }
  }

  lemma EmptyMeaning()
    ensures Meaning([]) == Cache(map[], false)
  {
  }

  predicate DistinctFiles(sidecars: seq<Sidecar>) {
    forall i, j :: 0 <= i < j < |sidecars| ==> sidecars[i].filename != sidecars[j].filename
  }

  predicate HasRow(previous: map<Text, Entry>, listing: Option<set<Text>>, s: Sidecar, id: Text) {
    RowFor(previous, listing, s).Some? && RowFor(previous, listing, s).value.0 == id
  }

  lemma SameIdSameFile(a: Text, b: Text)
    requires IdOf(a).Some? && IdOf(a) == IdOf(b)
    ensures a == b
  {
    assert a == IdOf(a).value + SUFFIX && b == IdOf(b).value + SUFFIX;
  }

  /** One more sidecar. */
  lemma RebuiltStep(previous: map<Text, Entry>, listing: Option<set<Text>>, sidecars: seq<Sidecar>)
    requires sidecars != []
    ensures var c, d := RebuiltCache(previous, listing, sidecars),
                        RebuiltCache(previous, listing, sidecars[..|sidecars| - 1]);
            match RowFor(previous, listing, sidecars[|sidecars| - 1])
            case None => c == d
            case Some((id, e)) => c == Cache(d.entries[id := e], d.malformed || !IsLegal(id))
  {
  }

  /** Every entry of the rebuilt map comes from a sidecar. */
  lemma {:induction false} RebuiltComesFrom(previous: map<Text, Entry>, listing: Option<set<Text>>,
                                            sidecars: seq<Sidecar>, id: Text)
    requires id in RebuiltCache(previous, listing, sidecars).entries
    ensures exists i :: 0 <= i < |sidecars| && HasRow(previous, listing, sidecars[i], id)
  {
    hide RowFor, RebuiltCache;
    if sidecars == [] {
      assert RebuiltCache(previous, listing, []).entries == map[] by { RebuiltNothing(previous, listing); }
    } else {
      var rest := sidecars[..|sidecars| - 1];
      RebuiltStep(previous, listing, sidecars);
      if id in RebuiltCache(previous, listing, rest).entries {
        RebuiltComesFrom(previous, listing, rest, id);
        var i :| 0 <= i < |rest| && HasRow(previous, listing, rest[i], id);
        assert HasRow(previous, listing, sidecars[i], id);
      } else {
        assert HasRow(previous, listing, sidecars[|sidecars| - 1], id);
      }
    }
  }

  lemma RebuiltNothing(previous: map<Text, Entry>, listing: Option<set<Text>>)
    ensures RebuiltCache(previous, listing, []) == Cache(map[], false)
  {
  }

  lemma RowIsNamedById(previous: map<Text, Entry>, listing: Option<set<Text>>, s: Sidecar)
    requires RowFor(previous, listing, s).Some?
    ensures IdOf(s.filename) == Some(RowFor(previous, listing, s).value.0)
  {
  }

  /** Every sidecar with a row has exactly that row in the rebuilt map. */
  lemma {:induction false} RebuiltHolds(previous: map<Text, Entry>, listing: Option<set<Text>>,
                                        sidecars: seq<Sidecar>, i: nat)
    requires DistinctFiles(sidecars) && i < |sidecars| && RowFor(previous, listing, sidecars[i]).Some?
    ensures var c, (id, e) := RebuiltCache(previous, listing, sidecars), RowFor(previous, listing, sidecars[i]).value;
            id in c.entries && c.entries[id] == e
  {
    hide RowFor, RebuiltCache, IdOf;
    var rest, last := sidecars[..|sidecars| - 1], sidecars[|sidecars| - 1];
    RebuiltStep(previous, listing, sidecars);
    if i < |rest| {
      RebuiltHolds(previous, listing, rest, i);
      RowIsNamedById(previous, listing, sidecars[i]);
      if RowFor(previous, listing, last).Some? {
        RowIsNamedById(previous, listing, last);
        if IdOf(sidecars[i].filename) == IdOf(last.filename) {
          SameIdSameFile(sidecars[i].filename, last.filename);
        }
      }
    }
  }

  /** The sidecar of a directory whose size is to be cached: its data is in the listing, if there is
    * one, and its time is known. */
  predicate IsListed(listing: Option<set<Text>>, s: Sidecar, id: Text) {
    IdOf(s.filename) == Some(id) && s.isDir == Some(true) && s.mtime.Some? && (listing.Some? ==> id in listing.value)
  }

  /** What a rebuilt cache holds: one entry for each such sidecar, with the sidecar's time, and the
    * size that was cached for that very time, or else the one measured now. */
  lemma RebuiltEntries(previous: map<Text, Entry>, listing: Option<set<Text>>, sidecars: seq<Sidecar>, id: Text)
    requires DistinctFiles(sidecars)
    ensures var c := RebuiltCache(previous, listing, sidecars);
            && (id in c.entries <==> exists i :: 0 <= i < |sidecars| && IsListed(listing, sidecars[i], id))
            && forall i :: 0 <= i < |sidecars| && IsListed(listing, sidecars[i], id) ==>
                 var time := sidecars[i].mtime.value;
                 && id in c.entries && c.entries[id].mtime == time
                 && c.entries[id].size ==
                    if id in previous && previous[id].mtime == time then previous[id].size else sidecars[i].measured
  {
    forall i | 0 <= i < |sidecars|
      ensures IsListed(listing, sidecars[i], id) <==> HasRow(previous, listing, sidecars[i], id)
    {}
    forall i | 0 <= i < |sidecars| && IsListed(listing, sidecars[i], id)
      ensures var c, e := RebuiltCache(previous, listing, sidecars), RowFor(previous, listing, sidecars[i]).value.1;
              id in c.entries && c.entries[id] == e
    {
      RebuiltHolds(previous, listing, sidecars, i);
    }
    if id in RebuiltCache(previous, listing, sidecars).entries {
      RebuiltComesFrom(previous, listing, sidecars, id);
    }
  }

  /** A rebuilt cache is flagged only when it lists something no directory can be named. */
  lemma {:induction false} RebuiltFlag(previous: map<Text, Entry>, listing: Option<set<Text>>, sidecars: seq<Sidecar>)
    ensures var c := RebuiltCache(previous, listing, sidecars);
            c.malformed <==> exists id :: id in c.entries && !IsLegal(id)
  {
    hide RowFor, RebuiltCache, IsLegal;
    if sidecars == [] {
      RebuiltNothing(previous, listing);
    } else {
      var rest := sidecars[..|sidecars| - 1];
      RebuiltStep(previous, listing, sidecars);
      RebuiltFlag(previous, listing, rest);
      var c, d := RebuiltCache(previous, listing, sidecars), RebuiltCache(previous, listing, rest);
      if d.malformed {
        var id :| id in d.entries && !IsLegal(id);
        assert id in c.entries;
      } else if c.malformed {
        assert RowFor(previous, listing, sidecars[|sidecars| - 1]).value.0 in c.entries;
      }
    }
  }

  /** With a complete scan of `files/`, whose names are directory names, a rebuild repairs any
    * cache for good. */
  lemma RebuildRepairs(previous: map<Text, Entry>, listing: Option<set<Text>>, sidecars: seq<Sidecar>)
    requires DistinctFiles(sidecars) && listing.Some? && forall id :: id in listing.value ==> IsLegal(id)
    ensures !Parsed(RebuiltText(previous, listing, sidecars)).malformed
  {
    RebuildReads(previous, listing, sidecars);
    RebuiltFlag(previous, listing, sidecars);
    hide RebuiltCache, IsLegal;
    forall id | id in RebuiltCache(previous, listing, sidecars).entries
      ensures IsLegal(id)
    {
      RebuiltComesFrom(previous, listing, sidecars, id);
      var i :| 0 <= i < |sidecars| && HasRow(previous, listing, sidecars[i], id);
      ListedRow(previous, listing, sidecars[i]);
    }
  }

  lemma ListedRow(previous: map<Text, Entry>, listing: Option<set<Text>>, s: Sidecar)
    requires listing.Some? && RowFor(previous, listing, s).Some?
    ensures RowFor(previous, listing, s).value.0 in listing.value
  {
  }

  /** All rows but that of `name` are what the disk says: the same directories, with the same
    * sidecar times. */
  ghost predicate OthersCurrent(m: map<Text, Entry>, listing: Option<set<Text>>, sidecars: seq<Sidecar>, name: Text) {
    && (forall id :: id in m && id != name ==>
          exists i :: 0 <= i < |sidecars| && HasRow(m, listing, sidecars[i], id))
    && (forall i :: 0 <= i < |sidecars| && RowFor(m, listing, sidecars[i]).Some? ==>
          var (id, e) := RowFor(m, listing, sidecars[i]).value;
          id != name ==> id in m && m[id].mtime == e.mtime)
  }

  lemma RowKeepsCurrent(m: map<Text, Entry>, listing: Option<set<Text>>, s: Sidecar)
    requires RowFor(m, listing, s).Some?
    ensures var (id, e) := RowFor(m, listing, s).value;
            id in m && m[id].mtime == e.mtime ==> m[id] == e
  {
  }

  /** The rebuilt map in terms of the old one. */
  lemma RebuiltFromCurrent(m: map<Text, Entry>, size: u64, mtime: i64, name: Text,
                           listing: Option<set<Text>>, sidecars: seq<Sidecar>, k: nat, id: Text)
    requires DistinctFiles(sidecars) && OthersCurrent(m, listing, sidecars, name)
    requires k < |sidecars| && RowFor(m, listing, sidecars[k]) == Some((name, Entry(size, mtime)))
    ensures var b := RebuiltCache(m, listing, sidecars).entries;
            && (id in b <==> id in m || id == name)
            && (id in b ==> b[id] == if id == name then Entry(size, mtime) else m[id])
  {
    hide RebuiltCache, RowFor;
    var b := RebuiltCache(m, listing, sidecars).entries;
    RebuiltHolds(m, listing, sidecars, k);
    if id != name {
      if id in b { RebuiltComesFrom(m, listing, sidecars, id); }
      if i :| 0 <= i < |sidecars| && HasRow(m, listing, sidecars[i], id) {
        RebuiltHolds(m, listing, sidecars, i);
        RowKeepsCurrent(m, listing, sidecars[i]);
      }
    }
  }

  /** Recording one directory then gives the map that the full rebuild gives. */
  lemma RecordAgreesWithRebuild(content: string, size: u64, mtime: i64, name: Text,
                                listing: Option<set<Text>>, sidecars: seq<Sidecar>, k: nat)
    requires !Parsed(content).malformed && IsLegal(name) && MapSurvives(content, name)
    requires DistinctFiles(sidecars) && OthersCurrent(Parsed(content).entries, listing, sidecars, name)
    requires k < |sidecars| && RowFor(Parsed(content).entries, listing, sidecars[k]) == Some((name, Entry(size, mtime)))
    ensures Parsed(Recorded(content, size, mtime, name)).entries ==
            Parsed(RebuiltText(Parsed(content).entries, listing, sidecars)).entries
  {
    hide Parsed, RebuiltCache, RebuiltText, Recorded, RowFor, OthersCurrent, DistinctFiles, MapSurvives, IsLegal;
    var m := Parsed(content).entries;
    RecordUpdatesOneName(content, size, mtime, name);
    RebuildReads(m, listing, sidecars);
    var a, b := m[name := Entry(size, mtime)], RebuiltCache(m, listing, sidecars).entries;
    forall id ensures (id in a <==> id in b) && (id in a ==> a[id] == b[id]) {
      RebuiltFromCurrent(m, size, mtime, name, listing, sidecars, k, id);
    }
    assert a == b;
  }

  // ---------------------------------------------------------------- the file itself

  /** read_cache: whatever can be read of the old file. */
  function Readable(file: ReadOutcome): map<Text, Entry> {
    if file.Content? then Parsed(file.text).entries else map[]
  }

  /** An absent cache counts as an empty one. */
  function TextOf(file: ReadOutcome): Option<string> {
    match file case Content(text) => Some(text) case NotFound => Some("") case Unreadable => None
  }

  lemma OneMoreLine(lines: seq<string>, line: string)
    ensures Unlines(lines + [line], '\n') == Unlines(lines, '\n') + line + "\n"
  {
    UnlinesAppend(lines, [line], '\n');
    assert [line][1..] == [];
    assert Unlines([line], '\n') == line + "\n";
  }

  lemma KeptSnoc(lines: seq<string>, i: nat, name: Text)
    requires i < |lines|
    ensures KeptLines(lines[..i + 1], name) ==
            if IsKept(lines[i], name) then KeptLines(lines[..i], name) + [lines[i]] else KeptLines(lines[..i], name)
  {
    assert lines[..i + 1][..i] == lines[..i];
    assert KeptLines(lines[..i], name) + [] == KeptLines(lines[..i], name);
  }

  /** The rows of all other names, copied as they are. */
  method OtherRows(content: string, name: Text) returns (data: string)
    ensures data == Unlines(KeptLines(CacheLines(content), name), '\n')
  {
    var lines := CacheLines(content);
    data := "";
    NothingWritten();
    assert KeptLines(lines[..0], name) == [];
    hide Lines, Unlines, KeptLines, NameOf;
    for i := 0 to |lines|
      invariant data == Unlines(KeptLines(lines[..i], name), '\n')
    {
      KeptSnoc(lines, i, name);
      if lines[i] != "" && NameOf(lines[i]) != Some(name) {
        OneMoreLine(KeptLines(lines[..i], name), lines[i]);
        data := data + lines[i] + "\n";
      }
    }
    assert lines[..|lines|] == lines;
  }

  lemma NothingWritten()
    ensures Unlines<char>([], '\n') == ""
  {
  }

  class TrashDir {
    var cache: ReadOutcome

    constructor (cache: ReadOutcome)
      ensures this.cache == cache
    {
      this.cache := cache;
    }

    /** write_cache_with; `stored` says whether the replacement file could be put in place. */
    method WriteCache(listing: Option<set<Text>>, sidecars: seq<Sidecar>, stored: bool) returns (ok: bool)
      modifies this
      ensures ok == stored
      ensures cache == if stored then Content(RebuiltText(Readable(old(cache)), listing, sidecars)) else old(cache)
    {
      var previous := map[];
      if cache.Content? {
        var c := ParseCache(cache.text);
        previous := c.entries;
      }
      var lines := [];
      for i := 0 to |sidecars|
        invariant lines == RebuiltLines(previous, listing, sidecars[..i])
        invariant cache == old(cache)
      {
        assert sidecars[..i + 1][..i] == sidecars[..i];
        var row := RowFor(previous, listing, sidecars[i]);
        if row.Some? {
          lines := lines + [RowText(row.value.1.size, row.value.1.mtime, row.value.0)];
        } else {
          assert lines + [] == lines;
        }
      }
      assert sidecars[..|sidecars|] == sidecars;
      if stored {
        cache := Content(Join(lines) + "\n");
      }
      ok := stored;
    }

    /** record_directory. */
    method RecordDirectory(name: Text, size: u64, isDir: Option<bool>, mtime: Option<i64>,
                           listing: Option<set<Text>>, sidecars: seq<Sidecar>, stored: bool) returns (ok: bool)
      modifies this
      ensures
        var text := TextOf(old(cache));
        if text.None? || Parsed(text.value).malformed then
          ok == stored
          && cache == if stored then Content(RebuiltText(Readable(old(cache)), listing, sidecars)) else old(cache)
        else if isDir != Some(true) then ok && cache == old(cache)
        else
          ok == (mtime.Some? && stored)
          && cache == if ok then Content(Recorded(text.value, size, mtime.value, name)) else old(cache)
    {
      var text := TextOf(cache);
      if text.None? {
        ok := WriteCache(listing, sidecars, stored);
        return;
      }
      var parsed := ParseCache(text.value);
      if parsed.malformed {
        ok := WriteCache(listing, sidecars, stored);
        return;
      }
      if isDir != Some(true) {
        return true;
      }
      if mtime.None? {
        return false;
      }
      var data := OtherRows(text.value, name);
      OneMoreLine(KeptLines(CacheLines(text.value), name), RowText(size, mtime.value, name));
      data := data + RowText(size, mtime.value, name) + "\n";
      if stored {
        cache := Content(data);
      }
      ok := stored;
    }
  }
}
