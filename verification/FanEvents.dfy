/** The audit daemon's readers of kernel bytes (crates/trashd-daemon/src/main.rs): one read is cut
  * into event records, and a record is walked for the handle of the removed object and for the
  * parent handle and name.  Numbers are little-endian, as on both supported machines. */
module FanEvents {
  import opened Wrappers
  import opened Bytes

  const META_SIZE := 24
  const VERSION: u8 := 3
  const INFO_FID: u8 := 1
  const INFO_DFID_NAME: u8 := 2

  function U16(s: Text, i: nat): nat
    requires i + 2 <= |s|
  {
    (s[i] as int) + 0x100 * (s[i + 1] as int)
  }

  function U32(s: Text, i: nat): nat
    requires i + 4 <= |s|
  {
    (s[i] as int) + 0x100 * (s[i + 1] as int) + 0x1_0000 * (s[i + 2] as int) + 0x100_0000 * (s[i + 3] as int)
  }

  // ---------------------------------------------------------------- one read, many events

  /** An event with its declared length starts the text. */
  predicate StartsEvent(s: Text) {
    |s| >= META_SIZE && s[4] == VERSION && META_SIZE <= U32(s, 0) <= |s|
  }

  /** The event records a read delivered. */
  function Events(s: Text): seq<Text>
    decreases |s|
  {
    if StartsEvent(s) then [s[..U32(s, 0)]] + Events(s[U32(s, 0)..]) else []
  }

  lemma EventsAt(buf: Text, offset: nat, before: seq<Text>)
    requires offset + META_SIZE <= |buf|
    ensures var n := U32(buf, offset);
            before + Events(buf[offset..]) ==
            if buf[offset + 4] == VERSION && META_SIZE <= n <= |buf| - offset
            then before + [buf[offset..offset + n]] + Events(buf[offset + n..]) else before
  {
    var rest, n := buf[offset..], U32(buf, offset);
    assert U32(rest, 0) == n && rest[4] == buf[offset + 4];
    if StartsEvent(rest) {
      assert rest[..n] == buf[offset..offset + n] && rest[n..] == buf[offset + n..];
    }
  }

  /** Less than the fixed part holds no event. */
  lemma NoEventLeft(s: Text)
    requires |s| < META_SIZE
    ensures Events(s) == []
  {
  }

  /** parse_events. */
  method ParseEvents(buf: Text) returns (events: seq<Text>)
    ensures events == Events(buf)
  {
    hide Events, U32;
    events := [];
    var offset := 0;
    assert buf[0..] == buf;
    while offset + META_SIZE <= |buf|
      invariant 0 <= offset <= |buf|
      invariant events + Events(buf[offset..]) == Events(buf)
    {
      EventsAt(buf, offset, events);
      if buf[offset + 4] != VERSION {
        return;
      }
      var eventLen := U32(buf, offset);
      if eventLen < META_SIZE || eventLen > |buf| - offset {
        return;
      }
      events := events + [buf[offset..offset + eventLen]];
      offset := offset + eventLen;
    }
    NoEventLeft(buf[offset..]);
    assert events + [] == events;
  }

  function Concat(records: seq<Text>): Text {
    if records == [] then [] else records[0] + Concat(records[1..])
  }

  /** A record that declares exactly its own length. */
  predicate IsEvent(record: Text) {
    StartsEvent(record) && U32(record, 0) == |record|
  }

  /** The records tile a prefix of what was read, and reading stopped only where no event starts. */
  lemma {:induction false} EventsTile(s: Text)
    ensures var t := Concat(Events(s));
            t <= s && !StartsEvent(s[|t|..])
    ensures forall i :: 0 <= i < |Events(s)| ==> IsEvent(Events(s)[i])
    decreases |s|
  {
    if StartsEvent(s) {
      var n := U32(s, 0);
      var first, rest := s[..n], s[n..];
      EventsTile(rest);
      var t := Concat(Events(rest));
      assert Events(s)[0] == first && Events(s)[1..] == Events(rest);
      assert s == first + rest;
      assert U32(first, 0) == n;
      assert s[|first + t|..] == rest[|t|..];
    } else {
      assert s[0..] == s;
    }
  }

  /** Events laid end to end are read back one by one. */
  lemma {:induction false} EventsOfConcat(records: seq<Text>, tail: Text)
    requires forall i :: 0 <= i < |records| ==> IsEvent(records[i])
    requires !StartsEvent(tail)
    ensures Events(Concat(records) + tail) == records
  {
    var s := Concat(records) + tail;
    if records == [] {
      assert s == tail;
    } else {
      var first, rest := records[0], Concat(records[1..]) + tail;
      assert IsEvent(first);
      assert s == first + rest;
      assert U32(s, 0) == U32(first, 0);
      assert s[..|first|] == first && s[|first|..] == rest;
      EventsOfConcat(records[1..], tail);
    }
  }

  // ---------------------------------------------------------------- the information records

  /** A file system and a handle on it, with the handle's own header. */
  datatype Key = Key(fsid: Text, handle: Text)

  function FirstZero(s: Text): (n: nat)
    ensures n <= |s| && (forall i :: 0 <= i < n ==> s[i] != 0) && (n < |s| ==> s[n] == 0)
  {
    if s == [] || s[0] == 0 then 0 else 1 + FirstZero(s[1..])
  }

  /** An information record with its declared length starts the text. */
  predicate StartsInfo(s: Text) {
    |s| >= 4 && 4 <= U16(s, 2) <= |s|
  }

  /** The removed object's own handle, from the first record that holds one. */
  function ObjectKey(s: Text): Option<Key>
    decreases |s|
  {
    if !StartsInfo(s) then None
    else
      var len := U16(s, 2);
      if s[0] != INFO_FID then ObjectKey(s[len..])
      else if |s| < 16 then None
      else
        var end := 20 + U32(s, 12);
        if end > |s| || end > len then None else Some(Key(s[4..12], s[12..end]))
  }

  /** The parent's handle and the name, from the first record that holds them. */
  function ParentAndName(s: Text): Option<(Key, Text)>
    decreases |s|
  {
    if !StartsInfo(s) then None
    else
      var len := U16(s, 2);
      if s[0] != INFO_DFID_NAME then ParentAndName(s[len..])
      else if len < 20 then None
      else
        var start := 20 + U32(s, 12);
        if start >= len then None
        else
          var n := FirstZero(s[start..len]);
          if n == 0 then None else Some((Key(s[4..12], s[12..start]), s[start..start + n]))
  }

  /** A record of this kind stands at `i`. */
  predicate StandsAt(s: Text, i: nat, kind: u8) {
    i <= |s| && StartsInfo(s[i..]) && s[i] == kind
  }

  /** A handle is read from one record, wholly inside it. */
  lemma {:induction false} HandleIsInside(s: Text) returns (i: nat)
    requires ObjectKey(s).Some?
    ensures var handle := ObjectKey(s).value.handle;
            && StandsAt(s, i, INFO_FID) && 12 + |handle| <= U16(s, i + 2) <= |s| - i
            && s[i + 12..i + 12 + |handle|] == handle && ObjectKey(s).value.fsid == s[i + 4..i + 12]
    decreases |s|
  {
    var len := U16(s, 2);
    assert s[0..] == s;
    if s[0] == INFO_FID {
      i := 0;
    } else {
      var k := HandleIsInside(s[len..]);
      i := len + k;
      assert s[len..][k..] == s[i..];
    }
  }

  /** So is a parent's handle with its name. */
  lemma {:induction false} NameIsInside(s: Text) returns (i: nat)
    requires ParentAndName(s).Some?
    ensures var (key, name) := ParentAndName(s).value;
            && StandsAt(s, i, INFO_DFID_NAME) && 12 + |key.handle| + |name| <= U16(s, i + 2) <= |s| - i
            && s[i + 12..i + 12 + |key.handle|] == key.handle && key.fsid == s[i + 4..i + 12]
            && s[i + 12 + |key.handle|..i + 12 + |key.handle| + |name|] == name && name != [] && 0 !in name
    decreases |s|
  {
    var len := U16(s, 2);
    assert s[0..] == s;
    if s[0] == INFO_DFID_NAME {
      i := 0;
    } else {
      var k := NameIsInside(s[len..]);
      i := len + k;
      assert s[len..][k..] == s[i..];
    }
  }

  lemma SliceOfSlice(s: Text, i: nat, j: nat, n: nat)
    requires i + n <= j <= |s|
    ensures s[i..j][..n] == s[i..i + n]
  {
  }

  /** One step of either walk, by offsets into the record. */
  lemma WalkAt(record: Text, offset: nat)
    requires offset + 4 <= |record|
    ensures var rest, len := record[offset..], U16(record, offset + 2);
            && (StartsInfo(rest) <==> 4 <= len <= |rest|) && U16(rest, 2) == len && rest[0] == record[offset]
            && (len <= |rest| ==> rest[len..] == record[offset + len..])
  {
  }

  lemma HandleAt(record: Text, offset: nat, n: nat)
    requires offset + 16 <= |record|
    ensures var rest := record[offset..];
            && U32(rest, 12) == U32(record, offset + 12)
            && (20 + n <= |rest| ==>
                  Key(rest[4..12], rest[12..20 + n])
                  == Key(record[offset + 4..offset + 12], record[offset + 12..offset + 20 + n]))
  {
    var rest := record[offset..];
    assert rest[12..16] == record[offset + 12..offset + 16];
    assert rest[4..12] == record[offset + 4..offset + 12];
    if 20 + n <= |rest| { assert rest[12..20 + n] == record[offset + 12..offset + 20 + n]; }
  }

  /** A record with the object's own handle. */
  method FidRecord(record: Text, offset: nat, infoLen: nat) returns (r: Option<Key>)
    requires offset + 4 <= |record| && infoLen == U16(record, offset + 2)
    requires 4 <= infoLen <= |record| - offset && record[offset] == INFO_FID
    ensures r == ObjectKey(record[offset..])
  {
    WalkAt(record, offset);
    var fh := offset + 12;
    if fh + 4 > |record| {
      return None;
    }
    var handleBytes := U32(record, fh);
    HandleAt(record, offset, handleBytes);
    if fh + 8 + handleBytes > |record| || fh + 8 + handleBytes > offset + infoLen {
      return None;
    }
    r := Some(Key(record[fh - 8..fh], record[fh..fh + 8 + handleBytes]));
  }

  /** deleted_object_key: every index stays inside the record. */
  method DeletedObjectKey(record: Text) returns (r: Option<Key>)
    ensures r == if |record| < META_SIZE then None else ObjectKey(record[META_SIZE..])
  {
    var offset := META_SIZE;
    while offset + 4 <= |record|
      invariant |record| >= META_SIZE ==> offset <= |record|
      invariant |record| >= META_SIZE ==> ObjectKey(record[META_SIZE..]) == ObjectKey(record[offset..])
      decreases |record| - offset
    {
      WalkAt(record, offset);
      var infoLen := U16(record, offset + 2);
      if infoLen < 4 || offset + infoLen > |record| {
        return None;
      }
      if record[offset] == INFO_FID {
        r := FidRecord(record, offset, infoLen);
        return;
      }
      offset := offset + infoLen;
    }
    r := None;
  }

  /** A record with a parent handle and a name. */
  method NameRecord(record: Text, offset: nat, infoLen: nat) returns (r: Option<(Key, Text)>)
    requires offset + 4 <= |record| && infoLen == U16(record, offset + 2)
    requires 4 <= infoLen <= |record| - offset && record[offset] == INFO_DFID_NAME
    ensures r == ParentAndName(record[offset..])
  {
    hide FirstZero;
    WalkAt(record, offset);
    if infoLen < 20 {
      return None;
    }
    var fh := offset + 12;
    var handleBytes := U32(record, fh);
    HandleAt(record, offset, handleBytes);
    var nameOffset := fh + 8 + handleBytes;
    if nameOffset >= offset + infoLen {
      return None;
    }
    var nameBytes := record[nameOffset..offset + infoLen];
    ghost var rest := record[offset..];
    assert rest[20 + handleBytes..infoLen] == nameBytes;
    var nameLen := FirstZero(nameBytes);
    if nameLen == 0 {
      return None;
    }
    SliceOfSlice(rest, 20 + handleBytes, infoLen, nameLen);
    r := Some((Key(record[fh - 8..fh], record[fh..nameOffset]), nameBytes[..nameLen]));
  }

  /** The walk of extract_dfid_name_path: every index stays inside the record. */
  method DirectoryAndName(record: Text) returns (r: Option<(Key, Text)>)
    ensures r == if |record| < META_SIZE then None else ParentAndName(record[META_SIZE..])
  {
    var offset := META_SIZE;
    while offset + 4 <= |record|
      invariant |record| >= META_SIZE ==> offset <= |record|
      invariant |record| >= META_SIZE ==> ParentAndName(record[META_SIZE..]) == ParentAndName(record[offset..])
      decreases |record| - offset
    {
      WalkAt(record, offset);
      var infoLen := U16(record, offset + 2);
      if infoLen < 4 || offset + infoLen > |record| {
        return None;
      }
      if record[offset] == INFO_DFID_NAME {
        r := NameRecord(record, offset, infoLen);
        return;
      }
      offset := offset + infoLen;
    }
    r := None;
  }

  // ---------------------------------------------------------------- what the kernel lays out

  /** An information record as the kernel means it; `zeros` pads it to alignment. */
  datatype Info =
    | Fid(fsid: Text, kind: Text, handle: Text, zeros: nat)
    | DirName(fsid: Text, kind: Text, handle: Text, name: Text, zeros: nat)
    | Unknown(tag: u8, body: Text)

  function Le16(n: nat): Text
    requires n < 0x1_0000
  {
    [n % 0x100, n / 0x100]
  }

  function Le32(n: nat): Text
    requires n < 0x1_0000_0000
  {
    [n % 0x100, n / 0x100 % 0x100, n / 0x1_0000 % 0x100, n / 0x100_0000]
  }

  function Zeros(n: nat): (r: Text)
    ensures |r| == n && forall i :: 0 <= i < n ==> r[i] == 0
  {
    seq(n, _ => 0)
  }

  predicate WellFormed(info: Info) {
    match info
    case Fid(fsid, kind, handle, zeros) => |fsid| == 8 && |kind| == 4 && 20 + |handle| + zeros < 0x1_0000
    case DirName(fsid, kind, handle, name, zeros) =>
      |fsid| == 8 && |kind| == 4 && name != [] && 0 !in name && 20 + |handle| + |name| + zeros < 0x1_0000
    case Unknown(tag, body) => tag != 1 && tag != 2 && 4 + |body| < 0x1_0000
  }

  function FileHandle(kind: Text, handle: Text): Text
    requires |handle| < 0x1_0000
  {
    Le32(|handle|) + kind + handle
  }

  function Body(info: Info): (r: Text)
    requires WellFormed(info)
    ensures 4 + |r| < 0x1_0000
  {
    match info
    case Fid(fsid, kind, handle, zeros) => fsid + FileHandle(kind, handle) + Zeros(zeros)
    case DirName(fsid, kind, handle, name, zeros) => fsid + FileHandle(kind, handle) + (name + Zeros(zeros))
    case Unknown(_, body) => body
  }

  function Tag(info: Info): u8 {
    match info
    case Fid(_, _, _, _) => 1
    case DirName(_, _, _, _, _) => 2
    case Unknown(tag, _) => tag
  }

  function InfoBytes(info: Info): Text
    requires WellFormed(info)
  {
    [Tag(info), 0] + Le16(4 + |Body(info)|) + Body(info)
  }

  predicate AllWellFormed(infos: seq<Info>) {
    forall i :: 0 <= i < |infos| ==> WellFormed(infos[i])
  }

  function AllBytes(infos: seq<Info>): Text
    requires AllWellFormed(infos)
  {
    if infos == [] then [] else InfoBytes(infos[0]) + AllBytes(infos[1..])
  }

  function InfoKey(info: Info): Key
    requires WellFormed(info) && !info.Unknown?
  {
    Key(info.fsid, FileHandle(info.kind, info.handle))
  }

  /** What a reader is after: the first handle of the object itself. */
  function FirstFid(infos: seq<Info>): Option<Key>
    requires AllWellFormed(infos)
  {
    if infos == [] then None else if infos[0].Fid? then Some(InfoKey(infos[0])) else FirstFid(infos[1..])
  }

  /** And the first parent handle with a name. */
  function FirstDirName(infos: seq<Info>): Option<(Key, Text)>
    requires AllWellFormed(infos)
  {
    if infos == [] then None
    else if infos[0].DirName? then Some((InfoKey(infos[0]), infos[0].name))
    else FirstDirName(infos[1..])
  }

  lemma U32OfLe32(n: nat, s: Text, i: nat)
    requires n < 0x1_0000_0000 && i + 4 <= |s| && s[i..i + 4] == Le32(n)
    ensures U32(s, i) == n
  {
    var t := s[i..i + 4];
    assert s[i] == t[0] && s[i + 1] == t[1] && s[i + 2] == t[2] && s[i + 3] == t[3];
    var b1, b2 := n / 0x100, n / 0x1_0000;
    assert b1 / 0x100 == b2 && b2 / 0x100 == n / 0x100_0000;
  }

  /** The header of an encoded record gives its tag and its length. */
  lemma HeaderReads(info: Info, rest: Text)
    requires WellFormed(info)
    ensures var s, n := InfoBytes(info) + rest, 4 + |Body(info)|;
            && |InfoBytes(info)| == n && StartsInfo(s) && U16(s, 2) == n
            && s[0] == Tag(info) && s[n..] == rest && s[4..n] == Body(info)
  {
    var n := 4 + |Body(info)|;
    assert n == n % 0x100 + 0x100 * (n / 0x100);
  }

  lemma HandleReads(info: Info, rest: Text, after: Text)
    requires WellFormed(info) && !info.Unknown?
    requires Body(info) == info.fsid + FileHandle(info.kind, info.handle) + after
    ensures var s, end := InfoBytes(info) + rest, 20 + |info.handle|;
            && |s| >= end && U32(s, 12) == |info.handle|
            && Key(s[4..12], s[12..end]) == InfoKey(info)
            && s[end..4 + |Body(info)|] == after
  {
    var s, end, n := InfoBytes(info) + rest, 20 + |info.handle|, 4 + |Body(info)|;
    HeaderReads(info, rest);
    var body := s[4..n];
    assert body[..8] == info.fsid && body[8..8 + (8 + |info.handle|)] == FileHandle(info.kind, info.handle);
    assert s[4..12] == body[..8] && s[12..end] == body[8..end - 4] && s[end..n] == body[end - 4..];
    assert s[12..16] == s[12..end][..4] == Le32(|info.handle|);
    U32OfLe32(|info.handle|, s, 12);
  }

  lemma NameReads(name: Text, zeros: nat)
    requires 0 !in name
    ensures FirstZero(name + Zeros(zeros)) == |name|
  {
    var s, n := name + Zeros(zeros), FirstZero(name + Zeros(zeros));
    assert forall i :: 0 <= i < |name| ==> s[i] == name[i] && name[i] in name;
    assert zeros > 0 ==> s[|name|] == 0;
  }

  lemma ObjectKeyStep(info: Info, rest: Text)
    requires WellFormed(info)
    ensures ObjectKey(InfoBytes(info) + rest) == if info.Fid? then Some(InfoKey(info)) else ObjectKey(rest)
  {
    HeaderReads(info, rest);
    if info.Fid? { HandleReads(info, rest, Zeros(info.zeros)); }
  }

  lemma ParentStep(info: Info, rest: Text)
    requires WellFormed(info)
    ensures ParentAndName(InfoBytes(info) + rest) ==
            if info.DirName? then Some((InfoKey(info), info.name)) else ParentAndName(rest)
  {
    HeaderReads(info, rest);
    if info.DirName? {
      HandleReads(info, rest, info.name + Zeros(info.zeros));
      NameReads(info.name, info.zeros);
      var s, start := InfoBytes(info) + rest, 20 + |info.handle|;
      SliceOfSlice(s, start, 4 + |Body(info)|, |info.name|);
    }
  }

  /** Reading back what the kernel laid out: for every sequence of records, in any order and with
    * any padding, the walks find the first handle of either kind. */
  lemma {:induction false} WalksFindTheFirst(infos: seq<Info>)
    requires AllWellFormed(infos)
    ensures ObjectKey(AllBytes(infos)) == FirstFid(infos)
    ensures ParentAndName(AllBytes(infos)) == FirstDirName(infos)
  {
    if infos != [] {
      ObjectKeyStep(infos[0], AllBytes(infos[1..]));
      ParentStep(infos[0], AllBytes(infos[1..]));
      WalksFindTheFirst(infos[1..]);
    }
  }
}
