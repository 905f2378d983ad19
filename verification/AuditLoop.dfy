/** The audit daemon's event loop (crates/trashd-daemon/src/main.rs, `run`): records whose directory
  * is not known yet are held for one more read, and every deletion is still logged once and in
  * order.  The handle cache keeps the last path of directories that are gone. */
module AuditLoop {
  import opened Wrappers
  import opened Bytes
  import opened FanEvents
  import opened LineText

  // ---------------------------------------------------------------- records and paths

  /** `Path::join`. */
  function Join(dir: Text, name: Text): (r: Text)
    ensures IsAbsolute(dir) ==> IsAbsolute(r)
  {
    if IsAbsolute(name) then name
    else if dir == [] then name
    else if dir[|dir| - 1] == SLASH then dir + name
    else dir + [SLASH] + name
  }

  /** The pieces of a directory's path between the slashes; a slash at its end begins no piece. */
  function Pieces(dir: Text): seq<Text> {
    var pieces := Split(dir, SLASH);
    if dir != [] && dir[|dir| - 1] == SLASH then pieces[..|pieces| - 1] else pieces
  }

  /** The path of an entry: the pieces of its directory, and then its name. */
  predicate IsEntryOf(path: Text, dir: Text, name: Text) {
    Split(path, SLASH) == Pieces(dir) + [name]
  }

  predicate IsName(name: Text) {
    name != [] && SLASH !in name
  }

  lemma JoinIsEntry(dir: Text, name: Text)
    requires dir != [] && IsName(name)
    ensures IsEntryOf(Join(dir, name), dir, name)
  {
    hide Split;
    SplitWhole(name, SLASH);
    if dir[|dir| - 1] == SLASH {
      EndsInSlash(dir);
      SplitJoined(dir[..|dir| - 1], SLASH, name);
      assert Join(dir, name) == dir[..|dir| - 1] + [SLASH] + name;
    } else {
      SplitJoined(dir, SLASH, name);
    }
  }

  lemma EndsInSlash(path: Text)
    requires path != [] && path[|path| - 1] == SLASH
    ensures Split(path, SLASH) == Split(path[..|path| - 1], SLASH) + [[]]
  {
    hide Split;
    SplitJoined(path[..|path| - 1], SLASH, []);
    SplitWhole([], SLASH);
    assert path == path[..|path| - 1] + [SLASH] + [];
  }

  /** FAN_DELETE, FAN_ONDIR and FAN_Q_OVERFLOW: bits 9, 30 and 14 of the mask at byte 8. */
  predicate IsDelete(record: Text) {
    |record| >= META_SIZE && record[9] / 2 % 2 == 1
  }

  predicate IsDir(record: Text) {
    |record| >= META_SIZE && record[11] / 64 % 2 == 1
  }

  predicate IsOverflow(record: Text) {
    |record| >= META_SIZE && record[9] / 64 % 2 == 1
  }

  /** The event's mask, little end first. */
  function Mask(record: Text): nat
    requires |record| >= META_SIZE
  {
    U32(record, 8) + 0x1_0000_0000 * U32(record, 12)
  }

  lemma DeleteBit(low: nat, byte: nat, high: nat)
    requires low < 0x100
    ensures (low + 0x100 * byte + 0x1_0000 * high) / 0x200 % 2 == byte / 2 % 2
  {
    var mask, h := low + 0x100 * byte + 0x1_0000 * high, byte / 2;
    assert byte == 2 * h + byte % 2;
    var above := 0x40 * high;
    assert mask == 0x200 * (h + 2 * above) + (0x100 * (byte % 2) + low);
    assert mask / 0x200 == h + 2 * above;
  }

  lemma OverflowBit(low: nat, byte: nat, high: nat)
    requires low < 0x100
    ensures (low + 0x100 * byte + 0x1_0000 * high) / 0x4000 % 2 == byte / 64 % 2
  {
    var mask, h := low + 0x100 * byte + 0x1_0000 * high, byte / 64;
    assert byte == 64 * h + byte % 64;
    assert mask == 0x4000 * (h + 4 * high) + (0x100 * (byte % 64) + low);
    assert mask / 0x4000 == h + 4 * high;
  }

  lemma DirBit(low: nat, byte: nat, high: nat)
    requires low < 0x100_0000
    ensures (low + 0x100_0000 * byte + 0x1_0000_0000 * high) / 0x4000_0000 % 2 == byte / 64 % 2
  {
    var mask, h := low + 0x100_0000 * byte + 0x1_0000_0000 * high, byte / 64;
    assert byte == 64 * h + byte % 64;
    assert mask == 0x4000_0000 * (h + 4 * high) + (0x100_0000 * (byte % 64) + low);
    assert mask / 0x4000_0000 == h + 4 * high;
  }

  /** The kernel's bits for a deletion, a directory and an overflow. */
  lemma MaskBits(record: Text)
    requires |record| >= META_SIZE
    ensures IsDelete(record) <==> Mask(record) / 0x200 % 2 == 1
    ensures IsDir(record) <==> Mask(record) / 0x4000_0000 % 2 == 1
    ensures IsOverflow(record) <==> Mask(record) / 0x4000 % 2 == 1
  {
    var b8: int, b9: int, b10: int, b11: int := record[8], record[9], record[10], record[11];
    var top := U32(record, 12);
    DeleteBit(b8, b9, b10 + 0x100 * b11 + 0x1_0000 * top);
    OverflowBit(b8, b9, b10 + 0x100 * b11 + 0x1_0000 * top);
    DirBit(b8 + 0x100 * b9 + 0x1_0000 * b10, b11, top);
    hide U32;
    assert U32(record, 8) == b8 + 0x100 * b9 + 0x1_0000 * b10 + 0x100_0000 * b11;
  }

  function Pid(record: Text): nat {
    if |record| >= META_SIZE then U32(record, 20) else 0
  }

  /** The kernel lays an event out as length, version, a reserved byte, the length of this part, mask,
    * descriptor and process; what is looked at is the mask and the process. */
  lemma MetadataReads(length: Text, version: Text, part: Text, low: nat, high: nat, fd: Text, pid: nat, infos: Text)
    requires |length| == 4 && |version| == 2 && |part| == 2 && |fd| == 4
    requires low < 0x1_0000_0000 && high < 0x1_0000_0000 && pid < 0x1_0000_0000
    ensures var record := length + version + part + Le32(low) + Le32(high) + fd + Le32(pid) + infos;
            && |record| >= META_SIZE && Mask(record) == low + 0x1_0000_0000 * high && Pid(record) == pid
            && Own(record) == ObjectKey(infos) && Target(record) == ParentAndName(infos)
  {
    hide ObjectKey, ParentAndName;
    var head := length + version + part;
    var record := head + Le32(low) + Le32(high) + fd + Le32(pid) + infos;
    Le32Reads(low, head, Le32(high) + fd + Le32(pid) + infos);
    Le32Reads(high, head + Le32(low), fd + Le32(pid) + infos);
    Le32Reads(pid, head + Le32(low) + Le32(high) + fd, infos);
    assert record == head + Le32(low) + (Le32(high) + fd + Le32(pid) + infos);
    assert record == head + Le32(low) + Le32(high) + (fd + Le32(pid) + infos);
    assert record[META_SIZE..] == infos;
  }

  lemma Le32Value(n: nat)
    requires n < 0x1_0000_0000
    ensures var s := Le32(n);
            |s| == 4 && s[0] as int + 0x100 * (s[1] as int) + 0x1_0000 * (s[2] as int) + 0x100_0000 * (s[3] as int) == n
  {
    var q, p := n / 0x100, n / 0x1_0000;
    assert q / 0x100 == p && p / 0x100 == n / 0x100_0000;
    assert n == 0x100 * q + n % 0x100 && q == 0x100 * p + q % 0x100 && p == 0x100 * (n / 0x100_0000) + p % 0x100;
  }

  lemma Le32Reads(n: nat, before: Text, after: Text)
    requires n < 0x1_0000_0000
    ensures U32(before + Le32(n) + after, |before|) == n
  {
    hide Le32;
    Le32Value(n);
    var s, i := before + Le32(n) + after, |before|;
    assert s[i] == Le32(n)[0] && s[i + 1] == Le32(n)[1] && s[i + 2] == Le32(n)[2] && s[i + 3] == Le32(n)[3];
  }

  function Own(record: Text): Option<Key> {
    if |record| < META_SIZE then None else ObjectKey(record[META_SIZE..])
  }

  function Target(record: Text): Option<(Key, Text)> {
    if |record| < META_SIZE then None else ParentAndName(record[META_SIZE..])
  }

  // ---------------------------------------------------------------- the handle cache

  const CAPACITY := 4096

  datatype Cache = Cache(paths: map<Key, Text>, order: seq<Key>, batch: map<Key, Option<Text>>, asked: nat)

  predicate NoRepeats<T(==)>(s: seq<T>) {
    forall i, j :: 0 <= i < j < |s| ==> s[i] != s[j]
  }

  /** The queue lists the keys, each once, and is bounded. */
  ghost predicate Consistent(c: Cache) {
    && |c.order| <= CAPACITY && NoRepeats(c.order)
    && forall k :: k in c.order <==> k in c.paths
  }

  /** `remember`: a new key goes to the back, and over capacity the front goes. */
  function Remembered(c: Cache, key: Key, path: Text): Cache {
    if key in c.paths then c.(paths := c.paths[key := path])
    else if |c.order| < CAPACITY || c.order == [] then c.(paths := c.paths[key := path], order := c.order + [key])
    else c.(paths := c.paths[key := path] - {c.order[0]}, order := c.order[1..] + [key])
  }

  lemma RememberedIsConsistent(c: Cache, key: Key, path: Text)
    requires Consistent(c)
    ensures Consistent(Remembered(c, key, path))
    ensures var r := Remembered(c, key, path);
            key in r.paths && r.paths[key] == path
            && forall k :: k in r.paths && k != key ==> k in c.paths && r.paths[k] == c.paths[k]
    ensures var r := Remembered(c, key, path);
            forall k :: k in c.paths && k !in r.paths ==> |c.order| == CAPACITY && key !in c.paths && k == c.order[0]
  {
    var r := Remembered(c, key, path);
    if key !in c.paths && |c.order| == CAPACITY {
      assert c.order == [c.order[0]] + c.order[1..];
      forall k ensures k in r.order <==> k in r.paths {
        if k == c.order[0] {
          assert k !in c.order[1..];
        }
      }
    }
  }

  /** The cache after these calls of `remember`. */
  function AfterCalls(calls: seq<(Key, Text)>): Cache {
    if calls == [] then Cache(map[], [], map[], 0)
    else
      var (key, path) := calls[|calls| - 1];
      Remembered(AfterCalls(calls[..|calls| - 1]), key, path)
  }

  /** The call that put this key into the cache, the last time it was put there. */
  function InsertedAt(calls: seq<(Key, Text)>, key: Key): nat {
    if calls == [] then 0
    else
      var n := |calls| - 1;
      if calls[n].0 == key && key !in AfterCalls(calls[..n]).paths then n else InsertedAt(calls[..n], key)
  }

  /** The keys come by age, and all came before `n`. */
  ghost predicate ByAge(order: seq<Key>, at: Key -> nat, n: nat) {
    && (forall i :: 0 <= i < |order| ==> at(order[i]) < n)
    && forall i, j :: 0 <= i < j < |order| ==> at(order[i]) < at(order[j])
  }

  /** The queue is in order of insertion; naming a key again does not move it. */
  lemma {:induction false} QueueIsByAge(calls: seq<(Key, Text)>)
    ensures Consistent(AfterCalls(calls))
    ensures ByAge(AfterCalls(calls).order, k => InsertedAt(calls, k), |calls|)
  {
    hide Remembered, Consistent;
    if calls == [] {
      NothingIsConsistent();
    } else {
      var n := |calls| - 1;
      var (key, path) := calls[n];
      var c := AfterCalls(calls[..n]);
      QueueIsByAge(calls[..n]);
      RememberedIsConsistent(c, key, path);
      StaysByAge(c, key, path, k => InsertedAt(calls[..n], k), k => InsertedAt(calls, k), n);
    }
  }

  lemma StaysByAge(c: Cache, key: Key, path: Text, at: Key -> nat, now: Key -> nat, n: nat)
    requires Consistent(c) && ByAge(c.order, at, n)
    requires forall k :: now(k) == if k == key && key !in c.paths then n else at(k)
    ensures ByAge(Remembered(c, key, path).order, now, n + 1)
  {
    hide Remembered;
    RememberedOrder(c, key, path);
    var order := Remembered(c, key, path).order;
    if key in c.paths {
      assert order == c.order;
    } else {
      var kept := order[..|order| - 1];
      assert ByAge(kept, at, n);
      forall i | 0 <= i < |order| - 1 ensures order[i] == kept[i] && now(order[i]) == at(kept[i]) {}
    }
  }

  lemma NothingIsConsistent()
    ensures Consistent(Cache(map[], [], map[], 0))
  {
  }

  /** A key already there leaves the queue as it is; a new one goes to the back, and at most the
    * front goes. */
  lemma RememberedOrder(c: Cache, key: Key, path: Text)
    requires Consistent(c)
    ensures var order := Remembered(c, key, path).order;
            if key in c.paths then order == c.order
            else
              && order != [] && order[|order| - 1] == key
              && (order[..|order| - 1] == c.order || (c.order != [] && order[..|order| - 1] == c.order[1..]))
              && forall i :: 0 <= i < |order| - 1 ==> order[i] != key
  {
  }

  /** Whatever was remembered before: the directory that has to go is the one that was put into the
    * cache first. */
  lemma EvictedIsOldest(calls: seq<(Key, Text)>, key: Key, path: Text, gone: Key, other: Key)
    requires var c := AfterCalls(calls);
             gone in c.paths && gone !in Remembered(c, key, path).paths && other in c.paths && other != gone
    ensures |AfterCalls(calls).order| == CAPACITY && InsertedAt(calls, gone) < InsertedAt(calls, other)
  {
    var c := AfterCalls(calls);
    QueueIsByAge(calls);
    hide InsertedAt, AfterCalls;
    RememberedIsConsistent(c, key, path);
    assert other in c.order;
    var i :| 0 <= i < |c.order| && c.order[i] == other;
    assert c.order[0] == gone;
  }

  type Decoder = (nat, Key) -> Option<Text>

  function Get(c: Cache, key: Key): Option<Text> {
    if key in c.paths then Some(c.paths[key]) else None
  }

  /** The parent directory's path: decoded once a batch, or else as last known. */
  function Directory(decode: Decoder, c: Cache, key: Key): (Cache, Option<Text>) {
    if key in c.batch then (c, if c.batch[key].Some? then c.batch[key] else Get(c, key))
    else
      var decoded := decode(c.asked, key);
      var d := c.(batch := c.batch[key := decoded], asked := c.asked + 1);
      match decoded
      case Some(dir) => (Remembered(d, key, dir), decoded)
      case None => (d, Get(d, key))
  }

  /** resolve_event_path. */
  function Resolved(decode: Decoder, c: Cache, record: Text): (Cache, Option<Text>) {
    match Target(record)
    case None => (c, None)
    case Some((key, name)) =>
      var (d, dir) := Directory(decode, c, key);
      (d, Some(if dir.Some? then Join(dir.value, name) else name))
  }

  /** What is logged of a record: nothing without a name; else the entry of that name in its
    * directory, as that decodes in this batch, or was last known, and the bare name without one. */
  lemma ResolvedIsEntry(decode: Decoder, c: Cache, record: Text)
    ensures var path := Resolved(decode, c, record).1;
            match Target(record)
            case None => path == None
            case Some((key, name)) =>
              var answer := if key in c.batch then c.batch[key] else decode(c.asked, key);
              var dir := if answer.None? && key in c.paths then Some(c.paths[key]) else answer;
              && path.Some? && (dir.None? ==> path.value == name)
              && (dir.Some? && dir.value != [] && IsName(name) ==> IsEntryOf(path.value, dir.value, name))
  {
    hide Join, IsEntryOf;
    if Target(record).Some? {
      var (key, name) := Target(record).value;
      var dir := Directory(decode, c, key).1;
      if dir.Some? && dir.value != [] && IsName(name) { JoinIsEntry(dir.value, name); }
    }
  }

  class HandleCache {
    const decode: Decoder
    var paths: map<Key, Text>
    var order: seq<Key>
    var batch: map<Key, Option<Text>>
    /** How often the kernel was asked. */
    var asked: nat

    ghost function Value(): Cache
      reads this
    {
      Cache(paths, order, batch, asked)
    }

    constructor (decode: Decoder)
      ensures this.decode == decode && Value() == Cache(map[], [], map[], 0)
    {
      this.decode := decode;
      paths, order, batch, asked := map[], [], map[], 0;
    }

    method NewBatch()
      modifies this
      ensures Value() == old(Value()).(batch := map[])
    {
      batch := map[];
    }

    method Remember(key: Key, path: Text)
      requires Consistent(Value())
      modifies this
      ensures Value() == Remembered(old(Value()), key, path) && Consistent(Value())
    {
      RememberedIsConsistent(Value(), key, path);
      var isNew := key !in paths;
      paths := paths[key := path];
      if isNew {
        order := order + [key];
        if |order| > CAPACITY {
          var oldest := order[0];
          order := order[1..];
          paths := paths - {oldest};
        }
      }
    }

    method ResolveEventPath(record: Text) returns (path: Option<Text>)
      requires Consistent(Value())
      modifies this
      ensures (Value(), path) == Resolved(decode, old(Value()), record) && Consistent(Value())
    {
      var target := DirectoryAndName(record);
      if target.None? {
        return None;
      }
      var (key, name) := target.value;
      var dir: Option<Text>;
      if key in batch {
        dir := if batch[key].Some? then batch[key] else if key in paths then Some(paths[key]) else None;
      } else {
        dir := decode(asked, key);
        batch, asked := batch[key := dir], asked + 1;
        if dir.Some? {
          Remember(key, dir.value);
        } else {
          dir := if key in paths then Some(paths[key]) else None;
        }
      }
      path := Some(if dir.Some? then Join(dir.value, name) else name);
    }
  }

  // ---------------------------------------------------------------- learning a batch's directories

  /** A removed directory tells where it was. */
  function LearnedOne(decode: Decoder, c: Cache, record: Text): Cache {
    if !IsDelete(record) || !IsDir(record) || Own(record).None? then c
    else
      var (d, path) := Resolved(decode, c, record);
      if path.Some? && IsAbsolute(path.value) then Remembered(d, Own(record).value, path.value) else d
  }

  /** Newest first. */
  function Learned(decode: Decoder, c: Cache, records: seq<Text>): Cache
    decreases |records|
  {
    if records == [] then c
    else Learned(decode, LearnedOne(decode, c, records[|records| - 1]), records[..|records| - 1])
  }

  lemma LearnedStep(decode: Decoder, c: Cache, records: seq<Text>, i: nat)
    requires i < |records|
    ensures Learned(decode, c, records[..i + 1]) == Learned(decode, LearnedOne(decode, c, records[i]), records[..i])
  {
    assert records[..i + 1][..i] == records[..i];
  }

  method LearnDirectories(cache: HandleCache, records: seq<Text>)
    requires Consistent(cache.Value())
    modifies cache
    ensures cache.Value() == Learned(cache.decode, old(cache.Value()), records) && Consistent(cache.Value())
  {
    var i := |records|;
    assert records[..i] == records;
    assert forall c :: Learned(cache.decode, c, records[..0]) == c;
    hide Learned, Resolved, Remembered;
    while i > 0
      invariant 0 <= i <= |records| && Consistent(cache.Value())
      invariant Learned(cache.decode, cache.Value(), records[..i]) == Learned(cache.decode, old(cache.Value()), records)
    {
      i := i - 1;
      var record := records[i];
      LearnedStep(cache.decode, cache.Value(), records, i);
      if IsDelete(record) && IsDir(record) {
        var key := DeletedObjectKey(record);
        if key.Some? {
          var path := cache.ResolveEventPath(record);
          if path.Some? && IsAbsolute(path.value) {
            cache.Remember(key.value, path.value);
          }
        }
      }
    }
  }

  // ---------------------------------------------------------------- the log

  datatype Line = Overflow | Deleted(record: Text, path: Option<Text>, process: string)

  datatype Held = Held(record: Text, process: string, resolved: Option<Text>)

  function HeldRecords(held: seq<Held>): (r: seq<Text>)
    ensures |r| == |held| && forall i :: 0 <= i < |held| ==> r[i] == held[i].record
  {
    seq(|held|, i requires 0 <= i < |held| => held[i].record)
  }

  /** Logging one held record: the path it already had, or one more try. */
  function Released(decode: Decoder, c: Cache, h: Held): (Cache, Line) {
    var (d, path) := if h.resolved.Some? then (c, h.resolved) else Resolved(decode, c, h.record);
    (d, Deleted(h.record, path, h.process))
  }

  function ReleasedAll(decode: Decoder, c: Cache, held: seq<Held>): (Cache, seq<Line>)
    decreases |held|
  {
    if held == [] then (c, [])
    else
      var (d, lines) := ReleasedAll(decode, c, held[..|held| - 1]);
      var (e, line) := Released(decode, d, held[|held| - 1]);
      (e, lines + [line])
  }

  /** Where the pass over a batch is. */
  datatype Scan = Scan(cache: Cache, holding: bool, named: Option<(nat, string)>, held: seq<Held>, log: seq<Line>)

  /** One record of a batch. `nameOf` is what process names are during this batch. */
  function Scanned(decode: Decoder, nameOf: nat -> string, s: Scan, record: Text): Scan {
    var log := if IsOverflow(record) then s.log + [Overflow] else s.log;
    if !IsDelete(record) then s.(log := log)
    else
      var (cache, path) := Resolved(decode, s.cache, record);
      var process := if s.named.Some? && s.named.value.0 == Pid(record) then s.named.value.1 else nameOf(Pid(record));
      var holding := s.holding || (path.Some? && !IsAbsolute(path.value));
      var resolved := if path.Some? && IsAbsolute(path.value) then path else None;
      if holding
      then Scan(cache, true, Some((Pid(record), process)), s.held + [Held(record, process, resolved)], log)
      else Scan(cache, false, Some((Pid(record), process)), s.held, log + [Deleted(record, path, process)])
  }

  function ScannedAll(decode: Decoder, nameOf: nat -> string, s: Scan, records: seq<Text>): Scan
    decreases |records|
  {
    if records == [] then s
    else Scanned(decode, nameOf, ScannedAll(decode, nameOf, s, records[..|records| - 1]), records[|records| - 1])
  }

  datatype State = State(cache: Cache, held: seq<Held>, log: seq<Line>)

  /** A read that delivered events. */
  function AfterBatch(decode: Decoder, nameOf: nat -> string, s: State, records: seq<Text>): State {
    var c := Learned(decode, s.cache.(batch := map[]), HeldRecords(s.held) + records);
    var (d, lines) := ReleasedAll(decode, c, s.held);
    var scan := ScannedAll(decode, nameOf, Scan(d, false, None, [], s.log + lines), records);
    State(scan.cache, scan.held, scan.log)
  }

  /** A read that found the queue empty. */
  function AfterDrain(decode: Decoder, s: State): State {
    var (c, lines) := ReleasedAll(decode, s.cache.(batch := map[]), s.held);
    State(c, [], s.log + lines)
  }

  class Daemon {
    const handles: HandleCache
    var deferred: seq<Held>
    var log: seq<Line>

    constructor (decode: Decoder)
      ensures fresh(handles) && handles.decode == decode
      ensures Value() == State(Cache(map[], [], map[], 0), [], [])
    {
      handles := new HandleCache(decode);
      deferred, log := [], [];
    }

    ghost function Value(): State
      reads this, handles
    {
      State(handles.Value(), deferred, log)
    }

    /** Log what was held. */
    method Release()
      requires Consistent(handles.Value())
      modifies this, handles
      ensures Consistent(handles.Value()) && deferred == []
      ensures (handles.Value(), log) ==
              var (c, lines) := ReleasedAll(handles.decode, old(handles.Value()), old(deferred));
              (c, old(log) + lines)
    {
      var held := deferred;
      ghost var c0, l0 := handles.Value(), log;
      deferred := [];
      assert l0 + [] == l0;
      for i := 0 to |held|
        invariant Consistent(handles.Value()) && deferred == []
        invariant (handles.Value(), log) ==
                  var (c, lines) := ReleasedAll(handles.decode, c0, held[..i]); (c, l0 + lines)
      {
        assert held[..i + 1][..i] == held[..i];
        ghost var (_, lines) := ReleasedAll(handles.decode, c0, held[..i]);
        var path := held[i].resolved;
        if path.None? {
          path := handles.ResolveEventPath(held[i].record);
        }
        log := log + [Deleted(held[i].record, path, held[i].process)];
        assert log == l0 + (lines + [Deleted(held[i].record, path, held[i].process)]);
      }
      assert held[..|held|] == held;
    }

    /** The pass over the records of one read. */
    method ScanRecords(nameOf: nat -> string, records: seq<Text>)
      requires Consistent(handles.Value()) && deferred == []
      modifies this, handles
      ensures Consistent(handles.Value())
      ensures var start := Scan(old(handles.Value()), false, None, [], old(log));
              var s := ScannedAll(handles.decode, nameOf, start, records);
              Value() == State(s.cache, s.held, s.log)
    {
      var holding := false;
      var named: Option<(nat, string)> := None;
      ghost var s0 := Scan(handles.Value(), false, None, [], log);
      for i := 0 to |records|
        invariant Consistent(handles.Value())
        invariant Scan(handles.Value(), holding, named, deferred, log)
                  == ScannedAll(handles.decode, nameOf, s0, records[..i])
      {
        var record := records[i];
        assert records[..i + 1][..i] == records[..i];
        if IsOverflow(record) {
          log := log + [Overflow];
        }
        if IsDelete(record) {
          var path := handles.ResolveEventPath(record);
          var process: string;
          if named.Some? && named.value.0 == Pid(record) {
            process := named.value.1;
          } else {
            process := nameOf(Pid(record));
          }
          named := Some((Pid(record), process));
          holding := holding || (path.Some? && !IsAbsolute(path.value));
          if holding {
            deferred := deferred + [Held(record, process, if path.Some? && IsAbsolute(path.value) then path else None)];
          } else {
            log := log + [Deleted(record, path, process)];
          }
        }
      }
      assert records[..|records|] == records;
    }

    /** One turn of the loop on a read of `n` bytes. */
    method OnRead(nameOf: nat -> string, buf: Text)
      requires Consistent(handles.Value())
      modifies this, handles
      ensures Consistent(handles.Value())
      ensures Value() == AfterBatch(handles.decode, nameOf, old(Value()), Events(buf))
    {
      var records := ParseEvents(buf);
      handles.NewBatch();
      LearnDirectories(handles, HeldRecords(deferred) + records);
      Release();
      ScanRecords(nameOf, records);
    }

    /** One turn of the loop on EAGAIN. */
    method OnDrained()
      requires Consistent(handles.Value())
      modifies this, handles
      ensures Consistent(handles.Value())
      ensures Value() == AfterDrain(handles.decode, old(Value()))
    {
      handles.NewBatch();
      Release();
    }
  }

  // ---------------------------------------------------------------- whole runs

  datatype Read = Batch(nameOf: nat -> string, records: seq<Text>) | Again

  function Run(decode: Decoder, s: State, turns: seq<Read>): State
    decreases |turns|
  {
    if turns == [] then s
    else
      var t := Run(decode, s, turns[..|turns| - 1]);
      match turns[|turns| - 1]
      case Batch(nameOf, records) => AfterBatch(decode, nameOf, t, records)
      case Again => AfterDrain(decode, t)
  }

  const START := State(Cache(map[], [], map[], 0), [], [])

  function Deletes(records: seq<Text>): seq<Text> {
    if records == [] then []
    else Deletes(records[..|records| - 1]) + if IsDelete(records[|records| - 1]) then [records[|records| - 1]] else []
  }

  /** Every deletion the kernel reported, in order. */
  function Reported(turns: seq<Read>): seq<Text> {
    if turns == [] then []
    else
      Reported(turns[..|turns| - 1]) +
      match turns[|turns| - 1] case Batch(_, records) => Deletes(records) case Again => []
  }

  /** Every deletion in the log, in order. */
  function Logged(log: seq<Line>): seq<Text> {
    if log == [] then []
    else
      Logged(log[..|log| - 1]) +
      match log[|log| - 1] case Overflow => [] case Deleted(record, _, _) => [record]
  }

  lemma NothingLogged()
    ensures Logged([]) == []
  {
  }

  lemma LoggedSnoc(log: seq<Line>, line: Line)
    ensures Logged(log + [line]) == Logged(log) + match line case Overflow => [] case Deleted(record, _, _) => [record]
  {
    assert (log + [line])[..|log|] == log;
  }

  lemma {:induction false} LoggedAppend(a: seq<Line>, b: seq<Line>)
    ensures Logged(a + b) == Logged(a) + Logged(b)
    decreases |b|
  {
    if b == [] {
      assert a + b == a;
    } else {
      var n := |b| - 1;
      assert a + b == a + b[..n] + [b[n]] && b == b[..n] + [b[n]];
      LoggedAppend(a, b[..n]);
      LoggedSnoc(a + b[..n], b[n]);
      LoggedSnoc(b[..n], b[n]);
    }
  }

  /** Releasing logs the held records in order, and nothing else; a path that was already
    * resolved is logged unchanged. */
  lemma {:induction false} ReleaseLogsHeld(decode: Decoder, c: Cache, held: seq<Held>)
    ensures var lines := ReleasedAll(decode, c, held).1;
            && |lines| == |held| && Logged(lines) == HeldRecords(held)
            && forall i :: 0 <= i < |held| ==>
                 && lines[i].Deleted? && lines[i].record == held[i].record && lines[i].process == held[i].process
                 && (held[i].resolved.Some? ==> lines[i].path == held[i].resolved)
    decreases |held|
  {
    hide Resolved, Logged, HeldRecords;
    if held == [] {
      NothingHeld();
      NothingLogged();
    } else {
      var n := |held| - 1;
      ReleaseLogsHeld(decode, c, held[..n]);
      var (d, lines) := ReleasedAll(decode, c, held[..n]);
      LoggedSnoc(lines, Released(decode, d, held[n]).1);
      HeldSnoc(held[..n], held[n]);
      assert held == held[..n] + [held[n]];
    }
  }

  /** The scan passes every deletion on, in order: first to the log, and once one is held, all
    * later ones are. What is held with a path has an absolute one. */
  lemma {:induction false} ScanKeepsOrder(decode: Decoder, nameOf: nat -> string, s: Scan, records: seq<Text>)
    requires !s.holding && s.held == []
    ensures var t := ScannedAll(decode, nameOf, s, records);
            && Logged(t.log) + HeldRecords(t.held) == Logged(s.log) + Deletes(records)
            && (t.held != [] ==> t.holding) && Logged(s.log) <= Logged(t.log)
            && forall h :: h in t.held && h.resolved.Some? ==> IsAbsolute(h.resolved.value)
    decreases |records|
  {
    hide Resolved;
    if records != [] {
      var n := |records| - 1;
      ScanKeepsOrder(decode, nameOf, s, records[..n]);
      var t, u := ScannedAll(decode, nameOf, s, records[..n]), ScannedAll(decode, nameOf, s, records);
      ScanStep(decode, nameOf, t, records[n]);
      assert Logged(u.log) + HeldRecords(u.held)
          == Logged(t.log) + HeldRecords(t.held) + if IsDelete(records[n]) then [records[n]] else [];
    }
  }

  lemma ScanStep(decode: Decoder, nameOf: nat -> string, t: Scan, record: Text)
    requires t.held != [] ==> t.holding
    ensures var u := Scanned(decode, nameOf, t, record);
            && (u.held != [] ==> u.holding) && Logged(t.log) <= Logged(u.log)
            && Logged(u.log) + HeldRecords(u.held)
               == Logged(t.log) + HeldRecords(t.held) + (if IsDelete(record) then [record] else [])
            && forall h :: h in u.held && h !in t.held && h.resolved.Some? ==> IsAbsolute(h.resolved.value)
  {
    hide Resolved, Logged, HeldRecords;
    var u := Scanned(decode, nameOf, t, record);
    LoggedSnoc(t.log, Overflow);
    assert Logged(t.log) + [] == Logged(t.log);
    if IsDelete(record) {
      if u.holding {
        HeldSnoc(t.held, u.held[|u.held| - 1]);
      } else {
        NothingHeld();
        LoggedSnoc(if IsOverflow(record) then t.log + [Overflow] else t.log, u.log[|u.log| - 1]);
      }
    }
  }

  lemma HeldSnoc(held: seq<Held>, h: Held)
    ensures HeldRecords(held + [h]) == HeldRecords(held) + [h.record]
  {
  }

  lemma NothingHeld()
    ensures HeldRecords([]) == []
  {
  }

  /** One turn of the loop. */
  lemma TurnKeepsOrder(decode: Decoder, s: State, read: Read)
    ensures var t := match read case Batch(nameOf, records) => AfterBatch(decode, nameOf, s, records)
                                case Again => AfterDrain(decode, s);
            var more := match read case Batch(_, records) => Deletes(records) case Again => [];
            && Logged(t.log) + HeldRecords(t.held) == Logged(s.log) + HeldRecords(s.held) + more
            && Logged(s.log) + HeldRecords(s.held) <= Logged(t.log)
            && (read.Again? ==> t.held == [])
  {
    hide Learned, ScannedAll, ReleasedAll, Logged;
    match read
    case Again =>
      var (c, lines) := ReleasedAll(decode, s.cache.(batch := map[]), s.held);
      ReleaseLogsHeld(decode, s.cache.(batch := map[]), s.held);
      LoggedAppend(s.log, lines);
    case Batch(nameOf, records) =>
      var c := Learned(decode, s.cache.(batch := map[]), HeldRecords(s.held) + records);
      var (d, lines) := ReleasedAll(decode, c, s.held);
      ReleaseLogsHeld(decode, c, s.held);
      LoggedAppend(s.log, lines);
      ScanKeepsOrder(decode, nameOf, Scan(d, false, None, [], s.log + lines), records);
  }

  /** Over every sequence of reads: each reported deletion is logged exactly once and in order, or
    * is the tail still held. */
  lemma {:induction false} EveryDeleteOnceInOrder(decode: Decoder, turns: seq<Read>)
    ensures var s := Run(decode, START, turns);
            Logged(s.log) + HeldRecords(s.held) == Reported(turns)
    decreases |turns|
  {
    if turns != [] {
      var n := |turns| - 1;
      EveryDeleteOnceInOrder(decode, turns[..n]);
      TurnKeepsOrder(decode, Run(decode, START, turns[..n]), turns[n]);
    }
  }

  /** Nothing is held past the next read: whatever that read is, all that was reported before it
    * is in the log after it, and an empty queue leaves nothing held. */
  lemma HeldForOneReadOnly(decode: Decoder, turns: seq<Read>, read: Read)
    ensures var s := Run(decode, START, turns + [read]);
            Reported(turns) <= Logged(s.log) && (read.Again? ==> s.held == [])
  {
    assert (turns + [read])[..|turns|] == turns;
    EveryDeleteOnceInOrder(decode, turns);
    TurnKeepsOrder(decode, Run(decode, START, turns), read);
  }

  // ---------------------------------------------------------------- what the lines say

  /** How often the log says that events were lost. */
  function Overflows(log: seq<Line>): nat {
    if log == [] then 0 else Overflows(log[..|log| - 1]) + if log[|log| - 1].Overflow? then 1 else 0
  }

  function OverflowRecords(records: seq<Text>): nat {
    if records == [] then 0
    else OverflowRecords(records[..|records| - 1]) + if IsOverflow(records[|records| - 1]) then 1 else 0
  }

  function ReportedOverflows(turns: seq<Read>): nat {
    if turns == [] then 0
    else
      ReportedOverflows(turns[..|turns| - 1]) +
      match turns[|turns| - 1] case Batch(_, records) => OverflowRecords(records) case Again => 0
  }

  lemma OverflowsSnoc(log: seq<Line>, line: Line)
    ensures Overflows(log + [line]) == Overflows(log) + if line.Overflow? then 1 else 0
  {
    assert (log + [line])[..|log|] == log;
  }

  lemma {:induction false} OverflowsAppend(log: seq<Line>, lines: seq<Line>)
    requires forall i :: 0 <= i < |lines| ==> lines[i].Deleted?
    ensures Overflows(log + lines) == Overflows(log)
    decreases |lines|
  {
    if lines == [] {
      assert log + lines == log;
    } else {
      var n := |lines| - 1;
      OverflowsAppend(log, lines[..n]);
      OverflowsSnoc(log + lines[..n], lines[n]);
      assert log + lines == log + lines[..n] + [lines[n]];
    }
  }

  lemma ScanOneOverflow(decode: Decoder, nameOf: nat -> string, s: Scan, record: Text)
    ensures Overflows(Scanned(decode, nameOf, s, record).log) == Overflows(s.log) + if IsOverflow(record) then 1 else 0
  {
    hide Resolved, Overflows, IsOverflow, IsDelete;
    OverflowsSnoc(s.log, Overflow);
    var log := if IsOverflow(record) then s.log + [Overflow] else s.log;
    var t := Scanned(decode, nameOf, s, record);
    if t.log != log { OverflowsSnoc(log, t.log[|t.log| - 1]); }
  }

  lemma {:induction false} ScanOverflows(decode: Decoder, nameOf: nat -> string, s: Scan, records: seq<Text>)
    ensures Overflows(ScannedAll(decode, nameOf, s, records).log) == Overflows(s.log) + OverflowRecords(records)
    decreases |records|
  {
    hide Scanned, Overflows;
    if records != [] {
      var n := |records| - 1;
      ScanOverflows(decode, nameOf, s, records[..n]);
      ScanOneOverflow(decode, nameOf, ScannedAll(decode, nameOf, s, records[..n]), records[n]);
    }
  }

  /** Over every sequence of reads: each overflow that was reported is logged, once. */
  lemma {:induction false} EveryOverflowOnce(decode: Decoder, turns: seq<Read>)
    ensures Overflows(Run(decode, START, turns).log) == ReportedOverflows(turns)
    decreases |turns|
  {
    hide Overflows, Learned, ReleasedAll, ScannedAll;
    if turns == [] {
      NoOverflows();
    } else {
      var n := |turns| - 1;
      EveryOverflowOnce(decode, turns[..n]);
      var s := Run(decode, START, turns[..n]);
      var c0 := s.cache.(batch := map[]);
      match turns[n]
      case Again =>
        ReleaseLogsHeld(decode, c0, s.held);
        OverflowsAppend(s.log, ReleasedAll(decode, c0, s.held).1);
      case Batch(nameOf, records) =>
        var c := Learned(decode, c0, HeldRecords(s.held) + records);
        var (d, lines) := ReleasedAll(decode, c, s.held);
        ReleaseLogsHeld(decode, c, s.held);
        OverflowsAppend(s.log, lines);
        ScanOverflows(decode, nameOf, Scan(d, false, None, [], s.log + lines), records);
    }
  }

  lemma NoOverflows()
    ensures Overflows([]) == 0
  {
  }

  /** What may be logged as a record's path: its name alone, or the entry of that name in some
    * directory; and nothing for a record without a name. */
  ghost predicate NamesItsEntry(record: Text, path: Option<Text>) {
    match Target(record)
    case None => path == None
    case Some((_, name)) =>
      && path.Some?
      && (IsName(name) ==> path.value == name || exists dir :: IsEntryOf(path.value, dir, name))
  }

  /** A line, or what is held for one, of a batch in which processes have these names. */
  ghost predicate LineIsRight(record: Text, path: Option<Text>, process: string, nameOf: nat -> string) {
    NamesItsEntry(record, path) && process == nameOf(Pid(record))
  }

  lemma ResolvedNamesEntry(decode: Decoder, c: Cache, record: Text)
    ensures NamesItsEntry(record, Resolved(decode, c, record).1)
  {
    hide IsEntryOf, Resolved;
    ResolvedIsEntry(decode, c, record);
    if Target(record).Some? {
      var (key, name) := Target(record).value;
      var answer := if key in c.batch then c.batch[key] else decode(c.asked, key);
      var dir := if answer.None? && key in c.paths then Some(c.paths[key]) else answer;
      if dir == Some([]) { JoinNothing(decode, c, record); }
    }
  }

  lemma JoinNothing(decode: Decoder, c: Cache, record: Text)
    requires Target(record).Some? && Directory(decode, c, Target(record).value.0).1 == Some([])
    ensures Resolved(decode, c, record).1 == Some(Target(record).value.1)
  {
  }

  /** All that a scan adds to the log or holds is right. */
  lemma {:induction false} ScanIsRight(decode: Decoder, nameOf: nat -> string, s: Scan, records: seq<Text>)
    requires s.named.None? && s.held == []
    ensures var t := ScannedAll(decode, nameOf, s, records);
            && (t.named.Some? ==> t.named.value.1 == nameOf(t.named.value.0))
            && s.log <= t.log
            && (forall i :: |s.log| <= i < |t.log| && t.log[i].Deleted? ==>
                  LineIsRight(t.log[i].record, t.log[i].path, t.log[i].process, nameOf))
            && forall h :: h in t.held ==>
                 && h.process == nameOf(Pid(h.record))
                 && (h.resolved.Some? ==> NamesItsEntry(h.record, h.resolved))
    decreases |records|
  {
    hide Resolved, NamesItsEntry, IsDelete, IsOverflow, Pid;
    if records != [] {
      var n := |records| - 1;
      ScanIsRight(decode, nameOf, s, records[..n]);
      var t := ScannedAll(decode, nameOf, s, records[..n]);
      ResolvedNamesEntry(decode, t.cache, records[n]);
    }
  }

  /** So is all that is released, with the name its process had when it was held. */
  lemma {:induction false} ReleaseIsRight(decode: Decoder, c: Cache, held: seq<Held>)
    requires forall h :: h in held && h.resolved.Some? ==> NamesItsEntry(h.record, h.resolved)
    ensures forall line :: line in ReleasedAll(decode, c, held).1 ==>
              line.Deleted? && NamesItsEntry(line.record, line.path)
    decreases |held|
  {
    hide Resolved, NamesItsEntry;
    if held != [] {
      var n := |held| - 1;
      ReleaseIsRight(decode, c, held[..n]);
      ResolvedNamesEntry(decode, ReleasedAll(decode, c, held[..n]).0, held[n].record);
    }
  }

  ghost predicate AllNameEntries(s: State) {
    && (forall line :: line in s.log && line.Deleted? ==> NamesItsEntry(line.record, line.path))
    && forall h :: h in s.held && h.resolved.Some? ==> NamesItsEntry(h.record, h.resolved)
  }

  /** Over every sequence of reads, whatever handles decode to: every logged path ends in the name the
    * kernel reported for it, as an entry of some directory or alone. */
  lemma {:induction false} EveryPathNamesItsEntry(decode: Decoder, turns: seq<Read>)
    ensures AllNameEntries(Run(decode, START, turns))
    decreases |turns|
  {
    hide NamesItsEntry, Learned, ReleasedAll, ScannedAll;
    if turns != [] {
      var n := |turns| - 1;
      EveryPathNamesItsEntry(decode, turns[..n]);
      var s := Run(decode, START, turns[..n]);
      var c0 := s.cache.(batch := map[]);
      match turns[n]
      case Again => ReleaseIsRight(decode, c0, s.held);
      case Batch(nameOf, records) =>
        var c := Learned(decode, c0, HeldRecords(s.held) + records);
        ReleaseIsRight(decode, c, s.held);
        var (d, lines) := ReleasedAll(decode, c, s.held);
        var scan := Scan(d, false, None, [], s.log + lines);
        ScanIsRight(decode, nameOf, scan, records);
        var t := ScannedAll(decode, nameOf, scan, records);
        forall line | line in t.log && line.Deleted? ensures NamesItsEntry(line.record, line.path) {
          var i :| 0 <= i < |t.log| && t.log[i] == line;
          if i < |scan.log| { assert line == scan.log[i] && (line in s.log || line in lines); }
        }
    }
  }

  // ---------------------------------------------------------------- removed trees

  /** Handles decode to absolute paths, or no longer. */
  ghost predicate AbsoluteNow(now: Key -> Option<Text>) {
    forall key :: now(key).Some? ==> IsAbsolute(now(key).value)
  }

  /** What the kernel was asked in this batch, it answered like this. */
  ghost predicate Answered(now: Key -> Option<Text>, c: Cache) {
    forall key :: key in c.batch ==> c.batch[key] == now(key)
  }

  /** The decoder that never changes its answers. */
  function Frozen(now: Key -> Option<Text>): Decoder {
    (t, key) => now(key)
  }

  /** A record that removes a directory and names its handle. */
  predicate TellsDirectory(record: Text) {
    IsDelete(record) && IsDir(record) && Own(record).Some?
  }

  /** The answers of a batch stay, and each new one comes from an ask in between. */
  ghost predicate Asks(decode: Decoder, c: Cache, d: Cache) {
    && c.asked <= d.asked
    && (forall key :: key in c.batch ==> key in d.batch && d.batch[key] == c.batch[key])
    && forall key :: key in d.batch && key !in c.batch ==>
         exists t: nat :: c.asked <= t < d.asked && d.batch[key] == decode(t, key)
  }

  lemma AsksOn(decode: Decoder, c: Cache, d: Cache, e: Cache)
    requires Asks(decode, c, d) && Asks(decode, d, e)
    ensures Asks(decode, c, e)
  {
    forall key | key in e.batch && key !in c.batch
      ensures exists t: nat :: c.asked <= t < e.asked && e.batch[key] == decode(t, key)
    {
      if key in d.batch {
        var t: nat :| c.asked <= t < d.asked && d.batch[key] == decode(t, key);
      } else {
        var t: nat :| d.asked <= t < e.asked && e.batch[key] == decode(t, key);
      }
    }
  }

  lemma AsksNothing(decode: Decoder, c: Cache, d: Cache)
    requires d.batch == c.batch && d.asked == c.asked
    ensures Asks(decode, c, d)
  {
  }

  lemma AnsweredBefore(decode: Decoder, now: Key -> Option<Text>, c: Cache, d: Cache)
    requires Asks(decode, c, d) && Answered(now, d)
    ensures Answered(now, c)
  {
  }

  /** A kernel that does not change its mind from one ask to another answers so in between. */
  lemma SettledAnswers(decode: Decoder, now: Key -> Option<Text>, c: Cache, d: Cache)
    requires Asks(decode, c, d) && Answered(now, c)
    requires forall t: nat, key :: c.asked <= t < d.asked ==> decode(t, key) == now(key)
    ensures Answered(now, d)
  {
  }

  lemma DirectoryAsks(decode: Decoder, now: Key -> Option<Text>, c: Cache, key: Key)
    ensures var (d, dir) := Directory(decode, c, key);
            Asks(decode, c, d) && (Answered(now, d) ==> (d, dir) == Directory(Frozen(now), c, key))
  {
    var (d, dir) := Directory(decode, c, key);
    if key !in c.batch {
      var decoded := decode(c.asked, key);
      if decoded.Some? {
        RememberedKeepsBatch(c.(batch := c.batch[key := decoded], asked := c.asked + 1), key, decoded.value);
      }
      hide Remembered;
      assert d.batch == c.batch[key := decoded] && d.asked == c.asked + 1;
      assert Answered(now, d) ==> now(key) == decoded;
    }
  }

  lemma ResolvedAsks(decode: Decoder, now: Key -> Option<Text>, c: Cache, record: Text)
    ensures var (d, path) := Resolved(decode, c, record);
            Asks(decode, c, d) && (Answered(now, d) ==> (d, path) == Resolved(Frozen(now), c, record))
  {
    hide Directory, Answered;
    if Target(record).Some? { DirectoryAsks(decode, now, c, Target(record).value.0); }
  }

  lemma LearnedOneAsks(decode: Decoder, now: Key -> Option<Text>, c: Cache, record: Text)
    ensures var d := LearnedOne(decode, c, record);
            Asks(decode, c, d) && (Answered(now, d) ==> d == LearnedOne(Frozen(now), c, record))
  {
    hide Resolved, Remembered;
    if TellsDirectory(record) {
      var (d, path) := Resolved(decode, c, record);
      ResolvedAsks(decode, now, c, record);
      if path.Some? && IsAbsolute(path.value) { RememberedKeepsBatch(d, Own(record).value, path.value); }
    }
  }

  lemma {:induction false} LearnedAsks(decode: Decoder, now: Key -> Option<Text>, c: Cache, records: seq<Text>)
    ensures var d := Learned(decode, c, records);
            Asks(decode, c, d) && (Answered(now, d) ==> d == Learned(Frozen(now), c, records))
    decreases |records|
  {
    hide LearnedOne, Asks, Answered;
    if records == [] {
      AsksNothing(decode, c, c);
    } else {
      var n := |records| - 1;
      var d := LearnedOne(decode, c, records[n]);
      var e := Learned(decode, d, records[..n]);
      LearnedOneAsks(decode, now, c, records[n]);
      LearnedAsks(decode, now, d, records[..n]);
      AsksOn(decode, c, d, e);
      if Answered(now, e) { AnsweredBefore(decode, now, d, e); }
    }
  }

  lemma ReleasedAsks(decode: Decoder, now: Key -> Option<Text>, c: Cache, h: Held)
    ensures var (d, line) := Released(decode, c, h);
            Asks(decode, c, d) && (Answered(now, d) ==> (d, line) == Released(Frozen(now), c, h))
  {
    hide Resolved;
    if h.resolved.None? { ResolvedAsks(decode, now, c, h.record); }
  }

  lemma {:induction false} ReleasedAllAsks(decode: Decoder, now: Key -> Option<Text>, c: Cache, held: seq<Held>)
    ensures var (d, lines) := ReleasedAll(decode, c, held);
            Asks(decode, c, d) && (Answered(now, d) ==> (d, lines) == ReleasedAll(Frozen(now), c, held))
    decreases |held|
  {
    hide Released, Asks, Answered;
    if held == [] {
      AsksNothing(decode, c, c);
    } else {
      var n := |held| - 1;
      var (d, lines) := ReleasedAll(decode, c, held[..n]);
      var (e, line) := Released(decode, d, held[n]);
      ReleasedAllAsks(decode, now, c, held[..n]);
      ReleasedAsks(decode, now, d, held[n]);
      AsksOn(decode, c, d, e);
      if Answered(now, e) { AnsweredBefore(decode, now, d, e); }
    }
  }

  lemma ScannedAsks(decode: Decoder, now: Key -> Option<Text>, nameOf: nat -> string, s: Scan, record: Text)
    ensures var t := Scanned(decode, nameOf, s, record);
            Asks(decode, s.cache, t.cache) && (Answered(now, t.cache) ==> t == Scanned(Frozen(now), nameOf, s, record))
  {
    hide Resolved;
    ResolvedAsks(decode, now, s.cache, record);
  }

  lemma {:induction false} ScannedAllAsks(decode: Decoder, now: Key -> Option<Text>, nameOf: nat -> string, s: Scan,
                                          records: seq<Text>)
    ensures var t := ScannedAll(decode, nameOf, s, records);
            && Asks(decode, s.cache, t.cache)
            && (Answered(now, t.cache) ==> t == ScannedAll(Frozen(now), nameOf, s, records))
    decreases |records|
  {
    hide Scanned, Asks, Answered;
    if records == [] {
      AsksNothing(decode, s.cache, s.cache);
    } else {
      var n := |records| - 1;
      var t := ScannedAll(decode, nameOf, s, records[..n]);
      var u := Scanned(decode, nameOf, t, records[n]);
      ScannedAllAsks(decode, now, nameOf, s, records[..n]);
      ScannedAsks(decode, now, nameOf, t, records[n]);
      AsksOn(decode, s.cache, t.cache, u.cache);
      if Answered(now, u.cache) { AnsweredBefore(decode, now, t.cache, u.cache); }
    }
  }

  /** Each handle is asked at most once a batch, so a batch goes as if the kernel never changed the
    * answers it gave in it; what it answers before and after, or to other handles, is free. */
  lemma BatchAsks(decode: Decoder, now: Key -> Option<Text>, nameOf: nat -> string, s: State, records: seq<Text>)
    ensures var t := AfterBatch(decode, nameOf, s, records);
            && Asks(decode, s.cache.(batch := map[]), t.cache)
            && (Answered(now, t.cache) ==> t == AfterBatch(Frozen(now), nameOf, s, records))
  {
    hide Learned, ReleasedAll, ScannedAll, Asks, Answered;
    var c0, all := s.cache.(batch := map[]), HeldRecords(s.held) + records;
    var c := Learned(decode, c0, all);
    var (d, lines) := ReleasedAll(decode, c, s.held);
    var start := Scan(d, false, None, [], s.log + lines);
    var e := ScannedAll(decode, nameOf, start, records).cache;
    LearnedAsks(decode, now, c0, all);
    ReleasedAllAsks(decode, now, c, s.held);
    ScannedAllAsks(decode, now, nameOf, start, records);
    AsksOn(decode, c, d, e);
    AsksOn(decode, c0, c, e);
    if Answered(now, e) {
      AnsweredBefore(decode, now, d, e);
      AnsweredBefore(decode, now, c, e);
    }
  }

  /** A kernel that gives the same answers through one batch. */
  lemma SettledBatch(decode: Decoder, now: Key -> Option<Text>, nameOf: nat -> string, s: State, records: seq<Text>)
    requires var t := AfterBatch(decode, nameOf, s, records);
             forall i: nat, key :: s.cache.asked <= i < t.cache.asked ==> decode(i, key) == now(key)
    ensures Answered(now, AfterBatch(decode, nameOf, s, records).cache)
  {
    hide AfterBatch;
    BatchAsks(decode, now, nameOf, s, records);
    SettledAnswers(decode, now, s.cache.(batch := map[]), AfterBatch(decode, nameOf, s, records).cache);
  }

  /** In one batch a removed directory no longer decodes, and is removed once. */
  predicate RemovedForGood(now: Key -> Option<Text>, all: seq<Text>) {
    && (forall j :: 0 <= j < |all| && TellsDirectory(all[j]) ==> now(Own(all[j]).value) == None)
    && (forall i, j :: 0 <= i < j < |all| && TellsDirectory(all[i]) && TellsDirectory(all[j]) ==>
          Own(all[i]) != Own(all[j]))
  }

  /** The record at or after `from` that removes the directory with this handle. */
  function Teller(all: seq<Text>, key: Key, from: nat): (r: Option<nat>)
    requires from <= |all|
    ensures r.Some? ==> from <= r.value < |all| && TellsDirectory(all[r.value]) && Own(all[r.value]).value == key
    ensures r.None? ==> forall j :: from <= j < |all| && TellsDirectory(all[j]) ==> Own(all[j]).value != key
    decreases |all| - from
  {
    if from == |all| then None
    else if TellsDirectory(all[from]) && Own(all[from]).value == key then Some(from)
    else Teller(all, key, from + 1)
  }

  /** Where the entry of a record was: under its directory's path, which still decodes, or is told
    * by the later record that removes the directory. */
  function TruePath(now: Key -> Option<Text>, all: seq<Text>, i: nat): Option<Text>
    requires i < |all|
    decreases |all| - i
  {
    match Target(all[i])
    case None => None
    case Some((key, name)) =>
      match now(key)
      case Some(dir) => Some(Join(dir, name))
      case None =>
        match Teller(all, key, i + 1)
        case None => None
        case Some(j) => match TruePath(now, all, j) case None => None case Some(dir) => Some(Join(dir, name))
  }

  /** This record removes that directory, whose path was `dir`. */
  predicate TellsPath(now: Key -> Option<Text>, all: seq<Text>, j: nat, key: Key, dir: Text)
    requires j < |all|
  {
    TellsDirectory(all[j]) && Own(all[j]).value == key && TruePath(now, all, j) == Some(dir)
  }

  /** A true path is an entry: it has the pieces of its directory's path, and then its name; the
    * directory still decodes to that path, or a later record removes it, with that as its own true
    * path. Where each directory is removed once, there is a true path exactly if there is one of
    * the two. */
  lemma TruePathIsEntry(now: Key -> Option<Text>, all: seq<Text>, i: nat)
    requires i < |all| && AbsoluteNow(now) && RemovedForGood(now, all)
    requires Target(all[i]).Some? && IsName(Target(all[i]).value.1)
    ensures var ((key, name), path) := (Target(all[i]).value, TruePath(now, all, i));
            && (path.Some? <==>
                  now(key).Some? || exists j, dir :: i < j < |all| && TellsPath(now, all, j, key, dir))
            && (now(key).Some? ==> path.Some? && IsEntryOf(path.value, now(key).value, name))
            && (now(key).None? ==> forall j, dir :: i < j < |all| && TellsPath(now, all, j, key, dir) ==>
                  path.Some? && IsEntryOf(path.value, dir, name))
  {
    hide Join, IsEntryOf, IsDelete, IsDir;
    var (key, name) := Target(all[i]).value;
    if now(key).Some? {
      JoinIsEntry(now(key).value, name);
    } else {
      var told := Teller(all, key, i + 1);
      forall j, dir | i < j < |all| && TellsPath(now, all, j, key, dir)
        ensures told == Some(j) && TruePath(now, all, i) == Some(Join(dir, name))
        ensures IsEntryOf(Join(dir, name), dir, name)
      {
        assert Own(all[told.value]) == Own(all[j]);
        TruePathIsAbsolute(now, all, j);
        JoinIsEntry(dir, name);
      }
      if TruePath(now, all, i).Some? {
        assert TellsPath(now, all, told.value, key, TruePath(now, all, told.value).value);
      }
    }
  }

  /** Records of one removed tree, inside out: each is an entry of the directory that the next one
    * removes, and the last one's directory still decodes to `top`. */
  predicate IsNest(now: Key -> Option<Text>, all: seq<Text>, chain: seq<nat>, top: Text)
    decreases |chain|
  {
    && chain != [] && chain[0] < |all| && Target(all[chain[0]]).Some? && IsName(Target(all[chain[0]]).value.1)
    && var key := Target(all[chain[0]]).value.0;
       if |chain| == 1 then now(key) == Some(top)
       else
         && chain[0] < chain[1] < |all| && TellsDirectory(all[chain[1]]) && Own(all[chain[1]]).value == key
         && IsNest(now, all, chain[1..], top)
  }

  /** The names of a nest, outermost first. */
  function NamesOf(now: Key -> Option<Text>, all: seq<Text>, chain: seq<nat>, top: Text): seq<Text>
    requires IsNest(now, all, chain, top)
    decreases |chain|
  {
    (if |chain| == 1 then [] else NamesOf(now, all, chain[1..], top)) + [Target(all[chain[0]]).value.1]
  }

  /** However deep the removed tree: the true path has the pieces of the directory that is left, and
    * then every name on the way down. */
  lemma {:induction false} NestPath(now: Key -> Option<Text>, all: seq<Text>, chain: seq<nat>, top: Text)
    requires AbsoluteNow(now) && RemovedForGood(now, all) && IsNest(now, all, chain, top)
    ensures var path := TruePath(now, all, chain[0]);
            path.Some? && Split(path.value, SLASH) == Pieces(top) + NamesOf(now, all, chain, top)
    decreases |chain|
  {
    hide IsDelete, IsDir, TruePath, Split;
    var i, dirKey, name := chain[0], Target(all[chain[0]]).value.0, Target(all[chain[0]]).value.1;
    TruePathIsEntry(now, all, i);
    if |chain| > 1 {
      NestPath(now, all, chain[1..], top);
      var j, dir := chain[1], TruePath(now, all, chain[1]).value;
      assert TellsPath(now, all, j, dirKey, dir);
      var above := NamesOf(now, all, chain[1..], top);
      assert Split(dir, SLASH) == Pieces(top) + above;
      assert above[|above| - 1] != [];
      NestEnds(dir, Pieces(top) + above);
      assert Pieces(top) + above + [name] == Pieces(top) + (above + [name]);
    }
  }

  lemma NestEnds(path: Text, pieces: seq<Text>)
    requires pieces != [] && Split(path, SLASH) == pieces && pieces[|pieces| - 1] != []
    ensures Pieces(path) == pieces
  {
    hide Split;
    if path != [] && path[|path| - 1] == SLASH { EndsInSlash(path); }
  }

  lemma {:induction false} TruePathIsAbsolute(now: Key -> Option<Text>, all: seq<Text>, i: nat)
    requires AbsoluteNow(now) && i < |all|
    ensures TruePath(now, all, i).Some? ==> IsAbsolute(TruePath(now, all, i).value)
    decreases |all| - i
  {
    if Target(all[i]).Some? {
      var (key, name) := Target(all[i]).value;
      if now(key).None? && Teller(all, key, i + 1).Some? {
        TruePathIsAbsolute(now, all, Teller(all, key, i + 1).value);
      }
    }
  }

  /** What was decoded this batch is what handles decode to now. */
  ghost predicate Sound(now: Key -> Option<Text>, c: Cache) {
    Consistent(c) && Answered(now, c)
  }

  /** The directories these records name: where an entry was, and what was removed. */
  function Named(all: seq<Text>): set<Key> {
    (set i | 0 <= i < |all| && Target(all[i]).Some? :: Target(all[i]).value.0)
    + (set i | 0 <= i < |all| && TellsDirectory(all[i]) :: Own(all[i]).value)
  }

  /** How many of the oldest keys in the queue are none of these. */
  function Idle(order: seq<Key>, room: set<Key>): (n: nat)
    ensures n <= |order|
  {
    if order == [] || order[0] in room then 0 else 1 + Idle(order[1..], room)
  }

  /** The directories that are not known yet find a free slot each, or one of the oldest keys that
    * can go for it. */
  predicate Fits(c: Cache, room: set<Key>) {
    |room - c.paths.Keys| + |c.order| <= CAPACITY + Idle(c.order, room)
  }

  predicate Covers(room: set<Key>, record: Text) {
    && (Target(record).Some? ==> Target(record).value.0 in room)
    && (TellsDirectory(record) ==> Own(record).value in room)
  }

  lemma NamedAreCovered(all: seq<Text>, room: set<Key>, i: nat)
    requires i < |all| && Named(all) <= room
    ensures Covers(room, all[i])
  {
    if Target(all[i]).Some? { assert Target(all[i]).value.0 in Named(all); }
    if TellsDirectory(all[i]) { assert Own(all[i]).value in Named(all); }
  }

  lemma {:induction false} IdleSnoc(order: seq<Key>, room: set<Key>, key: Key)
    ensures Idle(order + [key], room) >= Idle(order, room)
  {
    if order != [] {
      assert (order + [key])[1..] == order[1..] + [key];
      IdleSnoc(order[1..], room, key);
    }
  }

  lemma {:induction false} AllIdle(order: seq<Key>, room: set<Key>)
    requires forall k :: k in order ==> k !in room
    ensures Idle(order, room) == |order|
  {
    if order != [] { AllIdle(order[1..], room); }
  }

  /** The queue is as long as there are keys. */
  lemma {:induction false} QueueLength(order: seq<Key>, keys: set<Key>)
    requires NoRepeats(order) && forall k :: k in order <==> k in keys
    ensures |order| == |keys|
  {
    if order == [] {
      assert keys == {};
    } else {
      var n := |order| - 1;
      var last := order[n];
      forall k ensures k in order[..n] <==> k in keys - {last} {
        if k in order && k != last {
          var i :| 0 <= i < |order| && order[i] == k;
          assert order[..n][i] == k;
        }
      }
      QueueLength(order[..n], keys - {last});
    }
  }

  /** A cache with a slot for every directory fits. */
  lemma RoomFits(c: Cache, room: set<Key>)
    requires Consistent(c) && |c.paths.Keys + room| <= CAPACITY
    ensures Fits(c, room)
  {
    QueueLength(c.order, c.paths.Keys);
    assert c.paths.Keys + room == c.paths.Keys + (room - c.paths.Keys);
  }

  /** So does any cache, however full, that knows none of them yet. */
  lemma OthersFit(c: Cache, room: set<Key>)
    requires Consistent(c) && |room| <= CAPACITY && c.paths.Keys !! room
    ensures Fits(c, room)
  {
    assert room - c.paths.Keys == room;
    AllIdle(c.order, room);
  }

  /** One key that is remembered anew takes a free slot, */
  lemma TakesFreeSlot(c: Cache, key: Key, path: Text, room: set<Key>)
    requires Fits(c, room) && key in room && key !in c.paths && |c.order| < CAPACITY
    ensures Fits(Remembered(c, key, path), room)
  {
    var r := Remembered(c, key, path);
    assert room - r.paths.Keys == (room - c.paths.Keys) - {key};
    assert key in room - c.paths.Keys;
    IdleSnoc(c.order, room, key);
    hide Idle;
  }

  /** or that of the oldest one. */
  lemma TakesOldestSlot(c: Cache, key: Key, path: Text, room: set<Key>)
    requires Consistent(c) && Fits(c, room) && key in room && key !in c.paths && |c.order| == CAPACITY
    ensures Fits(Remembered(c, key, path), room) && c.order[0] !in room
  {
    var r := Remembered(c, key, path);
    assert key in room - c.paths.Keys;
    assert Idle(c.order, room) > 0;
    IdleSnoc(c.order[1..], room, key);
    hide Idle, Consistent;
    assert room - r.paths.Keys == (room - c.paths.Keys) - {key};
  }

  lemma KnownKeyFits(c: Cache, key: Key, path: Text, room: set<Key>)
    requires Fits(c, room) && key in c.paths
    ensures Fits(Remembered(c, key, path), room)
  {
    assert Remembered(c, key, path).paths.Keys == c.paths.Keys;
  }

  lemma RememberedFits(c: Cache, key: Key, path: Text, room: set<Key>)
    requires Consistent(c) && Fits(c, room) && key in room
    ensures Fits(Remembered(c, key, path), room)
    ensures key !in c.paths && |c.order| == CAPACITY ==> c.order[0] !in room
  {
    hide Fits, Remembered;
    if key in c.paths {
      KnownKeyFits(c, key, path, room);
    } else if |c.order| < CAPACITY {
      TakesFreeSlot(c, key, path, room);
    } else {
      TakesOldestSlot(c, key, path, room);
    }
  }

  lemma RememberedKeepsBatch(c: Cache, key: Key, path: Text)
    ensures var d := Remembered(c, key, path);
            d.batch == c.batch && d.asked == c.asked
  {
  }

  /** So remembering one of them drops none of them. */
  lemma FittingStays(c: Cache, key: Key, path: Text, room: set<Key>)
    requires Consistent(c) && Fits(c, room) && key in room
    ensures var r := Remembered(c, key, path);
            && Consistent(r) && Fits(r, room) && r.batch == c.batch && key in r.paths && r.paths[key] == path
            && forall k :: k in c.paths && k in room && k != key ==> k in r.paths && r.paths[k] == c.paths[k]
  {
    hide Fits, Consistent, Remembered;
    RememberedFits(c, key, path, room);
    RememberedIsConsistent(c, key, path);
    RememberedKeepsBatch(c, key, path);
  }

  /** The cache still fits, and keeps the paths of the named directories that are gone. */
  ghost predicate Grew(now: Key -> Option<Text>, c: Cache, d: Cache, room: set<Key>) {
    && Sound(now, d) && Fits(d, room)
    && forall k :: k in c.paths && k in room && now(k).None? ==> k in d.paths && d.paths[k] == c.paths[k]
  }

  lemma SameQueue(c: Cache, d: Cache, room: set<Key>)
    requires Consistent(c) && Fits(c, room) && d.paths == c.paths && d.order == c.order
    ensures Consistent(d) && Fits(d, room)
  {
  }

  lemma GrewOn(now: Key -> Option<Text>, c: Cache, d: Cache, e: Cache, room: set<Key>)
    requires Grew(now, c, d, room) && Grew(now, d, e, room)
    ensures Grew(now, c, e, room)
  {
    hide Fits, Sound;
  }

  lemma GrewNowhere(now: Key -> Option<Text>, c: Cache, room: set<Key>)
    requires Sound(now, c) && Fits(c, room)
    ensures Grew(now, c, c, room)
  {
  }

  lemma GrewFits(now: Key -> Option<Text>, c: Cache, d: Cache, room: set<Key>)
    requires Grew(now, c, d, room)
    ensures Sound(now, d) && Fits(d, room)
  {
  }

  /** What a first decoding in a batch leaves. */
  function Decoded(c: Cache, key: Key, decoded: Option<Text>): Cache {
    var d := c.(batch := c.batch[key := decoded], asked := c.asked + 1);
    if decoded.Some? then Remembered(d, key, decoded.value) else d
  }

  lemma AnswerKept(now: Key -> Option<Text>, c: Cache, key: Key, room: set<Key>)
    requires Sound(now, c) && Fits(c, room)
    ensures Grew(now, c, c.(batch := c.batch[key := now(key)], asked := c.asked + 1), room)
  {
    hide Fits, Consistent;
    SameQueue(c, c.(batch := c.batch[key := now(key)], asked := c.asked + 1), room);
  }

  lemma RememberedGrows(now: Key -> Option<Text>, c: Cache, key: Key, path: Text, room: set<Key>)
    requires Sound(now, c) && Fits(c, room) && key in room && now(key).Some?
    ensures Grew(now, c, Remembered(c, key, path), room)
  {
    hide Fits, Consistent, Remembered;
    FittingStays(c, key, path, room);
  }

  lemma DecodedGrows(now: Key -> Option<Text>, c: Cache, key: Key, room: set<Key>)
    requires Sound(now, c) && Fits(c, room) && key in room
    ensures Grew(now, c, Decoded(c, key, now(key)), room)
  {
    hide Fits, Remembered, Grew, Sound;
    var d := c.(batch := c.batch[key := now(key)], asked := c.asked + 1);
    AnswerKept(now, c, key, room);
    GrewFits(now, c, d, room);
    if now(key).Some? {
      RememberedGrows(now, d, key, now(key).value, room);
      GrewOn(now, c, d, Remembered(d, key, now(key).value), room);
    }
  }

  lemma DirectoryGrows(now: Key -> Option<Text>, c: Cache, key: Key, room: set<Key>)
    requires Sound(now, c) && AbsoluteNow(now) && Fits(c, room) && key in room
    ensures var (d, dir) := Directory(Frozen(now), c, key);
            Grew(now, c, d, room) && dir == if now(key).Some? then now(key) else Get(c, key)
  {
    assert key in c.batch ==> c.batch[key] == now(key);
    hide Fits, Remembered, Grew, AbsoluteNow, Sound;
    if key in c.batch { GrewNowhere(now, c, room); } else { DecodedGrows(now, c, key, room); }
  }

  lemma ResolvedGrows(now: Key -> Option<Text>, c: Cache, record: Text, room: set<Key>)
    requires Sound(now, c) && AbsoluteNow(now) && Fits(c, room) && Covers(room, record)
    ensures Grew(now, c, Resolved(Frozen(now), c, record).0, room)
  {
    if Target(record).Some? { DirectoryGrows(now, c, Target(record).value.0, room); }
  }

  /** The cache has the true path of every removed directory told from `from` on. */
  ghost predicate KnowsFrom(now: Key -> Option<Text>, c: Cache, all: seq<Text>, from: nat) {
    forall j :: from <= j < |all| && TellsDirectory(all[j]) && TruePath(now, all, j).Some? ==>
      Get(c, Own(all[j]).value) == TruePath(now, all, j)
  }

  /** So the records before that resolve to their true path. */
  lemma ResolvesTruly(now: Key -> Option<Text>, c: Cache, all: seq<Text>, i: nat, room: set<Key>)
    requires Sound(now, c) && AbsoluteNow(now) && i < |all| && Fits(c, room) && Covers(room, all[i])
    requires TruePath(now, all, i).Some? && KnowsFrom(now, c, all, i + 1)
    ensures Resolved(Frozen(now), c, all[i]).1 == TruePath(now, all, i)
  {
    hide Directory;
    DirectoryGrows(now, c, Target(all[i]).value.0, room);
  }

  lemma LearnedOneGrows(now: Key -> Option<Text>, c: Cache, all: seq<Text>, i: nat, room: set<Key>)
    requires Sound(now, c) && AbsoluteNow(now) && i < |all| && Fits(c, room) && Named(all) <= room
    requires RemovedForGood(now, all) && KnowsFrom(now, c, all, i + 1)
    ensures var d := LearnedOne(Frozen(now), c, all[i]);
            Sound(now, d) && Fits(d, room) && KnowsFrom(now, d, all, i)
  {
    hide Resolved, TruePath, IsDelete, IsDir, Own, Named, Fits;
    NamedAreCovered(all, room, i);
    var d := LearnedOne(Frozen(now), c, all[i]);
    if TellsDirectory(all[i]) {
      var (e, path) := Resolved(Frozen(now), c, all[i]);
      ResolvedGrows(now, c, all[i], room);
      if TruePath(now, all, i).Some? {
        ResolvesTruly(now, c, all, i, room);
        TruePathIsAbsolute(now, all, i);
      }
      if path.Some? && IsAbsolute(path.value) { FittingStays(e, Own(all[i]).value, path.value, room); }
      KnowsOneMore(now, c, e, d, all, i, room);
    }
  }

  /** What was known stays known when one more directory, and no other, is learned. */
  lemma KnowsOneMore(now: Key -> Option<Text>, c: Cache, e: Cache, d: Cache, all: seq<Text>, i: nat,
                     room: set<Key>)
    requires i < |all| && RemovedForGood(now, all) && KnowsFrom(now, c, all, i + 1) && TellsDirectory(all[i])
    requires Named(all) <= room
    requires forall k :: k in c.paths && k in room && now(k).None? ==> k in e.paths && e.paths[k] == c.paths[k]
    requires forall k :: k in e.paths && k in room && k != Own(all[i]).value ==>
               k in d.paths && d.paths[k] == e.paths[k]
    requires TruePath(now, all, i).Some? ==> Get(d, Own(all[i]).value) == TruePath(now, all, i)
    ensures KnowsFrom(now, d, all, i)
  {
    hide TruePath, IsDelete, IsDir, Own, Named;
    forall j | i <= j < |all| && TellsDirectory(all[j]) && TruePath(now, all, j).Some?
      ensures Get(d, Own(all[j]).value) == TruePath(now, all, j)
    {
      if j > i {
        NamedAreCovered(all, room, j);
        assert Get(c, Own(all[j]).value) == TruePath(now, all, j);
        assert now(Own(all[j]).value) == None && Own(all[i]) != Own(all[j]);
      }
    }
  }

  lemma {:induction false} FrozenLearningFindsAll(now: Key -> Option<Text>, c: Cache, all: seq<Text>, n: nat,
                                                  room: set<Key>)
    requires Sound(now, c) && AbsoluteNow(now) && RemovedForGood(now, all)
    requires n <= |all| && Fits(c, room) && Named(all) <= room && KnowsFrom(now, c, all, n)
    ensures var d := Learned(Frozen(now), c, all[..n]);
            Sound(now, d) && Fits(d, room) && KnowsFrom(now, d, all, 0)
    decreases n
  {
    hide LearnedOne, TruePath, RemovedForGood, KnowsFrom, Named, Fits, Covers;
    if n > 0 {
      assert all[..n][..n - 1] == all[..n - 1];
      LearnedOneGrows(now, c, all, n - 1, room);
      FrozenLearningFindsAll(now, LearnedOne(Frozen(now), c, all[n - 1]), all, n - 1, room);
    }
  }

  /** Learning newest first finds every directory whose path can be told, by what the kernel
    * answered meanwhile: outer ones are removed last. */
  lemma LearningFindsAll(decode: Decoder, now: Key -> Option<Text>, c: Cache, all: seq<Text>, n: nat, room: set<Key>)
    requires Consistent(c) && AbsoluteNow(now) && RemovedForGood(now, all)
    requires n <= |all| && Fits(c, room) && Named(all) <= room && KnowsFrom(now, c, all, n)
    requires Answered(now, Learned(decode, c, all[..n]))
    ensures var d := Learned(decode, c, all[..n]);
            Sound(now, d) && Fits(d, room) && KnowsFrom(now, d, all, 0)
  {
    hide Learned, TruePath, AbsoluteNow, RemovedForGood, KnowsFrom, Named, Fits, Consistent, Answered, Asks;
    LearnedAsks(decode, now, c, all[..n]);
    AnsweredBefore(decode, now, c, Learned(decode, c, all[..n]));
    FrozenLearningFindsAll(now, c, all, n, room);
  }

  lemma StillKnows(now: Key -> Option<Text>, c: Cache, d: Cache, room: set<Key>, all: seq<Text>, i: nat)
    requires KnowsFrom(now, c, all, 0) && Grew(now, c, d, room) && RemovedForGood(now, all)
    requires Named(all) <= room
    ensures KnowsFrom(now, d, all, 0) && KnowsFrom(now, d, all, i)
  {
    hide TruePath, IsDelete, IsDir, Own, Named, Fits;
    forall j | 0 <= j < |all| ensures TellsDirectory(all[j]) ==> Own(all[j]).value in room {
      NamedAreCovered(all, room, j);
    }
  }

  lemma ReleaseOneResolves(now: Key -> Option<Text>, d: Cache, h: Held, all: seq<Text>, i: nat, room: set<Key>)
    requires Sound(now, d) && AbsoluteNow(now) && Fits(d, room) && i < |all| && Covers(room, all[i])
    requires h.record == all[i] && KnowsFrom(now, d, all, i + 1)
    ensures var (e, line) := Released(Frozen(now), d, h);
            && Grew(now, d, e, room)
            && (h.resolved.None? && TruePath(now, all, i).Some? ==>
                  line.Deleted? && line.path == TruePath(now, all, i))
  {
    hide TruePath, Resolved, KnowsFrom, Covers, Grew, Fits, Sound, AbsoluteNow;
    if h.resolved.Some? {
      GrewNowhere(now, d, room);
    } else {
      ResolvedGrows(now, d, h.record, room);
      if TruePath(now, all, i).Some? { ResolvesTruly(now, d, all, i, room); }
    }
  }

  /** These lines have the true paths of what was held without one. */
  predicate AreTold(now: Key -> Option<Text>, all: seq<Text>, held: seq<Held>, lines: seq<Line>)
    requires |held| <= |all|
  {
    && |lines| == |held|
    && forall i :: 0 <= i < |held| && held[i].resolved.None? && TruePath(now, all, i).Some? ==>
         lines[i].Deleted? && lines[i].path == TruePath(now, all, i)
  }

  lemma ToldSnoc(now: Key -> Option<Text>, all: seq<Text>, held: seq<Held>, lines: seq<Line>, h: Held, line: Line)
    requires |held| < |all| && AreTold(now, all, held, lines)
    requires h.resolved.None? && TruePath(now, all, |held|).Some? ==>
               line.Deleted? && line.path == TruePath(now, all, |held|)
    ensures AreTold(now, all, held + [h], lines + [line])
  {
    hide TruePath;
  }

  /** One held record more. */
  lemma ReleaseMoreResolves(now: Key -> Option<Text>, c: Cache, d: Cache, held: seq<Held>, lines: seq<Line>, h: Held,
                            all: seq<Text>, room: set<Key>)
    requires AbsoluteNow(now) && RemovedForGood(now, all) && Named(all) <= room && KnowsFrom(now, c, all, 0)
    requires |held| < |all| && h.record == all[|held|] && Grew(now, c, d, room) && AreTold(now, all, held, lines)
    ensures var (e, line) := Released(Frozen(now), d, h);
            Grew(now, c, e, room) && AreTold(now, all, held + [h], lines + [line])
  {
    hide TruePath, Released, KnowsFrom, RemovedForGood, Named, Covers, Grew, Fits, Sound, AbsoluteNow, AreTold;
    var n := |held|;
    NamedAreCovered(all, room, n);
    GrewFits(now, c, d, room);
    StillKnows(now, c, d, room, all, n + 1);
    ReleaseOneResolves(now, d, h, all, n, room);
    GrewOn(now, c, d, Released(Frozen(now), d, h).0, room);
    ToldSnoc(now, all, held, lines, h, Released(Frozen(now), d, h).1);
  }

  /** Releasing what was held gives true paths. */
  lemma {:induction false} ReleaseResolves(now: Key -> Option<Text>, c: Cache, held: seq<Held>, all: seq<Text>,
                                           room: set<Key>)
    requires Sound(now, c) && AbsoluteNow(now) && RemovedForGood(now, all) && Fits(c, room) && Named(all) <= room
    requires KnowsFrom(now, c, all, 0)
    requires |held| <= |all| && forall i :: 0 <= i < |held| ==> held[i].record == all[i]
    ensures var (d, lines) := ReleasedAll(Frozen(now), c, held);
            Grew(now, c, d, room) && AreTold(now, all, held, lines)
    decreases |held|
  {
    hide TruePath, Released, KnowsFrom, RemovedForGood, Named, Covers, Grew, Fits, Sound, AbsoluteNow, AreTold;
    if held == [] {
      GrewNowhere(now, c, room);
      NoneTold(now, all);
    } else {
      var n := |held| - 1;
      ReleaseResolves(now, c, held[..n], all, room);
      var (d, lines) := ReleasedAll(Frozen(now), c, held[..n]);
      ReleaseMoreResolves(now, c, d, held[..n], lines, held[n], all, room);
      assert held == held[..n] + [held[n]];
    }
  }

  lemma NoneTold(now: Key -> Option<Text>, all: seq<Text>)
    ensures AreTold(now, all, [], [])
  {
  }

  /** The paths of the logged deletions, in order. */
  function PathsOf(log: seq<Line>): seq<Option<Text>> {
    if log == [] then []
    else
      PathsOf(log[..|log| - 1]) + match log[|log| - 1] case Overflow => [] case Deleted(_, path, _) => [path]
  }

  lemma PathsSnoc(log: seq<Line>, line: Line)
    ensures PathsOf(log + [line]) == PathsOf(log) + match line case Overflow => [] case Deleted(_, path, _) => [path]
  {
    assert (log + [line])[..|log|] == log;
  }

  /** The true paths of the deletions among the records from `from` up to `end`, in order. */
  function TruePaths(now: Key -> Option<Text>, all: seq<Text>, from: nat, end: nat): seq<Option<Text>>
    requires from <= end <= |all|
    decreases end
  {
    if from == end then []
    else TruePaths(now, all, from, end - 1) + if IsDelete(all[end - 1]) then [TruePath(now, all, end - 1)] else []
  }

  lemma TruePathsStep(now: Key -> Option<Text>, all: seq<Text>, from: nat, end: nat)
    requires from <= end <= |all|
    ensures from == end ==> TruePaths(now, all, from, end) == []
    ensures from < end ==>
              TruePaths(now, all, from, end) ==
              TruePaths(now, all, from, end - 1) + if IsDelete(all[end - 1]) then [TruePath(now, all, end - 1)] else []
  {
  }

  lemma ScanOneResolves(now: Key -> Option<Text>, nameOf: nat -> string, t: Scan,
                        all: seq<Text>, i: nat, room: set<Key>)
    requires Sound(now, t.cache) && AbsoluteNow(now) && i < |all| && Fits(t.cache, room) && Covers(room, all[i])
    requires KnowsFrom(now, t.cache, all, i + 1) && !t.holding
    requires IsDelete(all[i]) ==> TruePath(now, all, i).Some?
    ensures var u := Scanned(Frozen(now), nameOf, t, all[i]);
            && Grew(now, t.cache, u.cache, room) && !u.holding && u.held == t.held
            && PathsOf(u.log) == PathsOf(t.log) + if IsDelete(all[i]) then [TruePath(now, all, i)] else []
  {
    hide TruePath, Resolved, KnowsFrom, PathsOf, Covers;
    ResolvedGrows(now, t.cache, all[i], room);
    var log := if IsOverflow(all[i]) then t.log + [Overflow] else t.log;
    PathsSnoc(t.log, Overflow);
    assert PathsOf(t.log) + [] == PathsOf(t.log);
    if IsDelete(all[i]) {
      ResolvesTruly(now, t.cache, all, i, room);
      TruePathIsAbsolute(now, all, i);
      var u := Scanned(Frozen(now), nameOf, t, all[i]);
      PathsSnoc(log, u.log[|u.log| - 1]);
    }
  }

  /** These records can tell the path of each of their deletions. */
  predicate AllTold(now: Key -> Option<Text>, all: seq<Text>, from: nat, end: nat)
    requires end <= |all|
  {
    forall i :: from <= i < end && IsDelete(all[i]) ==> TruePath(now, all, i).Some?
  }

  lemma AllToldLess(now: Key -> Option<Text>, all: seq<Text>, from: nat, end: nat)
    requires from < end <= |all| && AllTold(now, all, from, end)
    ensures AllTold(now, all, from, end - 1) && (IsDelete(all[end - 1]) ==> TruePath(now, all, end - 1).Some?)
  {
  }

  /** One record more. */
  lemma ScanMoreResolves(now: Key -> Option<Text>, nameOf: nat -> string, s: Scan, t: Scan, all: seq<Text>,
                         from: nat, end: nat, room: set<Key>)
    requires AbsoluteNow(now) && RemovedForGood(now, all) && Named(all) <= room && from <= end < |all|
    requires KnowsFrom(now, s.cache, all, 0) && AllTold(now, all, from, end + 1)
    requires Grew(now, s.cache, t.cache, room) && t.held == [] && !t.holding
    requires PathsOf(t.log) == PathsOf(s.log) + TruePaths(now, all, from, end)
    ensures var u := Scanned(Frozen(now), nameOf, t, all[end]);
            && Grew(now, s.cache, u.cache, room) && u.held == [] && !u.holding
            && PathsOf(u.log) == PathsOf(s.log) + TruePaths(now, all, from, end + 1)
  {
    hide AllTold, TruePath, KnowsFrom, Scanned, PathsOf, RemovedForGood, Named, Covers, Grew, Fits, Sound, AbsoluteNow;
    hide IsDelete, TruePaths, Target, Own, TellsDirectory, Consistent;
    TruePathsStep(now, all, from, end + 1);
    AllToldLess(now, all, from, end + 1);
    NamedAreCovered(all, room, end);
    StillKnows(now, s.cache, t.cache, room, all, end + 1);
    GrewFits(now, s.cache, t.cache, room);
    ScanOneResolves(now, nameOf, t, all, end, room);
    GrewOn(now, s.cache, t.cache, Scanned(Frozen(now), nameOf, t, all[end]).cache, room);
  }

  lemma {:induction false} ScanResolves(now: Key -> Option<Text>, nameOf: nat -> string, s: Scan,
                                        records: seq<Text>, all: seq<Text>, from: nat, room: set<Key>)
    requires Sound(now, s.cache) && AbsoluteNow(now) && RemovedForGood(now, all)
    requires Fits(s.cache, room) && Named(all) <= room
    requires from + |records| <= |all| && records == all[from..from + |records|]
    requires KnowsFrom(now, s.cache, all, 0) && !s.holding && s.held == []
    requires AllTold(now, all, from, from + |records|)
    ensures var t := ScannedAll(Frozen(now), nameOf, s, records);
            && Grew(now, s.cache, t.cache, room) && t.held == [] && !t.holding
            && PathsOf(t.log) == PathsOf(s.log) + TruePaths(now, all, from, from + |records|)
    decreases |records|
  {
    hide AllTold, TruePath, KnowsFrom, Scanned, PathsOf, RemovedForGood, Named, Covers, Grew, Fits, Sound, AbsoluteNow;
    hide IsDelete, TruePaths, Target, Own, TellsDirectory, Consistent;
    if records == [] {
      TruePathsStep(now, all, from, from);
      GrewNowhere(now, s.cache, room);
      assert PathsOf(s.log) + [] == PathsOf(s.log);
    } else {
      var n := |records| - 1;
      assert records[..n] == all[from..from + n] && records[n] == all[from + n];
      AllToldLess(now, all, from, from + n + 1);
      ScanResolves(now, nameOf, s, records[..n], all, from, room);
      ScanMoreResolves(now, nameOf, s, ScannedAll(Frozen(now), nameOf, s, records[..n]), all, from, from + n, room);
    }
  }

  /** Once the removed directories are known, what was held and what is scanned gets its path. */
  lemma KnownTreesResolve(now: Key -> Option<Text>, nameOf: nat -> string, s: State, c: Cache,
                          records: seq<Text>, all: seq<Text>, room: set<Key>)
    requires Sound(now, c) && AbsoluteNow(now) && RemovedForGood(now, all)
    requires Fits(c, room) && Named(all) <= room && KnowsFrom(now, c, all, 0)
    requires all == HeldRecords(s.held) + records && AllTold(now, all, |s.held|, |all|)
    ensures var (d, lines) := ReleasedAll(Frozen(now), c, s.held);
            var t := ScannedAll(Frozen(now), nameOf, Scan(d, false, None, [], s.log + lines), records);
            && t.held == [] && |lines| == |s.held| && s.log + lines <= t.log
            && PathsOf(t.log) == PathsOf(s.log + lines) + TruePaths(now, all, |s.held|, |all|)
            && forall i :: 0 <= i < |s.held| && s.held[i].resolved.None? && TruePath(now, all, i).Some? ==>
                 lines[i].Deleted? && lines[i].path == TruePath(now, all, i)
  {
    hide TruePath, ReleasedAll, ScannedAll, PathsOf, TruePaths, RemovedForGood, Named, AllTold;
    hide Sound, Fits, KnowsFrom, AbsoluteNow, Grew, IsDelete, Target, Own, TellsDirectory;
    assert records == all[|s.held|..|s.held| + |records|];
    ReleaseResolves(now, c, s.held, all, room);
    var (d, lines) := ReleasedAll(Frozen(now), c, s.held);
    GrewFits(now, c, d, room);
    StillKnows(now, c, d, room, all, 0);
    var scan := Scan(d, false, None, [], s.log + lines);
    ScanResolves(now, nameOf, scan, records, all, |s.held|, room);
    ScanExtendsLog(Frozen(now), nameOf, scan, records);
  }

  lemma FrozenTreesResolve(now: Key -> Option<Text>, nameOf: nat -> string, s: State, records: seq<Text>)
    requires Consistent(s.cache) && AbsoluteNow(now)
    requires Fits(s.cache, Named(HeldRecords(s.held) + records))
    requires var all := HeldRecords(s.held) + records;
             RemovedForGood(now, all) && AllTold(now, all, |s.held|, |all|)
    ensures var all, t := HeldRecords(s.held) + records, AfterBatch(Frozen(now), nameOf, s, records);
            && t.held == [] && |t.log| >= |s.log| + |s.held|
            && PathsOf(t.log) == PathsOf(t.log[..|s.log| + |s.held|]) + TruePaths(now, all, |s.held|, |all|)
            && forall i :: 0 <= i < |s.held| && s.held[i].resolved.None? && TruePath(now, all, i).Some? ==>
                 t.log[|s.log| + i].Deleted? && t.log[|s.log| + i].path == TruePath(now, all, i)
  {
    hide TruePath, Learned, ReleasedAll, ScannedAll, PathsOf, TruePaths, RemovedForGood, Named, AllTold;
    hide Sound, Fits, KnowsFrom, Consistent, AbsoluteNow, IsDelete, Target, Own, TellsDirectory;
    var all := HeldRecords(s.held) + records;
    var c0 := s.cache.(batch := map[]);
    BatchStarts(now, s.cache, all, Named(all));
    assert all[..|all|] == all;
    FrozenLearningFindsAll(now, c0, all, |all|, Named(all));
    var c := Learned(Frozen(now), c0, all);
    KnownTreesResolve(now, nameOf, s, c, records, all, Named(all));
    var (d, lines) := ReleasedAll(Frozen(now), c, s.held);
    LogKeepsReleased(s.log, lines, AfterBatch(Frozen(now), nameOf, s, records).log);
  }

  /** A batch starts with nothing decoded and nothing to know. */
  lemma BatchStarts(now: Key -> Option<Text>, c: Cache, all: seq<Text>, room: set<Key>)
    requires Consistent(c) && Fits(c, room)
    ensures var d := c.(batch := map[]);
            Sound(now, d) && Fits(d, room) && KnowsFrom(now, d, all, |all|)
  {
    SameQueue(c, c.(batch := map[]), room);
  }

  lemma LogKeepsReleased(log: seq<Line>, lines: seq<Line>, longer: seq<Line>)
    requires log + lines <= longer
    ensures longer[..|log| + |lines|] == log + lines
    ensures forall i :: 0 <= i < |lines| ==> longer[|log| + i] == lines[i]
  {
    forall i | 0 <= i < |lines| ensures longer[|log| + i] == lines[i] {
      assert longer[|log| + i] == (log + lines)[|log| + i];
    }
  }

  lemma {:induction false} ScanExtendsLog(decode: Decoder, nameOf: nat -> string, s: Scan, records: seq<Text>)
    ensures s.log <= ScannedAll(decode, nameOf, s, records).log
    decreases |records|
  {
    hide Resolved;
    if records != [] { ScanExtendsLog(decode, nameOf, s, records[..|records| - 1]); }
  }

  /** What the learning pass is for: when every deletion of a read has a path that the read itself
    * can tell, as in a removed tree whose top's parent still exists, nothing is held and every
    * deletion is logged in order with exactly that path; so is every one that was held before.
    * `now` only has to be what the kernel answered in this batch, whatever it answered before or
    * will later: a directory decoded in earlier reads may be removed in this one. The cache may be
    * full, as it is in a daemon that has run for long: it only has to let go of keys that the
    * records do not name. */
  lemma RemovedTreesResolve(decode: Decoder, now: Key -> Option<Text>, nameOf: nat -> string, s: State,
                            records: seq<Text>)
    requires Consistent(s.cache) && AbsoluteNow(now)
    requires Answered(now, AfterBatch(decode, nameOf, s, records).cache)
    requires Fits(s.cache, Named(HeldRecords(s.held) + records))
    requires var all := HeldRecords(s.held) + records;
             RemovedForGood(now, all) && AllTold(now, all, |s.held|, |all|)
    ensures var all, t := HeldRecords(s.held) + records, AfterBatch(decode, nameOf, s, records);
            && t.held == [] && |t.log| >= |s.log| + |s.held|
            && PathsOf(t.log) == PathsOf(t.log[..|s.log| + |s.held|]) + TruePaths(now, all, |s.held|, |all|)
            && forall i :: 0 <= i < |s.held| && s.held[i].resolved.None? && TruePath(now, all, i).Some? ==>
                 t.log[|s.log| + i].Deleted? && t.log[|s.log| + i].path == TruePath(now, all, i)
  {
    hide TruePath, AfterBatch, PathsOf, TruePaths, RemovedForGood, Named, AllTold;
    hide Fits, Consistent, AbsoluteNow, Answered, Asks;
    BatchAsks(decode, now, nameOf, s, records);
    FrozenTreesResolve(now, nameOf, s, records);
  }
}
