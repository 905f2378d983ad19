/** Names tried for a new trash entry (crates/trashd-common/src/trash_id.rs and
  * `unique_id_atomic` in crates/trashd-preload/src/lib.rs): the basename, the
  * basename with a timestamp, then timestamp, process and sequence number.
  */
module TrashNames {
  import opened Bytes

  const SEQUENCE_END := 0x1_0000_0000_0000_0000
  const NAME_LIMIT := 255
  const SIDECAR_SUFFIX := 10    // ".trashinfo"
  const MAX_BASE := 223

  // ---------------------------------------------------------------- pieces of a name

  /** The greatest character boundary not above `limit`. */
  function FloorBoundary(s: Text, limit: nat): (i: nat)
    ensures i <= limit && i <= |s| && IsBoundary(s, i)
    ensures forall j :: i < j <= limit && j <= |s| ==> !IsBoundary(s, j)
    decreases limit
  {
    if limit >= |s| then |s|
    else if IsBoundary(s, limit) then limit
    else FloorBoundary(s, limit - 1)
  }

  function Shorten(s: Text, limit: nat): Text {
    s[..FloorBoundary(s, limit)]
  }

  function Hex(n: nat): (s: Text)
    ensures s != [] && DOT !in s
    ensures forall i :: 0 <= i < |s| ==> s[i] < 0x80
  {
    if n < 16 then [HexLower(n)] else Hex(n / 16) + [HexLower(n % 16)]
  }

  function DigitValue(c: int): int {
    if c < 58 then c - 48 else c - 87
  }

  function HexValue(s: Text): int {
    if s == [] then 0 else 16 * HexValue(s[..|s| - 1]) + DigitValue(s[|s| - 1])
  }

  lemma {:induction false} HexRoundTrip(n: nat)
    ensures HexValue(Hex(n)) == n
  {
    if n >= 16 {
      HexRoundTrip(n / 16);
      assert Hex(n)[..|Hex(n)| - 1] == Hex(n / 16);
    } else {
      assert [HexLower(n)][..0] == [];
    }
  }

  function Power16(k: nat): nat {
    if k == 0 then 1 else 16 * Power16(k - 1)
  }

  lemma {:induction false} HexLength(n: nat, k: nat)
    requires k >= 1 && n < Power16(k)
    ensures |Hex(n)| <= k
    decreases k
  {
    if n >= 16 {
      assert Power16(1) == 16;
      HexLength(n / 16, k - 1);
    }
  }

  // ---------------------------------------------------------------- candidates

  function TimestampSuffix(ts: Text): Text {
    [DOT] + ts
  }

  function SequenceSuffix(ts: Text, pid: u32, sequence: u64): Text {
    [DOT] + ts + [DOT] + Hex(pid) + [DOT] + Hex(sequence)
  }

  /** How much of the basename is kept before a suffix. */
  function KeptLimit(suffix: Text): nat {
    var room := if NAME_LIMIT >= SIDECAR_SUFFIX + |suffix| then NAME_LIMIT - SIDECAR_SUFFIX - |suffix| else 0;
    if room < MAX_BASE then room else MAX_BASE
  }

  function Candidate(basename: Text, suffix: Text): Text {
    Shorten(basename, KeptLimit(suffix)) + suffix
  }

  /** A candidate and its sidecar name fit the filesystem limit, and the truncation keeps valid
    * UTF-8: whenever the suffix itself leaves room, so for every timestamp of 14 digits. */
  lemma CandidateFits(basename: Text, suffix: Text)
    ensures |Candidate(basename, suffix)| + SIDECAR_SUFFIX <= NAME_LIMIT <==> |suffix| <= NAME_LIMIT - SIDECAR_SUFFIX
    ensures IsUtf8(basename) && IsUtf8(suffix) ==> IsUtf8(Candidate(basename, suffix))
  {
    if IsUtf8(basename) && IsUtf8(suffix) {
      PrefixAtBoundary(basename, FloorBoundary(basename, KeptLimit(suffix)));
      Utf8Concat(Shorten(basename, KeptLimit(suffix)), suffix);
    }
  }

  lemma {:induction false} AsciiIsUtf8(s: Text)
    requires forall i :: 0 <= i < |s| ==> s[i] < 0x80
    ensures IsUtf8(s)
  {
    if s != [] { AsciiIsUtf8(s[1..]); }
  }

  lemma {:induction false} Utf8Concat(a: Text, b: Text)
    requires IsUtf8(a) && IsUtf8(b)
    ensures IsUtf8(a + b)
    decreases |a|
  {
    if a == [] {
      assert a + b == b;
    } else {
      var n := CharLength(a);
      assert CharLength(a + b) == n;
      assert (a + b)[n..] == a[n..] + b;
      Utf8Concat(a[n..], b);
    }
  }

  /** The suffixes add no broken character. */
  lemma SuffixIsUtf8(ts: Text, pid: u32, sequence: u64)
    ensures IsUtf8(ts) ==> IsUtf8(TimestampSuffix(ts)) && IsUtf8(SequenceSuffix(ts, pid, sequence))
  {
    if IsUtf8(ts) {
      var tail := [DOT] + Hex(pid) + [DOT] + Hex(sequence);
      AsciiIsUtf8([DOT]);
      AsciiIsUtf8(tail);
      Utf8Concat([DOT], ts);
      Utf8Concat([DOT] + ts, tail);
      assert SequenceSuffix(ts, pid, sequence) == [DOT] + ts + tail;
    }
  }

  /** Every name ever tried fits beside its sidecar. */
  lemma EveryTriedNameFits(basename: Text, ts: Text, pid: u32, sequence: u64)
    requires |ts| == 14
    ensures |Shorten(basename, MAX_BASE)| + SIDECAR_SUFFIX <= NAME_LIMIT
    ensures |Candidate(basename, TimestampSuffix(ts))| + SIDECAR_SUFFIX <= NAME_LIMIT
    ensures |Candidate(basename, SequenceSuffix(ts, pid, sequence))| + SIDECAR_SUFFIX <= NAME_LIMIT
    ensures |Candidate(basename, SequenceSuffix(ts, pid, sequence))| + |".trashinfo"| <= 255
  {
    assert Power16(8) == 0x1_0000_0000 && Power16(16) == SEQUENCE_END by {
      assert Power16(4) == 0x1_0000;
      assert Power16(8) == 0x1_0000_0000;
      assert Power16(12) == 0x1_0000_0000_0000;
    }
    HexLength(pid, 8);
    HexLength(sequence, 16);
    CandidateFits(basename, TimestampSuffix(ts));
    CandidateFits(basename, SequenceSuffix(ts, pid, sequence));
  }

  /** What follows the last dot. */
  function LastField(s: Text): Text {
    if s == [] || s[|s| - 1] == DOT then [] else LastField(s[..|s| - 1]) + [s[|s| - 1]]
  }

  lemma {:induction false} LastFieldIs(a: Text, x: Text)
    requires DOT !in x
    ensures LastField(a + [DOT] + x) == x
    decreases |x|
  {
    var s := a + [DOT] + x;
    if x != [] {
      var y := x[..|x| - 1];
      assert s[..|s| - 1] == a + [DOT] + y && s[|s| - 1] == x[|x| - 1];
      LastFieldIs(a, y);
      assert x == y + [x[|x| - 1]];
    }
  }

  lemma SequenceIsLastField(basename: Text, ts: Text, pid: u32, n: u64)
    ensures LastField(Candidate(basename, SequenceSuffix(ts, pid, n))) == Hex(n)
  {
    var s := SequenceSuffix(ts, pid, n);
    var a := Shorten(basename, KeptLimit(s)) + ([DOT] + ts + [DOT] + Hex(pid));
    assert Candidate(basename, s) == a + [DOT] + Hex(n);
    LastFieldIs(a, Hex(n));
  }

  /** Different sequence numbers give different names, however the basename is shortened. */
  lemma CandidatesDiffer(basename: Text, ts: Text, pid: u32, m: u64, n: u64)
    requires m != n
    ensures Candidate(basename, SequenceSuffix(ts, pid, m)) != Candidate(basename, SequenceSuffix(ts, pid, n))
  {
    SequenceIsLastField(basename, ts, pid, m);
    SequenceIsLastField(basename, ts, pid, n);
    HexRoundTrip(m);
    HexRoundTrip(n);
  }

  // ---------------------------------------------------------------- the generator

  /** The process-wide counter; 0 means not yet seeded from the clock. */
  class Sequence {
    var next: u64
    const seed: u64

    /** The first number the counter can still give without passing its end. */
    function Start(): u64
      reads this
    {
      if next != 0 then next else if seed == 0 then 1 else seed
    }

    constructor (seed: u64)
      ensures this.seed == seed && next == 0
    {
      this.seed := seed;
      next := 0;
    }

    /** fetch_add: after the last number the counter is 0 again and seeded anew. */
    method Draw() returns (n: u64)
      modifies this
      ensures n == old(Start()) && n != 0
      ensures n < SEQUENCE_END - 1 ==> Start() == n + 1
    {
      if next == 0 {
        next := if seed == 0 then 1 else seed;
      }
      n := next;
      next := (next + 1) % SEQUENCE_END;
    }
  }

  class CollisionNames {
    const basename: Text
    const timestamp: Text
    const process: u32
    var first: bool
    var pid: u32

    constructor (basename: Text, timestamp: Text, process: u32)
      ensures this.basename == basename && this.timestamp == timestamp && this.process == process && first && pid == 0
    {
      this.basename := basename;
      this.timestamp := timestamp;
      this.process := process;
      first := true;
      pid := 0;
    }

    ghost predicate Valid()
      reads this
    {
      pid == 0 || pid == process
    }

    /** The timestamped name once, then one name per sequence number. */
    method Next(sequence: Sequence) returns (name: Text)
      requires Valid()
      modifies this, sequence
      ensures Valid() && !first
      ensures old(first) ==>
                name == Candidate(basename, TimestampSuffix(timestamp)) && sequence.Start() == old(sequence.Start())
      ensures !old(first) ==>
                && name == Candidate(basename, SequenceSuffix(timestamp, process, old(sequence.Start())))
                && (old(sequence.Start()) < SEQUENCE_END - 1 ==> sequence.Start() == old(sequence.Start()) + 1)
    {
      var suffix: Text;
      if first {
        first := false;
        suffix := [DOT] + timestamp;
      } else {
        if pid == 0 {
          pid := process;
        }
        var n := sequence.Draw();
        suffix := [DOT] + timestamp + [DOT] + Hex(pid) + [DOT] + Hex(n);
      }
      var limit := if NAME_LIMIT >= SIDECAR_SUFFIX + |suffix| then NAME_LIMIT - SIDECAR_SUFFIX - |suffix| else 0;
      if limit > MAX_BASE {
        limit := MAX_BASE;
      }
      name := basename[..FloorBoundary(basename, limit)] + suffix;
    }
  }
}
