/** In-place compression (crates/trashd-cli/src/commands/compress.rs, `compress_before_publish`):
  * the marker is recorded first, the data is swapped after it, and whatever a crash leaves in
  * between is told apart by the data's first bytes.
  *
  * Other programs may write to the stored file at any moment through a descriptor they hold;
  * every system call may fail.  The environment is a function of time, one turn a call, so the
  * contracts say in terms of the turns alone what an attempt does.  The `trail` is what the disk
  * held after each change: a crash leaves one of its snapshots. */
module Compress {
  import opened Wrappers
  import opened Bytes

  // ---------------------------------------------------------------- codec and restore rule

  datatype Codec = Codec(encode: Text -> Text, decode: Text -> Option<Text>)

  /** The zstd magic, little end first. */
  const MAGIC: Text := [0x28, 0xB5, 0x2F, 0xFD]

  predicate HasMagic(data: Text) {
    MAGIC <= data
  }

  ghost predicate IsFaithful(codec: Codec) {
    forall x: Text :: codec.decode(codec.encode(x)) == Some(x) && HasMagic(codec.encode(x))
  }

  /** What the disk holds, and what its reader should get. */
  datatype Snapshot = Snapshot(marker: bool, data: Text, truth: Text)

  /** The restore rule: decode what is marked and looks compressed. */
  function Restored(codec: Codec, s: Snapshot): Option<Text> {
    if s.marker && HasMagic(s.data) then codec.decode(s.data) else Some(s.data)
  }

  predicate IsRecoverable(codec: Codec, s: Snapshot) {
    Restored(codec, s) == Some(s.truth)
  }

  predicate IsPlain(s: Snapshot) {
    s.data == s.truth
  }

  /** Plain data that the restore rule would take for compressed, and change. */
  predicate IsMistakable(codec: Codec, data: Text) {
    HasMagic(data) && codec.decode(data) != Some(data)
  }

  lemma PlainIsRecoverable(codec: Codec, s: Snapshot)
    requires IsPlain(s)
    ensures IsRecoverable(codec, s) <==> !(s.marker && IsMistakable(codec, s.data))
  {
  }

  lemma SwappedIsRecoverable(codec: Codec, original: Text, truth: Text)
    requires IsFaithful(codec)
    ensures IsRecoverable(codec, Snapshot(true, codec.encode(original), truth)) <==> truth == original
  {
  }

  // ---------------------------------------------------------------- the environment

  /** One turn of everybody else: a write to the stored file, a failure of the call we make, what a
    * read that is overtaken by a write returns, and whether the entry was replaced. */
  datatype Turn = Turn(write: Option<Text>, fails: bool, torn: Text, replaced: bool)

  type Env = nat -> Turn

  datatype Outcome = Swapped(size: nat) | Refused | Failed

  /** The file's content after the turns from `from` up to, not including, `end`. */
  function After(env: Env, data: Text, from: nat, end: nat): Text
    decreases end
  {
    if end <= from then data
    else if env(end - 1).write.Some? then env(end - 1).write.value
    else After(env, data, from, end - 1)
  }

  /** Nobody writes in these turns. */
  ghost predicate Still(env: Env, from: nat, end: nat) {
    forall k: nat :: from <= k < end ==> env(k).write.None?
  }

  /** All calls in these turns succeed. */
  ghost predicate Succeeds(env: Env, from: nat, end: nat) {
    forall k: nat :: from <= k < end ==> !env(k).fails
  }

  lemma {:induction false} StillKeeps(env: Env, data: Text, from: nat, mid: nat, end: nat)
    requires from <= mid <= end && Still(env, mid, end)
    ensures After(env, data, from, end) == After(env, data, from, mid)
    decreases end
  {
    if mid < end { StillKeeps(env, data, from, mid, end - 1); }
  }

  lemma NothingAfter(env: Env, data: Text, from: nat)
    ensures After(env, data, from, from) == data
  {
  }

  /** Once somebody has written, what was there before does not matter. */
  lemma {:induction false} LastWriteRules(env: Env, data: Text, other: Text, from: nat, end: nat)
    requires !Still(env, from, end)
    ensures After(env, data, from, end) == After(env, other, from, end)
    decreases end
  {
    if env(end - 1).write.None? { LastWriteRules(env, data, other, from, end - 1); }
  }

  predicate WritesMistakable(codec: Codec, env: Env, k: nat) {
    env(k).write.Some? && IsMistakable(codec, env(k).write.value)
  }

  ghost predicate WritesMistakables(codec: Codec, env: Env, from: nat, end: nat) {
    exists k: nat :: from <= k < end && WritesMistakable(codec, env, k)
  }

  lemma MistakablesStep(codec: Codec, env: Env, from: nat, k: nat)
    requires from <= k
    ensures WritesMistakables(codec, env, from, k + 1) <==>
            WritesMistakables(codec, env, from, k) || WritesMistakable(codec, env, k)
  {
    hide WritesMistakable;
  }

  /** While marked, from turn `m` on, the plain file could be mistaken for a compressed one. */
  ghost predicate IsExposed(codec: Codec, env: Env, atMark: Text, m: nat, end: nat) {
    IsMistakable(codec, atMark) || WritesMistakables(codec, env, m, end)
  }

  // The turns of an attempt, counted from its start.
  const FSTAT := 1
  const LSTAT := 3
  const HEADER := 4
  const VALIDATE := 11
  const RECHECK := 12
  const MARK := 14
  const LAST_CHECK := 15
  const RENAME := 16

  /** The content that is measured, and compressed if nobody writes after that. */
  function Measured(env: Env, data: Text, c: nat): Text {
    After(env, data, c, c + FSTAT + 1)
  }

  /** The content when the marker is set. */
  function AtMark(env: Env, data: Text, c: nat): Text {
    After(env, data, c, c + MARK + 1)
  }

  /** An attempt that starts at turn `c` sets the marker: every call but the header read succeeds,
    * the entry stays in place, nobody writes from the measuring to the recheck, and the content is
    * a file of the wanted size that does not look compressed, if that could be read, and shrinks. */
  ghost predicate SetsMarker(codec: Codec, env: Env, data: Text, c: nat, sizeBefore: nat, isFile: bool) {
    var measured := Measured(env, data, c);
    && Succeeds(env, c, c + HEADER) && Succeeds(env, c + HEADER + 1, c + MARK + 1)
    && isFile && |measured| == sizeBefore && Still(env, c + FSTAT + 1, c + RECHECK + 1)
    && !env(c + LSTAT).replaced && !env(c + VALIDATE).replaced
    && (env(c + HEADER).fails || !HasMagic(measured))
    && |codec.encode(measured)| < sizeBefore
  }

  /** And it swaps the data too: nobody writes up to the last check, which succeeds like the rename. */
  ghost predicate Swaps(codec: Codec, env: Env, data: Text, c: nat, sizeBefore: nat, isFile: bool) {
    && SetsMarker(codec, env, data, c, sizeBefore, isFile)
    && Still(env, c + RECHECK + 1, c + LAST_CHECK + 1)
    && !env(c + LAST_CHECK).fails && !env(c + RENAME).fails
  }

  /** An attempt that ended at turn `end` without the marker ended with a call that failed, or with an
    * entry that is found replaced under the root lock. */
  predicate CallFailed(env: Env, c: nat, end: nat) {
    end > 0 && (env(end - 1).fails || (end == c + VALIDATE + 1 && env(c + VALIDATE).replaced))
  }

  /** An attempt that sets the marker and ended at turn `end` finds the file written, and can take the
    * marker back. */
  ghost predicate FindsWrite(env: Env, c: nat, end: nat) {
    && end > 0 && !env(c + LAST_CHECK).fails && !Still(env, c + RECHECK + 1, c + LAST_CHECK + 1)
    && !env(end - 1).fails
  }

  /** What an attempt is called that does not swap: refused, if what it found stands in the way, or
    * failed, if a call did. */
  ghost function Verdict(codec: Codec, env: Env, data: Text, c: nat, sizeBefore: nat, isFile: bool, end: nat): Outcome {
    if SetsMarker(codec, env, data, c, sizeBefore, isFile) then (if FindsWrite(env, c, end) then Refused else Failed)
    else if CallFailed(env, c, end) then Failed
    else Refused
  }

  /** The last check before the swap passes. */
  ghost predicate LastCheckPasses(env: Env, c: nat) {
    Still(env, c + RECHECK + 1, c + LAST_CHECK + 1) && !env(c + LAST_CHECK).fails
  }

  /** When an attempt that sets the marker is over: with the rename, or with taking the marker back. */
  ghost function End(env: Env, c: nat): nat {
    if !LastCheckPasses(env, c) then c + LAST_CHECK + 2
    else if env(c + RENAME).fails then c + RENAME + 2
    else c + RENAME + 1
  }

  /** The attempt goes through a state that a crash would leave unrecovered: the marked file is
    * exposed, or what is swapped in is not what was written last. */
  ghost predicate Loses(codec: Codec, env: Env, data: Text, c: nat, sizeBefore: nat, isFile: bool) {
    && SetsMarker(codec, env, data, c, sizeBefore, isFile)
    && (|| IsExposed(codec, env, AtMark(env, data, c), c + LAST_CHECK, End(env, c))
        || (&& Swaps(codec, env, data, c, sizeBefore, isFile)
            && After(env, data, c, c + RENAME + 1) != Measured(env, data, c)))
  }

  // ---------------------------------------------------------------- the turns of the way back

  /** A marked entry when the way back begins. */
  datatype Entry = Entry(clock: nat, data: Text, truth: Text, trail: seq<Snapshot>)

  // The way back has FSTAT, LSTAT and HEADER too; then it unmarks plaintext, or stages the plaintext.
  const UNMARK_CHECK := 5
  const UNMARK := 6
  const CHECK_BACK := 8
  const RENAME_BACK := 9
  const CLEAR := 10

  /** The entry is opened at turn `c` and found unchanged, and its header is read. */
  ghost predicate Reopens(env: Env, c: nat, isFile: bool) {
    && Succeeds(env, c, c + HEADER + 1) && isFile && !env(c + FSTAT).replaced && !env(c + LSTAT).replaced
    && Still(env, c + FSTAT + 1, c + LSTAT + 1)
  }

  /** The plaintext is staged, and nobody has written since the entry was measured. */
  ghost predicate StagesBack(codec: Codec, env: Env, data: Text, c: nat, maxOutput: nat) {
    var plain := codec.decode(Measured(env, data, c));
    && Succeeds(env, c + HEADER + 1, c + CHECK_BACK + 1) && !env(c + CHECK_BACK).replaced
    && Still(env, c + FSTAT + 1, c + CHECK_BACK + 1) && plain.Some? && |plain.value| <= maxOutput
  }

  /** The plaintext comes in place of the compressed data. */
  ghost predicate PutsBack(codec: Codec, env: Env, data: Text, c: nat, isFile: bool, maxOutput: nat) {
    && Reopens(env, c, isFile) && HasMagic(Measured(env, data, c))
    && StagesBack(codec, env, data, c, maxOutput) && !env(c + RENAME_BACK).fails
  }

  /** The entry is plaintext already, and only the marker goes. */
  ghost predicate Unmarks(env: Env, data: Text, c: nat, isFile: bool) {
    && Reopens(env, c, isFile) && !HasMagic(Measured(env, data, c))
    && Succeeds(env, c + UNMARK_CHECK, c + UNMARK + 1) && !env(c + UNMARK_CHECK).replaced
    && Still(env, c + FSTAT + 1, c + UNMARK_CHECK + 1)
  }

  /** Writes reach the entry up to this turn: the rename leaves writers with the file it replaces. */
  ghost function WritersEnd(codec: Codec, env: Env, o: Entry, isFile: bool, maxOutput: nat, end: nat): nat {
    if PutsBack(codec, env, o.data, o.clock, isFile, maxOutput) then o.clock + RENAME_BACK + 1 else end
  }

  /** The plaintext that comes in place, as long as it is marked, would be misread, or once it is not
    * marked is not what was written last. */
  ghost predicate Misplaces(codec: Codec, env: Env, o: Entry) {
    var plain := codec.decode(Measured(env, o.data, o.clock));
    var truth := After(env, o.truth, o.clock, o.clock + RENAME_BACK + 1);
    && plain.Some?
    && (|| !IsRecoverable(codec, Snapshot(true, plain.value, truth))
        || (!env(o.clock + CLEAR).fails && plain.value != truth))
  }

  /** A way back that is over at turn `end` goes through a state that a crash would leave
    * unrecovered. */
  ghost predicate LosesBack(codec: Codec, env: Env, o: Entry, isFile: bool, maxOutput: nat, end: nat) {
    || WritesMistakables(codec, env, o.clock, WritersEnd(codec, env, o, isFile, maxOutput, end))
    || (PutsBack(codec, env, o.data, o.clock, isFile, maxOutput) && Misplaces(codec, env, o))
  }

  // ---------------------------------------------------------------- one attempt

  class StoredFile {
    const codec: Codec
    const env: Env
    var clock: nat
    var marker: bool
    var data: Text
    /** Bumped by every write, as the status-change time is. */
    var version: nat
    ghost var truth: Text
    ghost var trail: seq<Snapshot>
    /** When the attempt began, and with what content. */
    ghost var begun: nat
    ghost var origin: Text

    constructor (codec: Codec, env: Env, data: Text)
      ensures this.codec == codec && this.env == env && this.data == data && truth == data
      ensures !marker && trail == [Snapshot(false, data, data)] && clock == 0
    {
      this.codec, this.env, this.data, truth := codec, env, data, data;
      marker, version, clock, trail := false, 0, 0, [Snapshot(false, data, data)];
      begun, origin := 0, data;
    }

    ghost function Now(): Snapshot
      reads this
    {
      Snapshot(marker, data, truth)
    }

    ghost predicate EndsNow()
      reads this
    {
      trail != [] && trail[|trail| - 1] == Now()
    }

    /** Before the swap the file is plain, and holds what was written last. */
    ghost predicate Follows()
      reads this
    {
      && begun <= clock && data == truth == After(env, origin, begun, clock)
      && EndsNow() && forall s :: s in trail ==> IsPlain(s)
    }

    ghost predicate NeverMarked()
      reads this
    {
      Follows() && !marker && forall s :: s in trail ==> !s.marker
    }

    ghost predicate SomeLost()
      reads this
    {
      exists s :: s in trail && !IsRecoverable(codec, s)
    }

    /** The marker was set just before turn `m`: the trail holds a state that would be misread
      * exactly when the file was exposed since. */
    ghost predicate MarkedSince(m: nat)
      reads this
    {
      && Follows() && begun <= m <= clock
      && (SomeLost() <==> IsExposed(codec, env, After(env, origin, begun, m), m, clock))
    }

    /** Every call takes a turn, in which a write may land. */
    method Take() returns (fails: bool)
      modifies this`clock, this`data, this`version, this`truth, this`trail
      ensures clock == old(clock) + 1 && fails == env(old(clock)).fails
      ensures match env(old(clock)).write
              case None =>
                data == old(data) && truth == old(truth) && version == old(version) && trail == old(trail)
              case Some(w) =>
                data == truth == w && version == old(version) + 1 && trail == old(trail) + [Now()]
    {
      var turn := env(clock);
      clock := clock + 1;
      fails := turn.fails;
      if turn.write.Some? {
        data, version := turn.write.value, version + 1;
        truth := data;
        trail := trail + [Snapshot(marker, data, truth)];
      }
    }

    /** The same before the swap; `m` is when the marker was set, if it is. */
    method Tick(ghost m: nat) returns (fails: bool)
      requires Follows()
      modifies this`clock, this`data, this`version, this`truth, this`trail
      ensures Follows() && clock == old(clock) + 1 && fails == env(old(clock)).fails
      ensures version == old(version) + if env(old(clock)).write.Some? then 1 else 0
      ensures old(NeverMarked()) ==> NeverMarked()
      ensures marker && old(MarkedSince(m)) ==> MarkedSince(m)
    {
      fails := Take();
      ghost var k := clock - 1;
      if env(k).write.Some? {
        forall s | s in trail ensures s in old(trail) || s == Now() { }
        assert Now() in trail;
        PlainIsRecoverable(codec, Now());
        if marker && old(MarkedSince(m)) { OneMoreTurn(old(trail), m); }
      } else if marker && old(MarkedSince(m)) {
        assert forall j: nat :: m <= j < clock && WritesMistakable(codec, env, j) ==> j < k;
        assert SomeLost() == old(SomeLost());
      }
    }

    /** A call before the marker is set. */
    method Step() returns (fails: bool)
      requires NeverMarked()
      modifies this`clock, this`data, this`version, this`truth, this`trail
      ensures NeverMarked() && clock == old(clock) + 1 && fails == env(old(clock)).fails
      ensures version == old(version) + if env(old(clock)).write.Some? then 1 else 0
    {
      fails := Tick(0);
    }

    /** A write while marked exposes the file exactly when it writes something mistakable. */
    lemma OneMoreTurn(before: seq<Snapshot>, m: nat)
      requires clock > 0 && marker && begun <= m < clock && trail == before + [Now()]
      requires Now().data == truth && env(clock - 1).write == Some(data)
      requires (exists s :: s in before && !IsRecoverable(codec, s))
               <==> IsExposed(codec, env, After(env, origin, begun, m), m, clock - 1)
      ensures SomeLost() <==> IsExposed(codec, env, After(env, origin, begun, m), m, clock)
    {
      var k: nat := clock - 1;
      PlainIsRecoverable(codec, Now());
      assert WritesMistakable(codec, env, k) <==> IsMistakable(codec, data);
      assert Now() in trail;
      if SomeLost() {
        var s :| s in trail && !IsRecoverable(codec, s);
        if s !in before { assert s == Now(); }
      }
      if s :| s in before && !IsRecoverable(codec, s) {
        assert s in trail;
      }
      if j: nat :| m <= j < clock && WritesMistakable(codec, env, j) {
        assert j < k || j == k;
      }
    }

    /** set_compression_marker on: replaces the sidecar at once, or fails and leaves it. */
    method Mark() returns (ok: bool)
      requires NeverMarked()
      modifies this`clock, this`data, this`version, this`truth, this`trail, this`marker
      ensures clock == old(clock) + 1 && ok == !env(old(clock)).fails
      ensures version == old(version) + if env(old(clock)).write.Some? then 1 else 0
      ensures ok ==> marker && MarkedSince(clock)
      ensures !ok ==> NeverMarked()
    {
      var fails := Tick(0);
      ok := !fails;
      if ok {
        assert forall s :: s in trail ==> IsRecoverable(codec, s) by {
          forall s | s in trail ensures IsRecoverable(codec, s) { PlainIsRecoverable(codec, s); }
        }
        ghost var before := trail;
        marker := true;
        trail := trail + [Snapshot(marker, data, truth)];
        PlainIsRecoverable(codec, Now());
        assert Now() in trail;
        assert forall s :: s in trail ==> s in before || s == Now();
      }
    }

    /** set_compression_marker off, the tail of every attempt that did not swap. */
    method Revert(ghost m: nat) returns (ok: bool)
      requires marker && MarkedSince(m)
      modifies this`clock, this`data, this`version, this`truth, this`trail, this`marker
      ensures MarkedSince(m) && clock == old(clock) + 1
      ensures ok == !env(old(clock)).fails && marker == !ok
    {
      var fails := Tick(m);
      ok := !fails;
      if ok {
        ghost var before := trail;
        marker := false;
        trail := trail + [Snapshot(marker, data, truth)];
        PlainIsRecoverable(codec, Now());
        assert forall s :: s in before ==> s in trail;
        assert forall s :: s in trail ==> s in before || s == Now();
      }
    }

    /** Open, lock and look at the path: it still names the file. */
    method Enter(sizeBefore: nat, isFile: bool) returns (refused: Option<Outcome>, seen: nat)
      requires NeverMarked() && clock == begun
      modifies this`clock, this`data, this`version, this`truth, this`trail
      ensures NeverMarked() && clock > begun
      ensures refused.Some? ==>
                && refused.value == (if CallFailed(env, begun, clock) then Failed else Refused)
                && !SetsMarker(codec, env, origin, begun, sizeBefore, isFile)
      ensures refused.None? ==>
                && clock == begun + HEADER && isFile && |Measured(env, origin, begun)| == sizeBefore
                && Succeeds(env, begun, begun + HEADER) && !env(begun + LSTAT).replaced
                && version == seen && Still(env, begun + FSTAT + 1, clock)
    {
      hide Follows, NeverMarked, IsMistakable, HasMagic, After, Measured;
      var fails := Step();                                     // open
      if fails { return Some(Failed), 0; }
      fails := Step();                                         // fstat
      if fails { return Some(Failed), 0; }
      seen := version;
      DataIs();
      if !isFile || |data| != sizeBefore { return Some(Refused), seen; }
      fails := Step();                                         // flock
      if fails { return Some(Failed), seen; }
      fails := Step();                                         // lstat of the path
      if fails { return Some(Failed), seen; }
      refused := if version != seen || env(clock - 1).replaced then Some(Refused) else None;
    }

    /** Up to the header check: what is compressed already is left alone. */
    method Inspect(sizeBefore: nat, isFile: bool) returns (refused: Option<Outcome>, seen: nat)
      requires NeverMarked() && clock == begun
      modifies this`clock, this`data, this`version, this`truth, this`trail
      ensures NeverMarked() && clock > begun
      ensures refused.Some? ==>
                && refused.value == (if CallFailed(env, begun, clock) then Failed else Refused)
                && !SetsMarker(codec, env, origin, begun, sizeBefore, isFile)
      ensures refused.None? ==>
                && clock == begun + HEADER + 1 && isFile && |Measured(env, origin, begun)| == sizeBefore
                && Succeeds(env, begun, begun + HEADER) && !env(begun + LSTAT).replaced
                && (version == seen <==> Still(env, begun + FSTAT + 1, clock)) && version >= seen
                && (Still(env, begun + FSTAT + 1, begun + RECHECK + 1) ==>
                      env(begun + HEADER).fails || !HasMagic(Measured(env, origin, begun)))
    {
      hide Follows, NeverMarked, IsMistakable, HasMagic, After, Measured, Succeeds, SetsMarker;
      refused, seen := Enter(sizeBefore, isFile);
      if refused.Some? { return; }
      var fails := Step();                                     // read the first four bytes
      if !fails && HasMagic(data) {
        HeaderRefuses(sizeBefore, isFile);
        return Some(Refused), seen;
      }
      if version == seen { StillMeasured(); }
    }

    lemma DataIs()
      requires NeverMarked() && clock == begun + FSTAT + 1
      ensures data == Measured(env, origin, begun)
    {
    }

    /** A readable header with the magic rules the marker out. */
    lemma HeaderRefuses(sizeBefore: nat, isFile: bool)
      requires NeverMarked() && clock == begun + HEADER + 1 && !env(begun + HEADER).fails && HasMagic(data)
      ensures !SetsMarker(codec, env, origin, begun, sizeBefore, isFile)
    {
      if Still(env, begun + FSTAT + 1, begun + RECHECK + 1) {
        StillKeeps(env, origin, begun, begun + FSTAT + 1, clock);
      }
    }

    /** Up to the recheck: the compressed form is staged. */
    method Stage(sizeBefore: nat, isFile: bool, seen: nat) returns (refused: Option<Outcome>, staged: Text)
      requires NeverMarked() && clock == begun + HEADER + 1
      requires |Measured(env, origin, begun)| == sizeBefore
      requires (version == seen <==> Still(env, begun + FSTAT + 1, clock)) && version >= seen
      modifies this`clock, this`data, this`version, this`truth, this`trail
      ensures NeverMarked() && clock > begun
      ensures refused.Some? ==>
                && refused.value == (if CallFailed(env, begun, clock) then Failed else Refused)
                && !SetsMarker(codec, env, origin, begun, sizeBefore, isFile)
      ensures refused.None? ==>
                && clock == begun + HEADER + 5 && Succeeds(env, begun + HEADER + 1, clock)
                && (version == seen <==> Still(env, begun + FSTAT + 1, clock)) && version >= seen
                && (Still(env, begun + FSTAT + 1, begun + RECHECK + 1) ==>
                      staged == codec.encode(Measured(env, origin, begun)))
                && |staged| < sizeBefore
    {
      hide Follows, NeverMarked, IsMistakable, HasMagic, After;
      var fails := Step();                                     // rewind
      if fails { return Some(Failed), []; }
      fails := Step();                                         // create the staging file
      if fails { return Some(Failed), []; }
      fails := Step();                                         // copy through the encoder
      if fails { return Some(Failed), []; }
      var all := if env(clock - 1).write.Some? then env(clock - 1).torn else data;
      var copied := if |all| <= sizeBefore + 1 then all else all[..sizeBefore + 1];
      if version == seen { StillMeasured(); }
      if |copied| != sizeBefore { return Some(Refused), []; }
      staged := codec.encode(copied);
      fails := Step();                                         // finish, measure
      if fails { return Some(Failed), []; }
      if |staged| >= sizeBefore { return Some(Refused), []; }
      refused := None;
    }

    lemma StillMeasured()
      requires NeverMarked() && clock >= begun + FSTAT + 1 && Still(env, begun + FSTAT + 1, clock)
      ensures data == Measured(env, origin, begun)
    {
      StillKeeps(env, origin, begun, begun + FSTAT + 1, clock);
    }

    /** Up to the marker: the staged file is made ready, and the source is checked again under the
      * root lock. */
    method Recheck(sizeBefore: nat, isFile: bool, seen: nat) returns (refused: Option<Outcome>)
      requires NeverMarked() && clock == begun + HEADER + 5
      requires (version == seen <==> Still(env, begun + FSTAT + 1, clock)) && version >= seen
      modifies this`clock, this`data, this`version, this`truth, this`trail
      ensures NeverMarked() && clock > begun
      ensures refused.Some? ==>
                && refused.value == (if CallFailed(env, begun, clock) then Failed else Refused)
                && !SetsMarker(codec, env, origin, begun, sizeBefore, isFile)
      ensures refused.None? ==>
                && clock == begun + MARK && Succeeds(env, begun + HEADER + 5, clock)
                && !env(begun + VALIDATE).replaced && Still(env, begun + FSTAT + 1, begun + RECHECK + 1)
                && (version == seen <==> Still(env, begun + RECHECK + 1, clock)) && version >= seen
    {
      hide Follows, NeverMarked, IsMistakable, HasMagic, After;
      var fails := Step();                                     // owner, mode, sync
      if fails { return Some(Failed); }
      fails := Step();                                         // root lock
      if fails { return Some(Failed); }
      fails := Step();                                         // validate the entry
      if fails || env(clock - 1).replaced { return Some(Failed); }
      fails := Step();                                         // fstat again
      if fails { return Some(Failed); }
      if version != seen { return Some(Refused); }
      fails := Step();                                         // times
      refused := if fails then Some(Failed) else None;
    }

    /** The last check and the rename; without the rename, the marker is taken back. */
    method Swap(seen: nat, staged: Text) returns (r: Outcome)
      requires IsFaithful(codec) && marker && clock == begun + LAST_CHECK && MarkedSince(clock)
      requires Still(env, begun + FSTAT + 1, begun + RECHECK + 1)
      requires (version == seen <==> Still(env, begun + RECHECK + 1, clock)) && version >= seen
      requires version == seen ==> staged == codec.encode(Measured(env, origin, begun))
      modifies this`clock, this`data, this`version, this`truth, this`trail, this`marker
      ensures r.Swapped? <==> Still(env, begun + RECHECK + 1, begun + LAST_CHECK + 1)
                              && !env(begun + LAST_CHECK).fails && !env(begun + RENAME).fails
      ensures r.Swapped? ==>
                && marker && data == staged == codec.encode(Measured(env, origin, begun)) && r.size == |data|
                && clock == begun + RENAME + 1 && truth == After(env, origin, begun, clock)
      ensures clock == End(env, begun) && EndsNow()
      ensures !r.Swapped? ==> Follows() && marker == env(clock - 1).fails && (marker ==> r == Failed)
      ensures !r.Swapped? ==> r == if FindsWrite(env, begun, clock) then Refused else Failed
      ensures SomeLost() <==> || IsExposed(codec, env, AtMark(env, origin, begun), begun + LAST_CHECK, clock)
                              || (r.Swapped? && truth != Measured(env, origin, begun))
    {
      ghost var m := clock;
      hide IsMistakable, HasMagic, After, IsExposed;
      var fails := Tick(m);                                  // fstat before the swap
      if fails {
        var ok := Revert(m);
        return Failed;
      }
      if version != seen {
        var ok := Revert(m);
        return if ok then Refused else Failed;
      }
      fails := Tick(m);                                      // rename over the original
      if fails {
        var ok := Revert(m);
        return Failed;
      }
      ghost var before := trail;
      data := staged;
      trail := trail + [Snapshot(marker, data, truth)];
      SwappedIsRecoverable(codec, Measured(env, origin, begun), truth);
      assert Now() in trail;
      assert forall s :: s in before ==> s in trail;
      assert forall s :: s in trail ==> s in before || s == Now();
      r := Swapped(|data|);
    }

    /** compress_before_publish: what it does, and which crash states it goes through, in terms of
      * the turns from `old(clock)` on. */
    method CompressBeforePublish(sizeBefore: nat, isFile: bool) returns (r: Outcome)
      requires IsFaithful(codec)
      requires !marker && data == truth && trail == [Now()]
      modifies this
      // It swaps exactly when nothing stands in the way, and then holds the compressed form of what
      // was measured; only a write in the turn of the rename itself can be newer than that.
      ensures r.Swapped? <==> Swaps(codec, env, old(data), old(clock), sizeBefore, isFile)
      ensures r.Swapped? ==>
                && marker && data == codec.encode(Measured(env, old(data), old(clock))) && r.size == |data| < sizeBefore
                && (truth == Measured(env, old(data), old(clock)) || env(old(clock) + RENAME).write == Some(truth))
      // Otherwise the data is what its writers left, and the marker is gone unless it was set and
      // its removal, the last call, failed; that is an error to the caller.
      ensures truth == After(env, old(data), old(clock), clock) && (!r.Swapped? ==> data == truth)
      ensures clock > old(clock)
      ensures SetsMarker(codec, env, old(data), old(clock), sizeBefore, isFile) ==> clock == End(env, old(clock))
      ensures !r.Swapped? ==>
                (marker <==> SetsMarker(codec, env, old(data), old(clock), sizeBefore, isFile) && env(clock - 1).fails)
      ensures !r.Swapped? && marker ==> r == Failed
      ensures !r.Swapped? ==> r == Verdict(codec, env, old(data), old(clock), sizeBefore, isFile, clock)
      // A crash could leave a state that is not recovered exactly when the turns say so.
      ensures SomeLost() <==> Loses(codec, env, old(data), old(clock), sizeBefore, isFile)
      ensures EndsNow()
    {
      begun, origin := clock, data;
      assert NeverMarked();
      hide IsMistakable, HasMagic, After, IsExposed, Succeeds, Still, SetsMarker, Swaps, Loses, End;
      r := Attempt(sizeBefore, isFile);
    }

    /** What an attempt leaves, in terms of the turns since it began. */
    ghost predicate Leaves(r: Outcome, sizeBefore: nat, isFile: bool)
      reads this
    {
      var sets := SetsMarker(codec, env, origin, begun, sizeBefore, isFile);
      var measured := Measured(env, origin, begun);
      && clock > begun && EndsNow() && (sets ==> clock == End(env, begun))
      && (r.Swapped? <==> Swaps(codec, env, origin, begun, sizeBefore, isFile))
      && (r.Swapped? ==>
            && marker && data == codec.encode(measured) && r.size == |data| < sizeBefore
            && (truth == measured || env(begun + RENAME).write == Some(truth)))
      && truth == After(env, origin, begun, clock) && (!r.Swapped? ==> data == truth)
      && (!r.Swapped? ==> (marker <==> sets && env(clock - 1).fails) && (marker ==> r == Failed))
      && (!r.Swapped? ==> r == Verdict(codec, env, origin, begun, sizeBefore, isFile, clock))
      && (SomeLost() <==> Loses(codec, env, origin, begun, sizeBefore, isFile))
    }

    /** The attempt, step by step. */
    method Attempt(sizeBefore: nat, isFile: bool) returns (r: Outcome)
      requires IsFaithful(codec) && NeverMarked() && clock == begun
      modifies this`clock, this`data, this`version, this`truth, this`trail, this`marker
      ensures Leaves(r, sizeBefore, isFile)
    {
      hide IsMistakable, HasMagic, After, IsExposed, Succeeds, Still, NeverMarked, SetsMarker, Measured, Leaves;
      var refused, seen := Inspect(sizeBefore, isFile);
      if refused.Some? {
        NothingDone(refused.value, sizeBefore, isFile);
        return refused.value;
      }
      var staged: Text;
      refused, staged := Stage(sizeBefore, isFile, seen);
      if refused.Some? {
        NothingDone(refused.value, sizeBefore, isFile);
        return refused.value;
      }
      refused := Recheck(sizeBefore, isFile, seen);
      if refused.Some? {
        NothingDone(refused.value, sizeBefore, isFile);
        return refused.value;
      }
      if env(clock).fails { MarkerFails(sizeBefore, isFile); } else { MarkerIsSet(sizeBefore, isFile, staged); }
      r := Commit(sizeBefore, isFile, seen, staged);
    }

    lemma MarkerFails(sizeBefore: nat, isFile: bool)
      requires env(begun + MARK).fails
      ensures !SetsMarker(codec, env, origin, begun, sizeBefore, isFile)
    {
    }

    /** From the marker on. */
    method Commit(sizeBefore: nat, isFile: bool, seen: nat, staged: Text) returns (r: Outcome)
      requires IsFaithful(codec) && NeverMarked() && clock == begun + MARK
      requires Still(env, begun + FSTAT + 1, begun + RECHECK + 1)
      requires (version == seen <==> Still(env, begun + RECHECK + 1, clock)) && version >= seen
      requires staged == codec.encode(Measured(env, origin, begun)) && |staged| < sizeBefore
      requires SetsMarker(codec, env, origin, begun, sizeBefore, isFile) <==> !env(clock).fails
      modifies this`clock, this`data, this`version, this`truth, this`trail, this`marker
      ensures Leaves(r, sizeBefore, isFile)
    {
      hide SetsMarker, IsMistakable, HasMagic, After, IsExposed;
      var ok := Mark();
      if !ok {
        NothingDone(Failed, sizeBefore, isFile);
        return Failed;
      }
      r := Swap(seen, staged);
      FollowsData();
      if r.Swapped? { LastWrite(); }
    }

    lemma FollowsData()
      ensures Follows() ==> data == truth == After(env, origin, begun, clock)
    {
    }

    /** All that the attempt has checked by the time the marker is set. */
    lemma MarkerIsSet(sizeBefore: nat, isFile: bool, staged: Text)
      requires isFile && |Measured(env, origin, begun)| == sizeBefore
      requires Succeeds(env, begun, begun + HEADER) && Succeeds(env, begun + HEADER + 1, begun + HEADER + 5)
      requires Succeeds(env, begun + HEADER + 5, begun + MARK)
      requires !env(begun + MARK).fails && !env(begun + LSTAT).replaced && !env(begun + VALIDATE).replaced
      requires Still(env, begun + FSTAT + 1, begun + RECHECK + 1)
      requires env(begun + HEADER).fails || !HasMagic(Measured(env, origin, begun))
      requires staged == codec.encode(Measured(env, origin, begun)) && |staged| < sizeBefore
      ensures SetsMarker(codec, env, origin, begun, sizeBefore, isFile)
    {
    }

    /** An attempt that never set the marker. */
    lemma NothingDone(r: Outcome, sizeBefore: nat, isFile: bool)
      requires NeverMarked() && clock > begun && r == (if CallFailed(env, begun, clock) then Failed else Refused)
      requires !SetsMarker(codec, env, origin, begun, sizeBefore, isFile)
      ensures Leaves(r, sizeBefore, isFile)
    {
      hide SetsMarker, IsExposed, IsMistakable;
      forall s | s in trail ensures IsRecoverable(codec, s) { PlainIsRecoverable(codec, s); }
    }

    lemma LastWrite()
      requires clock == begun + RENAME + 1 && truth == After(env, origin, begun, clock)
      requires Still(env, begun + FSTAT + 1, begun + RECHECK + 1)
      requires Still(env, begun + RECHECK + 1, begun + LAST_CHECK + 1)
      ensures truth == Measured(env, origin, begun) || env(begun + RENAME).write == Some(truth)
    {
      StillKeeps(env, origin, begun, begun + FSTAT + 1, begun + RECHECK + 1);
      StillKeeps(env, origin, begun, begun + RECHECK + 1, begun + LAST_CHECK + 1);
    }

    // -------------------------------------------------------------- the way back

    /** One of the snapshots from `n` on would not be recovered. */
    ghost predicate SomeLostSince(n: nat)
      reads this
    {
      n <= |trail| && exists s :: s in trail[n..] && !IsRecoverable(codec, s)
    }

    /** The entry was `o`, and nothing but writes has followed. */
    ghost predicate Tracks(o: Entry)
      reads this
    {
      && o.clock <= clock && marker && EndsNow() && o.trail <= trail
      && data == After(env, o.data, o.clock, clock) && truth == After(env, o.truth, o.clock, clock)
      && (Still(env, o.clock, clock) ==> trail == o.trail)
      && (SomeLostSince(|o.trail|) <==> WritesMistakables(codec, env, o.clock, clock))
    }

    /** A call before the swap. */
    method Look(ghost o: Entry) returns (fails: bool)
      requires Tracks(o)
      modifies this`clock, this`data, this`version, this`truth, this`trail
      ensures Tracks(o) && clock == old(clock) + 1 && fails == env(old(clock)).fails
      ensures version == old(version) + if env(old(clock)).write.Some? then 1 else 0
    {
      hide WritesMistakables, IsRecoverable;
      fails := Take();
      OneMoreLook(old(trail), o);
      assert Still(env, o.clock, clock) ==> Still(env, o.clock, old(clock)) && env(old(clock)).write.None?;
    }

    /** A write exposes the marked entry exactly when it writes something mistakable. */
    lemma OneMoreLook(before: seq<Snapshot>, o: Entry)
      requires clock > o.clock && |o.trail| <= |before|
      requires (exists s :: s in before[|o.trail|..] && !IsRecoverable(codec, s))
               <==> WritesMistakables(codec, env, o.clock, clock - 1)
      requires match env(clock - 1).write
               case None => trail == before
               case Some(w) => trail == before + [Snapshot(true, w, w)]
      ensures SomeLostSince(|o.trail|) <==> WritesMistakables(codec, env, o.clock, clock)
    {
      hide IsRecoverable, IsMistakable;
      MistakablesStep(codec, env, o.clock, clock - 1);
      if env(clock - 1).write.Some? {
        var w := env(clock - 1).write.value;
        PlainIsRecoverable(codec, Snapshot(true, w, w));
        LostSnoc(before, Snapshot(true, w, w), |o.trail|);
      }
    }

    /** One snapshot more. */
    lemma LostSnoc(before: seq<Snapshot>, s: Snapshot, n: nat)
      requires trail == before + [s] && n <= |before|
      ensures SomeLostSince(n) <==>
              !IsRecoverable(codec, s) || exists t :: t in before[n..] && !IsRecoverable(codec, t)
    {
      hide IsRecoverable;
      assert trail[n..] == before[n..] + [s];
    }

    lemma TracksSays(o: Entry)
      requires Tracks(o)
      ensures marker && EndsNow() && o.trail <= trail
      ensures data == After(env, o.data, o.clock, clock) && truth == After(env, o.truth, o.clock, clock)
      ensures Still(env, o.clock, clock) ==> trail == o.trail
      ensures (exists s :: s in trail[|o.trail|..] && !IsRecoverable(codec, s))
              <==> WritesMistakables(codec, env, o.clock, clock)
    {
    }

    lemma TracksMeasured(o: Entry)
      requires Tracks(o) && clock >= o.clock + FSTAT + 1 && Still(env, o.clock + FSTAT + 1, clock)
      ensures data == Measured(env, o.data, o.clock)
    {
      StillKeeps(env, o.data, o.clock, o.clock + FSTAT + 1, clock);
    }

    /** Up to the header: the entry is opened, locked and found unchanged. */
    method Reopen(isFile: bool, ghost o: Entry) returns (ok: bool, seen: nat)
      requires Tracks(o) && clock == o.clock
      modifies this`clock, this`data, this`version, this`truth, this`trail
      ensures Tracks(o) && clock > o.clock
      ensures ok <==> Reopens(env, o.clock, isFile)
      ensures ok ==>
                && clock == o.clock + HEADER + 1
                && version >= seen && (version == seen <==> Still(env, o.clock + FSTAT + 1, clock))
    {
      hide Tracks;
      seen := version;
      var fails := Look(o);                                  // open
      if fails { return false, seen; }
      fails := Look(o);                                      // fstat
      if fails || !isFile || env(clock - 1).replaced { return false, seen; }
      seen := version;
      fails := Look(o);                                      // flock
      if fails { return false, seen; }
      fails := Look(o);                                      // identity, sidecar and version again
      if fails || env(clock - 1).replaced || version != seen { return false, seen; }
      fails := Look(o);                                      // read the first four bytes
      ok := !fails;
    }

    /** A call after the swap: writers hold the file that was replaced. */
    method AfterSwap() returns (fails: bool)
      modifies this`clock
      ensures clock == old(clock) + 1 && fails == env(old(clock)).fails
    {
      fails := env(clock).fails;
      clock := clock + 1;
    }

    /** Stage the plaintext and check the source once more. */
    method StageBack(maxOutput: nat, seen: nat, ghost o: Entry) returns (plain: Option<Text>)
      requires clock == o.clock + HEADER + 1 && Tracks(o)
      requires version >= seen && (version == seen <==> Still(env, o.clock + FSTAT + 1, clock))
      modifies this`clock, this`data, this`version, this`truth, this`trail
      ensures Tracks(o) && clock > old(clock)
      ensures plain.Some? <==> StagesBack(codec, env, o.data, o.clock, maxOutput)
      ensures plain.Some? ==> clock == o.clock + RENAME_BACK && codec.decode(Measured(env, o.data, o.clock)) == plain
    {
      hide Tracks, After, EndsNow;
      var fails := Look(o);                                  // create the staging file
      if fails { return None; }
      fails := Look(o);                                      // decode
      if version == seen { TracksMeasured(o); }
      plain := codec.decode(data);
      if fails || plain.None? || |plain.value| > maxOutput { return None; }
      fails := Look(o);                                      // owner, mode, sync
      if fails { return None; }
      fails := Look(o);                                      // root lock and recheck
      if fails || env(clock - 1).replaced || version != seen { return None; }
    }

    /** Put the plaintext in place of the compressed data. */
    method PutBack(isFile: bool, maxOutput: nat, seen: nat, ghost o: Entry) returns (ok: bool)
      requires clock == o.clock + HEADER + 1 && Tracks(o) && Reopens(env, o.clock, isFile)
      requires version >= seen && (version == seen <==> Still(env, o.clock + FSTAT + 1, clock))
      requires version == seen ==> HasMagic(Measured(env, o.data, o.clock))
      modifies this`clock, this`data, this`version, this`truth, this`trail
      ensures clock > old(clock)
      ensures ok <==> PutsBack(codec, env, o.data, o.clock, isFile, maxOutput)
      ensures ok ==> clock == o.clock + RENAME_BACK + 1 && HasPlaintext(o)
      ensures !ok ==> Tracks(o)
    {
      hide Tracks, After, HasMagic, HasPlaintext, Measured, Reopens, IsRecoverable, WritesMistakables, EndsNow;
      var plain := StageBack(maxOutput, seen, o);
      if plain.None? { return false; }
      var fails := Look(o);                                  // rename
      if fails { return false; }
      ghost var before := trail;
      TracksSays(o);
      data := plain.value;
      trail := trail + [Snapshot(marker, data, truth)];
      PlaintextIsIn(before, o);
      ok := true;
    }

    /** The entry was `o`, and its plaintext has been put in place. */
    ghost predicate HasPlaintext(o: Entry)
      reads this
    {
      && marker && EndsNow() && o.trail <= trail && codec.decode(Measured(env, o.data, o.clock)) == Some(data)
      && truth == After(env, o.truth, o.clock, o.clock + RENAME_BACK + 1)
      && (Still(env, o.clock, o.clock + RENAME_BACK + 1) ==> trail == o.trail + [Now()])
      && (SomeLostSince(|o.trail|) <==>
            || WritesMistakables(codec, env, o.clock, o.clock + RENAME_BACK + 1)
            || !IsRecoverable(codec, Now()))
    }

    lemma PlaintextIsIn(before: seq<Snapshot>, o: Entry)
      requires clock == o.clock + RENAME_BACK + 1 && marker && o.trail <= before && trail == before + [Now()]
      requires codec.decode(Measured(env, o.data, o.clock)) == Some(data)
      requires truth == After(env, o.truth, o.clock, clock)
      requires Still(env, o.clock, clock) ==> before == o.trail
      requires (exists s :: s in before[|o.trail|..] && !IsRecoverable(codec, s))
               <==> WritesMistakables(codec, env, o.clock, clock)
      ensures HasPlaintext(o)
    {
      hide IsRecoverable, WritesMistakables, After, Measured;
      LostSnoc(before, Now(), |o.trail|);
    }

    /** Clear the marker of plaintext, after one more check. */
    method Unmark(isFile: bool, seen: nat, ghost o: Entry) returns (ok: bool)
      requires clock == o.clock + HEADER + 1 && Tracks(o) && Reopens(env, o.clock, isFile)
      requires version >= seen && (version == seen <==> Still(env, o.clock + FSTAT + 1, clock))
      requires version == seen ==> !HasMagic(Measured(env, o.data, o.clock))
      modifies this`clock, this`data, this`version, this`truth, this`trail
      ensures Tracks(o) && clock > old(clock) && (ok ==> clock == o.clock + UNMARK + 1)
      ensures ok <==> Unmarks(env, o.data, o.clock, isFile)
    {
      hide Tracks, HasMagic, Measured;
      var fails := Look(o);                                  // root lock and recheck
      if fails || env(clock - 1).replaced || version != seen { return false; }
      fails := Look(o);                                      // clear the marker
      ok := !fails;
    }

    /** What the way back leaves, in terms of the turns since the entry was `o`. */
    ghost predicate LeavesBack(ok: bool, isFile: bool, maxOutput: nat, o: Entry)
      reads this
    {
      var start := Snapshot(true, o.data, o.truth);
      var puts := PutsBack(codec, env, o.data, o.clock, isFile, maxOutput);
      && clock > o.clock && marker == !ok
      && (ok <==> Unmarks(env, o.data, o.clock, isFile) || (puts && !env(o.clock + CLEAR).fails))
      && (if puts then codec.decode(Measured(env, o.data, o.clock)) == Some(data)
          else data == After(env, o.data, o.clock, clock))
      && truth == After(env, o.truth, o.clock, WritersEnd(codec, env, o, isFile, maxOutput, clock))
      && EndsNow() && o.trail <= trail
      && (IsRecoverable(codec, start) ==>
            (SomeLostSince(|o.trail|) <==> LosesBack(codec, env, o, isFile, maxOutput, clock)))
      && (Still(env, o.clock, clock) ==>
            forall i :: |o.trail| <= i < |trail| ==> RestoresAs(trail[i], Restored(codec, start)))
    }

    /** The marker goes: the last change. */
    method ClearMarker(ghost n: nat)
      requires n <= |trail|
      modifies this`marker, this`trail
      ensures !marker && EndsNow() && trail == old(trail) + [Now()]
      ensures SomeLostSince(n) <==> old(SomeLostSince(n)) || data != truth
    {
      ghost var before := trail;
      marker := false;
      trail := trail + [Snapshot(marker, data, truth)];
      LostSnoc(before, Now(), n);
    }

    /** The plaintext is in place: only the marker has to go. */
    method ClearAfterSwap(isFile: bool, maxOutput: nat, ghost o: Entry) returns (ok: bool)
      requires clock == o.clock + CLEAR && HasPlaintext(o)
      requires PutsBack(codec, env, o.data, o.clock, isFile, maxOutput)
      modifies this`clock, this`marker, this`trail
      ensures LeavesBack(ok, isFile, maxOutput, o)
    {
      hide After, Measured, HasMagic, PutsBack, WritesMistakables, LeavesBack;
      hide IsRecoverable, Still;
      var fails := AfterSwap();
      ok := !fails;
      ghost var swapped := Now();
      if ok {
        ClearMarker(|o.trail|);
        assert o.trail + [swapped] + [Now()] == o.trail + [swapped, Now()];
      }
      PlaintextLeft(ok, isFile, maxOutput, o);
    }

    lemma PlaintextLeft(ok: bool, isFile: bool, maxOutput: nat, o: Entry)
      requires clock == o.clock + CLEAR + 1 && EndsNow() && o.trail <= trail
      requires PutsBack(codec, env, o.data, o.clock, isFile, maxOutput)
      requires ok == !env(o.clock + CLEAR).fails && marker == !ok
      requires codec.decode(Measured(env, o.data, o.clock)) == Some(data)
      requires truth == After(env, o.truth, o.clock, o.clock + CLEAR)
      requires var swapped := Snapshot(true, data, truth);
               && (Still(env, o.clock, o.clock + CLEAR) ==>
                     trail == o.trail + if ok then [swapped, Snapshot(false, data, truth)] else [swapped])
               && (SomeLostSince(|o.trail|) <==>
                     || WritesMistakables(codec, env, o.clock, o.clock + CLEAR)
                     || !IsRecoverable(codec, swapped) || (ok && data != truth))
      ensures LeavesBack(ok, isFile, maxOutput, o)
    {
      hide After, Measured, HasMagic, SomeLostSince, WritesMistakables, IsRecoverable, StagesBack, Reopens;
      if Still(env, o.clock, clock) {
        assert Still(env, o.clock, o.clock + CLEAR);
        MeasuredIs(o.clock, o.data);
      }
    }

    /** The entry is plaintext already: only the marker has to go. */
    method ClearOfPlain(isFile: bool, maxOutput: nat, ghost o: Entry)
      requires Tracks(o) && clock == o.clock + UNMARK + 1 && Unmarks(env, o.data, o.clock, isFile)
      modifies this`marker, this`trail
      ensures LeavesBack(true, isFile, maxOutput, o)
    {
      hide After, SomeLostSince, Unmarks, WritesMistakables, LeavesBack, IsRecoverable, Still;
      ClearMarker(|o.trail|);
      PlainLeft(isFile, maxOutput, o);
    }

    lemma PlainLeft(isFile: bool, maxOutput: nat, o: Entry)
      requires clock == o.clock + UNMARK + 1 && Unmarks(env, o.data, o.clock, isFile)
      requires !marker && EndsNow() && o.trail <= trail
      requires data == After(env, o.data, o.clock, clock) && truth == After(env, o.truth, o.clock, clock)
      requires Still(env, o.clock, clock) ==> trail == o.trail + [Now()]
      requires SomeLostSince(|o.trail|) <==> WritesMistakables(codec, env, o.clock, clock) || data != truth
      ensures LeavesBack(true, isFile, maxOutput, o)
    {
      hide After, Measured, HasMagic, SomeLostSince, WritesMistakables, Reopens;
      if Still(env, o.clock, clock) {
        MeasuredIs(o.clock, o.data);
        StillKeeps(env, o.truth, o.clock, o.clock, clock);
        NothingAfter(env, o.truth, o.clock);
      } else {
        LastWriteRules(env, o.data, o.truth, o.clock, clock);
      }
    }

    /** decompress_before_commit (crates/trashd-common/src/store.rs): the plaintext is put in place
      * first, the marker goes after it.  What it does, and which crash states it goes through, in
      * terms of the turns from `old(clock)` on. */
    method DecompressBeforeCommit(isFile: bool, maxOutput: nat) returns (ok: bool)
      requires marker && EndsNow()
      modifies this`clock, this`marker, this`data, this`version, this`truth, this`trail
      // It succeeds exactly when nothing stands in the way, and takes the marker away only then.
      ensures clock > old(clock) && marker == !ok
      ensures ok <==> || Unmarks(env, old(data), old(clock), isFile)
                      || (&& PutsBack(codec, env, old(data), old(clock), isFile, maxOutput)
                          && !env(old(clock) + CLEAR).fails)
      // The data is the plaintext of what was measured once that is in place, and before that what
      // its writers left.
      ensures if PutsBack(codec, env, old(data), old(clock), isFile, maxOutput)
              then codec.decode(Measured(env, old(data), old(clock))) == Some(data)
              else data == After(env, old(data), old(clock), clock)
      ensures truth == After(env, old(truth), old(clock), WritersEnd(codec, env, old(At()), isFile, maxOutput, clock))
      // Whoever writes: a crash could leave a state that is not recovered exactly when the turns
      // say so.
      ensures EndsNow() && old(trail) <= trail
      ensures old(IsRecoverable(codec, Now())) ==>
                (SomeLostSince(|old(trail)|) <==> LosesBack(codec, env, old(At()), isFile, maxOutput, clock))
      // With nobody writing, every state a crash could leave restores as the entry did, unless the
      // plaintext could itself be mistaken for compressed data.
      ensures Still(env, old(clock), clock) ==>
                forall i :: |old(trail)| <= i < |trail| ==> RestoresAs(trail[i], Restored(codec, old(Now())))
    {
      hide After, IsMistakable, Measured, HasMagic, SomeLostSince, Reopens, PutsBack, Unmarks, IsRecoverable;
      hide LosesBack, WritersEnd, Still, RestoresAs, Restored;
      ok := WayBack(isFile, maxOutput, At());
    }

    ghost function At(): Entry
      reads this
    {
      Entry(clock, data, truth, trail)
    }

    lemma TracksNow()
      requires marker && EndsNow()
      ensures Tracks(At())
    {
      assert trail[|trail|..] == [];
    }

    /** The way back, step by step. */
    method WayBack(isFile: bool, maxOutput: nat, ghost o: Entry) returns (ok: bool)
      requires marker && EndsNow() && o == At()
      modifies this`clock, this`marker, this`data, this`version, this`truth, this`trail
      ensures LeavesBack(ok, isFile, maxOutput, o)
    {
      hide After, IsMistakable, Measured, HasMagic, Tracks, SomeLostSince, Reopens, Unmarks, HasPlaintext, LeavesBack;
      hide PutsBack;
      TracksNow();
      OneWay(isFile, maxOutput, o.clock, o.data);
      var reopened, seen := Reopen(isFile, o);
      if !reopened {
        NothingPutBack(isFile, maxOutput, o);
        return false;
      }
      if version == seen { TracksMeasured(o); }
      if HasMagic(data) {
        ok := PutBack(isFile, maxOutput, seen, o);
        if ok { ok := ClearAfterSwap(isFile, maxOutput, o); } else { NothingPutBack(isFile, maxOutput, o); }
      } else {
        ok := Unmark(isFile, seen, o);
        if ok { ClearOfPlain(isFile, maxOutput, o); } else { NothingPutBack(isFile, maxOutput, o); }
      }
    }

    /** Only what was found unchanged goes back, and its header says which way. */
    lemma OneWay(isFile: bool, maxOutput: nat, c: nat, d: Text)
      ensures !Reopens(env, c, isFile) || !Still(env, c + FSTAT + 1, c + HEADER + 1) ==>
                !PutsBack(codec, env, d, c, isFile, maxOutput) && !Unmarks(env, d, c, isFile)
      ensures if HasMagic(Measured(env, d, c)) then !Unmarks(env, d, c, isFile)
              else !PutsBack(codec, env, d, c, isFile, maxOutput)
    {
      hide Reopens, HasMagic, Measured;
    }

    /** A way back that changed nothing. */
    lemma NothingPutBack(isFile: bool, maxOutput: nat, o: Entry)
      requires Tracks(o) && clock > o.clock
      requires !PutsBack(codec, env, o.data, o.clock, isFile, maxOutput) && !Unmarks(env, o.data, o.clock, isFile)
      ensures LeavesBack(false, isFile, maxOutput, o)
    {
      hide IsRecoverable, PutsBack, Unmarks, After, SomeLostSince, RestoresAs, Restored, WritesMistakables;
    }

    lemma MeasuredIs(c: nat, d: Text)
      requires clock >= c + FSTAT + 1 && Still(env, c, clock)
      ensures Measured(env, d, c) == After(env, d, c, clock) == d
    {
      StillKeeps(env, d, c, c, c + FSTAT + 1);
      StillKeeps(env, d, c, c, clock);
    }

    /** The state restores to this, or is marked plaintext that could be mistaken. */
    predicate RestoresAs(s: Snapshot, was: Option<Text>)
    {
      Restored(codec, s) == was || (s.marker && Some(s.data) == was && IsMistakable(codec, s.data))
    }
  }

  // ---------------------------------------------------------------- when a crash can be misread

  /** With a readable header and nobody writing once the source was rechecked, no crash state of the
    * attempt is misread. */
  lemma QuietAttemptIsSafe(codec: Codec, env: Env, data: Text, c: nat, sizeBefore: nat, isFile: bool)
    requires !env(c + HEADER).fails && Still(env, c + RECHECK + 1, c + RENAME + 2)
    ensures !Loses(codec, env, data, c, sizeBefore, isFile)
  {
    if SetsMarker(codec, env, data, c, sizeBefore, isFile) {
      StillKeeps(env, data, c, c + FSTAT + 1, c + RECHECK + 1);
      StillKeeps(env, data, c, c + RECHECK + 1, c + MARK + 1);
      StillKeeps(env, data, c, c + RECHECK + 1, c + RENAME + 1);
      forall k: nat | c + LAST_CHECK <= k < End(env, c) ensures !WritesMistakable(codec, env, k) {
        assert env(k).write.None?;
      }
    }
  }

  /** The content that gets marked can be mistaken only if the header could not be read, or somebody
    * wrote between the recheck and the marker. */
  lemma WhoExposesTheMark(codec: Codec, env: Env, data: Text, c: nat, sizeBefore: nat, isFile: bool)
    requires SetsMarker(codec, env, data, c, sizeBefore, isFile) && IsMistakable(codec, AtMark(env, data, c))
    ensures env(c + HEADER).fails || !Still(env, c + RECHECK + 1, c + MARK + 1)
  {
    if Still(env, c + RECHECK + 1, c + MARK + 1) {
      StillKeeps(env, data, c, c + FSTAT + 1, c + RECHECK + 1);
      StillKeeps(env, data, c, c + RECHECK + 1, c + MARK + 1);
    }
  }

  /** Unless somebody writes in the turn of the rename, a way back from an entry that is recovered
    * loses it only to a mistakable write, or to plaintext that could itself be mistaken while it is
    * still marked. */
  lemma WhoLosesTheWayBack(codec: Codec, env: Env, o: Entry, isFile: bool, maxOutput: nat, end: nat)
    requires IsRecoverable(codec, Snapshot(true, o.data, o.truth)) && env(o.clock + RENAME_BACK).write.None?
    ensures LosesBack(codec, env, o, isFile, maxOutput, end) <==>
            || WritesMistakables(codec, env, o.clock, WritersEnd(codec, env, o, isFile, maxOutput, end))
            || (&& PutsBack(codec, env, o.data, o.clock, isFile, maxOutput)
                && IsMistakable(codec, codec.decode(Measured(env, o.data, o.clock)).value))
  {
    hide IsMistakable, HasMagic, Reopens;
    if PutsBack(codec, env, o.data, o.clock, isFile, maxOutput) {
      PlaintextIsTruth(codec, env, o, maxOutput);
      var plain := codec.decode(Measured(env, o.data, o.clock)).value;
      PlainIsRecoverable(codec, Snapshot(true, plain, plain));
    }
  }

  /** The plaintext is what its reader should get, but for a mistakable write. */
  lemma PlaintextIsTruth(codec: Codec, env: Env, o: Entry, maxOutput: nat)
    requires IsRecoverable(codec, Snapshot(true, o.data, o.truth)) && env(o.clock + RENAME_BACK).write.None?
    requires HasMagic(Measured(env, o.data, o.clock)) && StagesBack(codec, env, o.data, o.clock, maxOutput)
    ensures || WritesMistakables(codec, env, o.clock, o.clock + RENAME_BACK + 1)
            || codec.decode(Measured(env, o.data, o.clock))
               == Some(After(env, o.truth, o.clock, o.clock + RENAME_BACK + 1))
  {
    hide HasMagic;
    var c, mid := o.clock, o.clock + FSTAT + 1;
    StillKeeps(env, o.truth, c, mid, c + RENAME_BACK + 1);
    if Still(env, c, mid) {
      StillKeeps(env, o.data, c, c, mid);
      StillKeeps(env, o.truth, c, c, mid);
    } else {
      LastWriteRules(env, o.data, o.truth, c, mid);
      var k := if env(c + FSTAT).write.Some? then c + FSTAT else c;
      assert WritesMistakable(codec, env, k) <==> IsMistakable(codec, Measured(env, o.data, c));
    }
  }

  /** What is written in that turn goes with the file that is replaced: it is lost unless it is the
    * plaintext itself. */
  lemma LateWriteIsLost(codec: Codec, env: Env, o: Entry, isFile: bool, maxOutput: nat, end: nat)
    requires PutsBack(codec, env, o.data, o.clock, isFile, maxOutput) && !env(o.clock + CLEAR).fails
    requires env(o.clock + RENAME_BACK).write.Some?
    ensures LosesBack(codec, env, o, isFile, maxOutput, end) <==>
            || WritesMistakables(codec, env, o.clock, o.clock + RENAME_BACK + 1)
            || codec.decode(Measured(env, o.data, o.clock)) != env(o.clock + RENAME_BACK).write
  {
    hide IsMistakable, HasMagic, Reopens;
    var w := env(o.clock + RENAME_BACK).write.value;
    assert After(env, o.truth, o.clock, o.clock + RENAME_BACK + 1) == w;
    PlainIsRecoverable(codec, Snapshot(true, w, w));
    assert WritesMistakable(codec, env, o.clock + RENAME_BACK) <==> IsMistakable(codec, w);
  }

  // A codec small enough to compute with: two contents shrink, all others grow.
  const ZEROS: Text := [0, 0, 0, 0, 0, 0, 0, 0]
  const LOOKALIKE: Text := MAGIC + [0, 0, 0, 0]

  function ToyEncode(x: Text): Text {
    if x == ZEROS then MAGIC else if x == LOOKALIKE then MAGIC + [1] else MAGIC + [0] + x
  }

  function ToyDecode(s: Text): Option<Text> {
    if !HasMagic(s) then None
    else if s[4..] == [] then Some(ZEROS)
    else if s[4] == 1 then Some(LOOKALIKE)
    else Some(s[5..])
  }

  const TOY := Codec(ToyEncode, ToyDecode)

  lemma ToyIsFaithful()
    ensures IsFaithful(TOY)
  {
    forall x: Text ensures TOY.decode(TOY.encode(x)) == Some(x) && HasMagic(TOY.encode(x)) {
      var s := ToyEncode(x);
      assert s[..4] == MAGIC;
      if x != ZEROS && x != LOOKALIKE { assert s[5..] == x; }
    }
  }

  lemma LookalikeIsMistakable()
    ensures IsMistakable(TOY, LOOKALIKE) && !HasMagic(ZEROS)
  {
    assert LOOKALIKE[..4] == MAGIC && LOOKALIKE[4..] == [0, 0, 0, 0];
    assert |LOOKALIKE[5..]| == 3;
    assert ZEROS[0] != MAGIC[0];
  }

  const CALM := Turn(None, false, [], false)

  /** A writer that puts something mistakable into the marked file. */
  function LateWriter(k: nat): Turn {
    if k == LAST_CHECK then CALM.(write := Some(LOOKALIKE)) else CALM
  }

  /** A header that cannot be read. */
  function BlindHeader(k: nat): Turn {
    if k == HEADER then CALM.(fails := true) else CALM
  }

  lemma MarksIfCalm(env: Env, data: Text)
    requires data == ZEROS || (data == LOOKALIKE && env(HEADER).fails)
    requires forall k: nat :: k <= MARK ==> env(k).write.None? && !env(k).replaced && (k != HEADER ==> !env(k).fails)
    ensures SetsMarker(TOY, env, data, 0, 8, true) && AtMark(env, data, 0) == data
  {
    StillKeeps(env, data, 0, 0, FSTAT + 1);
    StillKeeps(env, data, 0, 0, MARK + 1);
    LookalikeIsMistakable();
    assert |ToyEncode(data)| < 8;
  }

  /** An attempt on calm turns but for a late write goes through a state the restore rule gets
    * wrong. */
  method LateWriterRun(env: Env) returns (f: StoredFile)
    requires env == LateWriter
    ensures f.codec == TOY && f.env == env && f.SomeLost()
  {
    ToyIsFaithful();
    LookalikeIsMistakable();
    MarksIfCalm(env, ZEROS);
    hide IsFaithful, IsMistakable, SetsMarker, Swaps;
    f := new StoredFile(TOY, env, ZEROS);
    var r := f.CompressBeforePublish(8, true);
    assert WritesMistakable(TOY, env, LAST_CHECK);
  }

  /** So does one on a lookalike whose header cannot be read. */
  method BlindHeaderRun(env: Env) returns (f: StoredFile)
    requires env == BlindHeader
    ensures f.codec == TOY && f.env == env && f.SomeLost()
  {
    ToyIsFaithful();
    LookalikeIsMistakable();
    MarksIfCalm(env, LOOKALIKE);
    hide IsFaithful, IsMistakable, SetsMarker, Swaps;
    f := new StoredFile(TOY, env, LOOKALIKE);
    var r := f.CompressBeforePublish(8, true);
  }

  /** A writer whose bytes come in the turn of the rename, and go with the file it replaces. */
  function OverwrittenWriter(k: nat): Turn {
    if k == RENAME then CALM.(write := Some([7])) else CALM
  }

  lemma OverwrittenLoses(env: Env)
    requires forall k: nat :: k != RENAME ==> env(k) == CALM
    requires env(RENAME) == CALM.(write := Some([7]))
    ensures Loses(TOY, env, ZEROS, 0, 8, true) && Swaps(TOY, env, ZEROS, 0, 8, true)
    ensures Measured(env, ZEROS, 0) == ZEROS && After(env, ZEROS, 0, End(env, 0)) == [7]
  {
    MarksIfCalm(env, ZEROS);
    StillKeeps(env, ZEROS, 0, 0, FSTAT + 1);
    assert After(env, ZEROS, 0, 0) == ZEROS;
    hide SetsMarker, IsExposed;
  }

  /** And so does one that swaps the file while somebody writes it. */
  method OverwrittenWriterRun(env: Env) returns (f: StoredFile)
    requires env == OverwrittenWriter
    ensures f.codec == TOY && f.env == env && f.SomeLost() && f.truth == [7] && f.data == TOY.encode(ZEROS)
  {
    ToyIsFaithful();
    OverwrittenLoses(env);
    hide IsFaithful, IsMistakable, SetsMarker, Swaps, Loses, Measured, After, End;
    f := new StoredFile(TOY, env, ZEROS);
    var r := f.CompressBeforePublish(8, true);
  }
}
