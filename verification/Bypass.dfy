/** Whether a deleting process is exempt by its own or an ancestor's name: the supervisor's walk
  * with its cached session ancestry (crates/trashd-seccomp/src/supervisor.rs), and the preload's
  * walk (crates/trashd-preload/src/lib.rs), decide alike. */
module Bypass {
  import opened Wrappers

  /** Ancestors examined above the deleting process. */
  const BYPASS_DEPTH := 10
  const REFRESH := 5

  datatype Exe = Exe(path: string, name: Option<string>)

  /** What `/proc` says of one process; `comm` is read on its own only when `stat` cannot be. */
  datatype Proc = Proc(exe: Option<Exe>, stat: Option<(string, nat)>, comm: Option<string>)

  type Table = nat -> Proc

  function ExeName(p: Proc): seq<string> {
    if p.exe.Some? && p.exe.value.name.Some? then [p.exe.value.name.value] else []
  }

  /** level_names: the names the supervisor matches. */
  function Names(p: Proc): seq<string> {
    ExeName(p) + (if p.stat.Some? then [p.stat.value.0] else if p.comm.Some? then [p.comm.value] else [])
  }

  /** process_names: the names the preload matches. */
  function PreloadNames(p: Proc): seq<string> {
    ExeName(p) + (if p.stat.Some? then [p.stat.value.0] else [])
  }

  /** The parent to look at next: none at init, on a cycle, or without a stat line. */
  function NextUp(p: Proc, pid: nat): Option<nat> {
    if p.stat.Some? && p.stat.value.1 > 1 && p.stat.value.1 != pid then Some(p.stat.value.1) else None
  }

  predicate Hits(names: seq<string>, bypass: seq<string>) {
    exists i :: 0 <= i < |names| && names[i] in bypass
  }

  /** The ancestor `d` levels above `pid`. */
  function Up(t: Table, pid: nat, d: nat): Option<nat>
    decreases d
  {
    if d == 0 then Some(pid)
    else match NextUp(t(pid), pid) case None => None case Some(parent) => Up(t, parent, d - 1)
  }

  /** Some name among the first `levels` levels is exempt. */
  ghost predicate Within(t: Table, namesOf: Proc -> seq<string>, bypass: seq<string>, pid: nat, levels: nat) {
    exists d: nat :: d < levels && HitsAt(t, namesOf, bypass, pid, d)
  }

  predicate HitsAt(t: Table, namesOf: Proc -> seq<string>, bypass: seq<string>, pid: nat, d: nat) {
    Up(t, pid, d).Some? && Hits(namesOf(t(Up(t, pid, d).value)), bypass)
  }

  predicate StartsWithAny(path: string, prefixes: seq<string>) {
    exists i :: 0 <= i < |prefixes| && prefixes[i] <= path
  }

  predicate ExePathHits(p: Proc, prefixes: seq<string>) {
    p.exe.Some? && StartsWithAny(p.exe.value.path, prefixes)
  }

  /** The rule both layers stand for. */
  ghost predicate IsExempt(t: Table, namesOf: Proc -> seq<string>, bypass: seq<string>, paths: seq<string>, pid: nat) {
    ExePathHits(t(pid), paths) || Within(t, namesOf, bypass, pid, BYPASS_DEPTH + 1)
  }

  /** One level, then the ones above it. */
  lemma WithinStep(t: Table, namesOf: Proc -> seq<string>, bypass: seq<string>, pid: nat, levels: nat)
    requires levels > 0
    ensures Within(t, namesOf, bypass, pid, levels) <==>
            || Hits(namesOf(t(pid)), bypass)
            || (NextUp(t(pid), pid).Some? && Within(t, namesOf, bypass, NextUp(t(pid), pid).value, levels - 1))
  {
    if Hits(namesOf(t(pid)), bypass) {
      assert HitsAt(t, namesOf, bypass, pid, 0);
    } else if Within(t, namesOf, bypass, pid, levels) {
      var d: nat :| d < levels && HitsAt(t, namesOf, bypass, pid, d);
      assert HitsAt(t, namesOf, bypass, NextUp(t(pid), pid).value, d - 1);
    } else if NextUp(t(pid), pid).Some? {
      var parent := NextUp(t(pid), pid).value;
      if Within(t, namesOf, bypass, parent, levels - 1) {
        var d: nat :| d < levels - 1 && HitsAt(t, namesOf, bypass, parent, d);
        assert HitsAt(t, namesOf, bypass, pid, d + 1);
      }
    }
  }

  lemma NothingWithinZero(t: Table, namesOf: Proc -> seq<string>, bypass: seq<string>, pid: nat)
    ensures !Within(t, namesOf, bypass, pid, 0)
    ensures bypass == [] ==> forall levels: nat :: !Within(t, namesOf, bypass, pid, levels)
  {
  }

  // ---------------------------------------------------------------- what being exempt means

  /** What a stat line gives as a parent to go on with: not 0 or init, and not the process itself. */
  predicate IsParent(t: Table, pid: nat, parent: nat) {
    t(pid).stat.Some? && t(pid).stat.value.1 == parent && parent > 1 && parent != pid
  }

  /** The process, its parent, and so on. */
  predicate IsLineage(t: Table, pid: nat, chain: seq<nat>)
    decreases |chain|
  {
    && chain != [] && chain[0] == pid
    && (|chain| > 1 ==> IsParent(t, pid, chain[1]) && IsLineage(t, chain[1], chain[1..]))
  }

  /** The names a process goes by: its executable's, and the one in its stat line. */
  predicate GoesBy(p: Proc, name: string) {
    || (p.exe.Some? && p.exe.value.name == Some(name))
    || (p.stat.Some? && p.stat.value.0 == name)
  }

  /** Without a stat line the supervisor has the name file. */
  predicate GoesByFile(p: Proc, name: string) {
    GoesBy(p, name) || (p.stat.None? && p.comm == Some(name))
  }

  lemma {:induction false} LineageIsUp(t: Table, pid: nat, chain: seq<nat>)
    requires IsLineage(t, pid, chain)
    ensures Up(t, pid, |chain| - 1) == Some(chain[|chain| - 1])
    decreases |chain|
  {
    if |chain| > 1 { LineageIsUp(t, chain[1], chain[1..]); }
  }

  lemma {:induction false} UpIsLineage(t: Table, pid: nat, d: nat) returns (chain: seq<nat>)
    requires Up(t, pid, d).Some?
    ensures IsLineage(t, pid, chain) && |chain| == d + 1 && chain[d] == Up(t, pid, d).value
    decreases d
  {
    if d == 0 {
      chain := [pid];
    } else {
      var rest := UpIsLineage(t, NextUp(t(pid), pid).value, d - 1);
      chain := [pid] + rest;
      assert chain[1..] == rest;
    }
  }

  lemma PreloadNamesAre(p: Proc, bypass: seq<string>)
    ensures Hits(PreloadNames(p), bypass) <==> exists name :: name in bypass && GoesBy(p, name)
  {
    var names := PreloadNames(p);
    if name :| name in bypass && GoesBy(p, name) {
      if p.stat.Some? && p.stat.value.0 == name {
        assert names[|names| - 1] in bypass;
      } else {
        assert names[0] in bypass;
      }
    }
    if Hits(names, bypass) {
      var i :| 0 <= i < |names| && names[i] in bypass;
      assert GoesBy(p, names[i]);
    }
  }

  lemma NamesAre(p: Proc, bypass: seq<string>)
    ensures Hits(Names(p), bypass) <==> exists name :: name in bypass && GoesByFile(p, name)
  {
    hide Names, PreloadNames;
    NamesDiffer(p, bypass);
    PreloadNamesAre(p, bypass);
    if name :| name in bypass && GoesBy(p, name) { assert GoesByFile(p, name); }
    if OnlyNamedByFile(p, bypass) { assert GoesByFile(p, p.comm.value); }
  }

  /** Of the process and at most ten parents above it one is hit. */
  lemma WithinIsLineage(t: Table, namesOf: Proc -> seq<string>, bypass: seq<string>, pid: nat)
    ensures Within(t, namesOf, bypass, pid, BYPASS_DEPTH + 1) <==>
            exists chain :: IsLineage(t, pid, chain) && |chain| <= 11 && Hits(namesOf(t(chain[|chain| - 1])), bypass)
  {
    hide Up, Hits;
    if d: nat :| d < BYPASS_DEPTH + 1 && HitsAt(t, namesOf, bypass, pid, d) {
      var chain := UpIsLineage(t, pid, d);
    }
    if chain :| IsLineage(t, pid, chain) && |chain| <= 11 && Hits(namesOf(t(chain[|chain| - 1])), bypass) {
      LineageIsUp(t, pid, chain);
      assert HitsAt(t, namesOf, bypass, pid, |chain| - 1);
    }
  }

  /** The preload's rule: the executable is in an exempt place, or of the process and at most ten
    * parents above it one goes by an exempt name. */
  lemma PreloadExempts(t: Table, bypass: seq<string>, paths: seq<string>, pid: nat)
    ensures IsExempt(t, PreloadNames, bypass, paths, pid) <==>
            || (t(pid).exe.Some? && exists i :: 0 <= i < |paths| && paths[i] <= t(pid).exe.value.path)
            || exists chain, name ::
                 && IsLineage(t, pid, chain) && |chain| <= 11
                 && name in bypass && GoesBy(t(chain[|chain| - 1]), name)
  {
    hide Hits, PreloadNames, GoesBy, Within;
    WithinIsLineage(t, PreloadNames, bypass, pid);
    forall chain | IsLineage(t, pid, chain)
      ensures Hits(PreloadNames(t(chain[|chain| - 1])), bypass) <==>
              exists name :: name in bypass && GoesBy(t(chain[|chain| - 1]), name)
    {
      PreloadNamesAre(t(chain[|chain| - 1]), bypass);
    }
  }

  /** The supervisor's rule: the same, with its names. */
  lemma SupervisorExempts(t: Table, bypass: seq<string>, paths: seq<string>, pid: nat)
    ensures IsExempt(t, Names, bypass, paths, pid) <==>
            || (t(pid).exe.Some? && exists i :: 0 <= i < |paths| && paths[i] <= t(pid).exe.value.path)
            || exists chain, name ::
                 && IsLineage(t, pid, chain) && |chain| <= 11
                 && name in bypass && GoesByFile(t(chain[|chain| - 1]), name)
  {
    hide Hits, Names, GoesByFile, Within;
    WithinIsLineage(t, Names, bypass, pid);
    forall chain | IsLineage(t, pid, chain)
      ensures Hits(Names(t(chain[|chain| - 1])), bypass) <==>
              exists name :: name in bypass && GoesByFile(t(chain[|chain| - 1]), name)
    {
      NamesAre(t(chain[|chain| - 1]), bypass);
    }
  }

  // ---------------------------------------------------------------- the cached session ancestry

  /** The names of the levels from `pid` up. */
  function Levels(t: Table, pid: Option<nat>, n: nat): (r: seq<seq<string>>)
    ensures |r| <= n
    decreases n
  {
    if n == 0 || pid.None? then []
    else [Names(t(pid.value))] + Levels(t, NextUp(t(pid.value), pid.value), n - 1)
  }

  predicate AnyLevelHits(names: seq<seq<string>>, levels: nat, bypass: seq<string>) {
    exists i :: 0 <= i < |names| && i < levels && Hits(names[i], bypass)
  }

  lemma {:induction false} LevelsAre(t: Table, pid: nat, n: nat, levels: nat, bypass: seq<string>)
    requires levels <= n
    ensures AnyLevelHits(Levels(t, Some(pid), n), levels, bypass) <==> Within(t, Names, bypass, pid, levels)
    decreases n
  {
    if levels == 0 {
      NothingWithinZero(t, Names, bypass, pid);
    } else {
      var names, up := Levels(t, Some(pid), n), NextUp(t(pid), pid);
      var rest := Levels(t, up, n - 1);
      WithinStep(t, Names, bypass, pid, levels);
      assert names[0] == Names(t(pid)) && names[1..] == rest;
      if up.Some? { LevelsAre(t, up.value, n - 1, levels - 1, bypass); }
      forall i | 0 <= i < |rest| ensures rest[i] == names[i + 1] { }
      if AnyLevelHits(names, levels, bypass) {
        var i :| 0 <= i < |names| && i < levels && Hits(names[i], bypass);
        if i > 0 { assert rest[i - 1] == names[i]; }
      }
    }
  }

  lemma LevelsStep(t: Table, cur: Option<nat>, n: nat, before: seq<seq<string>>)
    ensures before + Levels(t, cur, n) ==
            if n == 0 || cur.None? then before
            else before + [Names(t(cur.value))] + Levels(t, NextUp(t(cur.value), cur.value), n - 1)
  {
  }

  /** The names of eleven levels, the orchestrator first. */
  method ReadLevels(t: Table, orchestrator: nat) returns (names: seq<seq<string>>)
    ensures names == Levels(t, Some(orchestrator), BYPASS_DEPTH + 1)
  {
    hide Levels;
    names := [];
    var cur := Some(orchestrator);
    while cur.Some? && |names| <= BYPASS_DEPTH
      invariant |names| <= BYPASS_DEPTH + 1
      invariant names + Levels(t, cur, BYPASS_DEPTH + 1 - |names|) == Levels(t, Some(orchestrator), BYPASS_DEPTH + 1)
      decreases BYPASS_DEPTH + 1 - |names|
    {
      LevelsStep(t, cur, BYPASS_DEPTH + 1 - |names|, names);
      names := names + [Names(t(cur.value))];
      cur := NextUp(t(cur.value), cur.value);
    }
    LevelsStep(t, cur, BYPASS_DEPTH + 1 - |names|, names);
  }

  class SessionAncestry {
    const orchestrator: nat
    /** Names per level, the orchestrator first, and when they were read. */
    var cached: Option<(seq<seq<string>>, nat)>
    /** The process table they were read from. */
    ghost var taken: Table

    ghost predicate Valid()
      reads this
    {
      cached.Some? ==> cached.value.0 == Levels(taken, Some(orchestrator), BYPASS_DEPTH + 1)
    }

    constructor (orchestrator: nat)
      ensures Valid() && this.orchestrator == orchestrator && cached == None
    {
      this.orchestrator, cached := orchestrator, None;
    }

    predicate Fresh(now: nat)
      reads this
    {
      cached.Some? && now - cached.value.1 <= REFRESH
    }

    /** bypassed_within. */
    method BypassedWithin(t: Table, now: nat, levels: nat, bypass: seq<string>) returns (r: bool)
      requires Valid() && levels <= BYPASS_DEPTH + 1
      modifies this
      ensures Valid()
      ensures taken == (if old(cached.Some? && now <= cached.value.1 + 5) then old(taken) else t)
      ensures old(Fresh(now)) ==> cached == old(cached)
      ensures r <==> Within(taken, Names, bypass, orchestrator, levels)
    {
      hide Levels, Within, AnyLevelHits;
      if !Fresh(now) {
        var names := ReadLevels(t, orchestrator);
        cached, taken := Some((names, now)), t;
      }
      LevelsAre(taken, orchestrator, BYPASS_DEPTH + 1, levels, bypass);
      r := AnyLevelHits(cached.value.0, levels, bypass);
    }
  }

  /** The walk that goes over to the session ancestry where it meets the orchestrator. */
  ghost predicate Spliced(t: Table, taken: Table, orchestrator: Option<nat>, bypass: seq<string>, cur: nat, depth: nat)
    requires depth <= BYPASS_DEPTH + 1
    decreases BYPASS_DEPTH + 1 - depth
  {
    if depth > BYPASS_DEPTH then false
    else if depth > 0 && orchestrator == Some(cur) then Within(taken, Names, bypass, cur, BYPASS_DEPTH + 1 - depth)
    else
      || Hits(Names(t(cur)), bypass)
      || (NextUp(t(cur), cur).Some? && Spliced(t, taken, orchestrator, bypass, NextUp(t(cur), cur).value, depth + 1))
  }

  /** process_bypassed: for every process table, with or without a session ancestry. */
  method ProcessBypassed(t: Table, now: nat, pid: nat, bypass: seq<string>, paths: seq<string>,
                         session: SessionAncestry?) returns (r: bool)
    requires session != null ==> session.Valid()
    modifies session
    ensures session != null ==> session.Valid() && (session.taken == old(session.taken) || session.taken == t)
    ensures session != null && old(session.Fresh(now)) ==>
              session.taken == old(session.taken) && session.cached == old(session.cached)
    ensures session == null ==> (r <==> IsExempt(t, Names, bypass, paths, pid))
    // The ancestry used is at most as old as allowed, or read now.
    ensures session != null ==>
              var taken := if old(session.Fresh(now)) then old(session.taken) else t;
              r <==> ExePathHits(t(pid), paths) || Spliced(t, taken, Some(session.orchestrator), bypass, pid, 0)
    // So unless it changed since, the walk decides like the full one.
    ensures session != null
            && (!old(session.Fresh(now)) || SameAncestry(old(session.taken), t, session.orchestrator)) ==>
              (r <==> IsExempt(t, Names, bypass, paths, pid))
  {
    NothingWithinZero(t, Names, bypass, pid);
    ghost var orchestrator := if session == null then None else Some(session.orchestrator);
    ghost var used := if session == null || !session.Fresh(now) then t else session.taken;
    if session != null && SameAncestry(used, t, session.orchestrator) {
      SplicedIsFullWalk(t, used, session.orchestrator, bypass, pid, 0);
    }
    if bypass == [] { EmptyListSplices(t, used, orchestrator, bypass, pid, 0); }
    hide Within, SameAncestry;
    if bypass == [] && paths == [] {
      return false;
    }
    if paths != [] && ExePathHits(t(pid), paths) {
      return true;
    }
    if bypass == [] {
      return false;
    }
    var cur, depth := pid, 0;
    while depth <= BYPASS_DEPTH
      invariant depth <= BYPASS_DEPTH + 1
      invariant session != null ==>
                  session.Valid() && session.taken == old(session.taken) && session.cached == old(session.cached)
      invariant session == null ==>
                  (Within(t, Names, bypass, pid, BYPASS_DEPTH + 1) <==>
                   Within(t, Names, bypass, cur, BYPASS_DEPTH + 1 - depth))
      invariant session != null ==>
                  (Spliced(t, used, orchestrator, bypass, pid, 0)
                   <==> Spliced(t, used, orchestrator, bypass, cur, depth))
    {
      if depth > 0 && session != null && cur == session.orchestrator {
        r := session.BypassedWithin(t, now, BYPASS_DEPTH + 1 - depth, bypass);
        return;
      }
      WithinStep(t, Names, bypass, cur, BYPASS_DEPTH + 1 - depth);
      if Hits(Names(t(cur)), bypass) {
        return true;
      }
      var parent := NextUp(t(cur), cur);
      if parent.None? {
        return false;
      }
      cur, depth := parent.value, depth + 1;
    }
    NothingWithinZero(t, Names, bypass, cur);
    r := false;
  }

  lemma {:induction false} EmptyListSplices(t: Table, taken: Table, orchestrator: Option<nat>, bypass: seq<string>,
                                            cur: nat, depth: nat)
    requires bypass == [] && depth <= BYPASS_DEPTH + 1
    ensures !Spliced(t, taken, orchestrator, bypass, cur, depth)
    decreases BYPASS_DEPTH + 1 - depth
  {
    NothingWithinZero(taken, Names, bypass, cur);
    if depth <= BYPASS_DEPTH && NextUp(t(cur), cur).Some? {
      EmptyListSplices(t, taken, orchestrator, bypass, NextUp(t(cur), cur).value, depth + 1);
    }
  }

  /** The ancestry that was read is still the same: the same ancestors with the same names. */
  ghost predicate SameAncestry(taken: Table, t: Table, orchestrator: nat) {
    forall d: nat :: d <= BYPASS_DEPTH ==>
      && Up(taken, orchestrator, d) == Up(t, orchestrator, d)
      && (Up(t, orchestrator, d).Some? ==>
            Names(taken(Up(t, orchestrator, d).value)) == Names(t(Up(t, orchestrator, d).value)))
  }

  lemma SameWithin(taken: Table, t: Table, bypass: seq<string>, orchestrator: nat, levels: nat)
    requires SameAncestry(taken, t, orchestrator) && levels <= BYPASS_DEPTH + 1
    ensures Within(taken, Names, bypass, orchestrator, levels) <==> Within(t, Names, bypass, orchestrator, levels)
  {
    forall d: nat | d < levels
      ensures HitsAt(taken, Names, bypass, orchestrator, d) <==> HitsAt(t, Names, bypass, orchestrator, d)
    {
      assert Up(taken, orchestrator, d) == Up(t, orchestrator, d);
    }
  }

  /** Stopping at the orchestrator and using what was read of its ancestry decides exactly like the
    * full walk, wherever the orchestrator stands above the process, and if it does not. */
  lemma {:induction false} SplicedIsFullWalk(t: Table, taken: Table, orchestrator: nat, bypass: seq<string>,
                                             cur: nat, depth: nat)
    requires depth <= BYPASS_DEPTH + 1 && SameAncestry(taken, t, orchestrator)
    ensures Spliced(t, taken, Some(orchestrator), bypass, cur, depth) <==>
            Within(t, Names, bypass, cur, BYPASS_DEPTH + 1 - depth)
    decreases BYPASS_DEPTH + 1 - depth
  {
    if depth > BYPASS_DEPTH {
      NothingWithinZero(t, Names, bypass, cur);
    } else if depth > 0 && orchestrator == cur {
      SameWithin(taken, t, bypass, orchestrator, BYPASS_DEPTH + 1 - depth);
    } else {
      WithinStep(t, Names, bypass, cur, BYPASS_DEPTH + 1 - depth);
      if NextUp(t(cur), cur).Some? {
        SplicedIsFullWalk(t, taken, orchestrator, bypass, NextUp(t(cur), cur).value, depth + 1);
      }
    }
  }

  // ---------------------------------------------------------------- the preload's walk

  /** process_is_bypassed. */
  method ProcessIsBypassed(t: Table, start: nat, bypass: seq<string>, paths: seq<string>) returns (r: bool)
    ensures r <==> IsExempt(t, PreloadNames, bypass, paths, start)
  {
    NothingWithinZero(t, PreloadNames, bypass, start);
    if paths == [] && bypass == [] {
      return false;
    }
    var pid, depth := start, 0;
    while depth <= BYPASS_DEPTH
      invariant depth <= BYPASS_DEPTH + 1 && (depth == 0 ==> pid == start)
      invariant depth > 0 ==> !ExePathHits(t(start), paths)
      invariant Within(t, PreloadNames, bypass, start, BYPASS_DEPTH + 1) <==>
                Within(t, PreloadNames, bypass, pid, BYPASS_DEPTH + 1 - depth)
    {
      if depth == 0 && ExePathHits(t(pid), paths) {
        return true;
      }
      if bypass == [] {
        return false;
      }
      WithinStep(t, PreloadNames, bypass, pid, BYPASS_DEPTH + 1 - depth);
      if Hits(PreloadNames(t(pid)), bypass) {
        return true;
      }
      var parent := NextUp(t(pid), pid);
      if parent.None? {
        return false;
      }
      pid, depth := parent.value, depth + 1;
    }
    NothingWithinZero(t, PreloadNames, bypass, pid);
    r := false;
  }

  /** A level only the supervisor can name: without a stat line it still reads the name file. */
  predicate OnlyNamedByFile(p: Proc, bypass: seq<string>) {
    p.stat.None? && p.comm.Some? && p.comm.value in bypass
  }

  lemma NamesDiffer(p: Proc, bypass: seq<string>)
    ensures Hits(Names(p), bypass) <==> Hits(PreloadNames(p), bypass) || OnlyNamedByFile(p, bypass)
  {
    var all, few := Names(p), PreloadNames(p);
    assert few <= all;
    if Hits(few, bypass) {
      var i :| 0 <= i < |few| && few[i] in bypass;
      assert all[i] in bypass;
    } else if OnlyNamedByFile(p, bypass) {
      assert all[|all| - 1] in bypass;
    } else {
      forall i | 0 <= i < |all| ensures all[i] !in bypass {
        assert i < |few| ==> few[i] == all[i];
      }
    }
  }

  /** The two layers decide alike for every process tree, unless a level's stat line cannot be read
    * while its name file can, and that name is the only exempt one. */
  lemma LayersDecideAlike(t: Table, bypass: seq<string>, paths: seq<string>, pid: nat)
    ensures IsExempt(t, Names, bypass, paths, pid) <==>
            || IsExempt(t, PreloadNames, bypass, paths, pid)
            || exists d: nat ::
                 d <= BYPASS_DEPTH && Up(t, pid, d).Some? && OnlyNamedByFile(t(Up(t, pid, d).value), bypass)
  {
    forall d: nat | d <= BYPASS_DEPTH && Up(t, pid, d).Some?
      ensures HitsAt(t, Names, bypass, pid, d) <==>
              HitsAt(t, PreloadNames, bypass, pid, d) || OnlyNamedByFile(t(Up(t, pid, d).value), bypass)
    {
      NamesDiffer(t(Up(t, pid, d).value), bypass);
    }
    if Within(t, Names, bypass, pid, BYPASS_DEPTH + 1) {
      var d: nat :| d < BYPASS_DEPTH + 1 && HitsAt(t, Names, bypass, pid, d);
      assert HitsAt(t, PreloadNames, bypass, pid, d) || OnlyNamedByFile(t(Up(t, pid, d).value), bypass);
    }
    if Within(t, PreloadNames, bypass, pid, BYPASS_DEPTH + 1) {
      var d: nat :| d < BYPASS_DEPTH + 1 && HitsAt(t, PreloadNames, bypass, pid, d);
      assert HitsAt(t, Names, bypass, pid, d);
    }
    if d: nat :| d <= BYPASS_DEPTH && Up(t, pid, d).Some? && OnlyNamedByFile(t(Up(t, pid, d).value), bypass) {
      assert HitsAt(t, Names, bypass, pid, d);
    }
  }

  /** A tree on which they differ: the process is called git, and its stat line cannot be read. */
  lemma LayersDiffer(t: Table, pid: nat)
    requires t(pid) == Proc(None, None, Some("git"))
    ensures IsExempt(t, Names, ["git"], [], pid) && !IsExempt(t, PreloadNames, ["git"], [], pid)
  {
    assert Names(t(pid))[0] in ["git"];
    WithinStep(t, Names, ["git"], pid, BYPASS_DEPTH + 1);
    WithinStep(t, PreloadNames, ["git"], pid, BYPASS_DEPTH + 1);
  }

  // ---------------------------------------------------------------- the preload's cached verdict

  /** bypass_cache_key: both process numbers and the verdict in one word. */
  function CacheKey(pid: bv64, ppid: bv64, bypassed: bool): bv64 {
    (pid << 32) | (ppid << 1) | (if bypassed then 1 else 0)
  }

  function PidPart(word: bv64): bv64 { word >> 32 }

  function ParentPart(word: bv64): bv64 { (word >> 1) & 0x7FFF_FFFF }

  predicate VerdictPart(word: bv64) { word & 1 != 0 }

  /** bypass_cache_hit. */
  function CacheHit(cached: bv64, pid: bv64, ppid: bv64): Option<bool> {
    if PidPart(cached) == pid && ParentPart(cached) == ppid then Some(VerdictPart(cached)) else None
  }

  const U32_MAX: bv64 := 0xFFFF_FFFF
  const PARENT_MAX: bv64 := 0x7FFF_FFFF

  /** What of both numbers the word holds: the top bit of a parent runs into the process number. */
  function StoredPid(pid: bv64, ppid: bv64): bv64 { pid | (ppid >> 31) }

  function StoredParent(ppid: bv64): bv64 { ppid & 0x7FFF_FFFF }

  /** The cached word answers for one process and parent. They are the ones it was made for if and
    * only if the parent fits beside the verdict in 31 bits. */
  lemma CachedVerdictIsOwn(pid: bv64, ppid: bv64, bypassed: bool, otherPid: bv64, otherPpid: bv64)
    requires pid <= U32_MAX && ppid <= U32_MAX && otherPid <= U32_MAX && otherPpid <= U32_MAX
    ensures CacheHit(CacheKey(pid, ppid, bypassed), otherPid, otherPpid) ==
            if otherPid == StoredPid(pid, ppid) && otherPpid == StoredParent(ppid) then Some(bypassed) else None
    ensures CacheHit(CacheKey(pid, ppid, bypassed), pid, ppid) == Some(bypassed) <==> ppid <= PARENT_MAX
    ensures ppid <= PARENT_MAX ==> StoredPid(pid, ppid) == pid && StoredParent(ppid) == ppid
  {
    hide CacheKey, PidPart, ParentPart, VerdictPart, StoredPid, StoredParent;
    KeyParts(pid, ppid, bypassed);
    StoredParts(pid, ppid);
  }

  lemma KeyParts(pid: bv64, ppid: bv64, bypassed: bool)
    requires pid <= U32_MAX && ppid <= U32_MAX
    ensures var key := CacheKey(pid, ppid, bypassed);
            && PidPart(key) == StoredPid(pid, ppid) && ParentPart(key) == StoredParent(ppid)
            && VerdictPart(key) == bypassed
  {
    PartsOf(pid, ppid, 0);
    PartsOf(pid, ppid, 1);
  }

  lemma PartsOf(pid: bv64, ppid: bv64, bit: bv64)
    requires pid <= U32_MAX && ppid <= U32_MAX && bit <= 1
    ensures var key := (pid << 32) | (ppid << 1) | bit;
            key >> 32 == pid | (ppid >> 31) && (key >> 1) & 0x7FFF_FFFF == ppid & 0x7FFF_FFFF && key & 1 == bit
  {
  }

  lemma StoredParts(pid: bv64, ppid: bv64)
    requires pid <= U32_MAX && ppid <= U32_MAX
    ensures StoredParent(ppid) == ppid <==> ppid <= PARENT_MAX
    ensures ppid <= PARENT_MAX ==> StoredPid(pid, ppid) == pid
  {
  }
}
