/** The orchestrator's wait loop (crates/trashd-seccomp/src/main.rs,
  * `wait_for_children` and `signal_recipients`).
  *
  * The loop runs beside a process forest in which tasks fork, exit, are adopted
  * and are traced.  Each system call of the loop is one action; the forest may
  * move between any two of them.
  */
module WaitLoop {
  import opened Wrappers

  type Pid = nat

  /** The orchestrator itself, a child subreaper. */
  const ME: Pid := 0

  /** `held`: a tracer keeps the zombie, so it cannot be waited for yet. */
  datatype Condition = Running | Zombie(status: int, held: bool)

  datatype Proc = Proc(parent: Pid, condition: Condition)

  datatype Opened = GotDescriptor | NoSuchProcess | NoDescriptor

  datatype Phase =
    | Scan                                       // about to read the child list
    | Reap(todo: set<Pid>, reaped: bool)         // waiting for each candidate
    | Open(pid: Pid, todo: set<Pid>, reaped: bool)
    | Deliver
    | Sending(signal: int, to: set<Pid>)
    | Poll
    | Returned(status: int)

  datatype State = State(
    // the forest
    procs: map<Pid, Proc>,                       // every unreaped descendant
    nextPid: Pid,
    shield: set<Pid>,                            // the command and all it forked, ever
    exits: map<Pid, int>,                        // how each process ended
    original: Pid,
    watchdog: Option<Pid>,
    // the loop
    phase: Phase,
    targets: set<Pid>,                           // children watched through a pidfd
    untracked: set<Pid>,                         // children watched through SIGCHLD only
    parked: set<Pid>,
    fired: set<Pid>,
    refresh: bool,
    pending: seq<int>,
    status: Option<int>,
    lastFired: set<Pid>,                         // what the last poll reported
    statusLost: bool,
    signalled: seq<(Pid, bool)>                  // receivers, and whether each was an unreaped child
  )

  datatype Action =
    | Fork(parent: Pid)
    | Exit(p: Pid, status: int, held: bool, heir: Pid)
    | ReapedByParent(p: Pid)
    | Release(p: Pid)
    | ReadChildren
    | WaitFor(p: Pid)
    | OpenPidfd(outcome: Opened)
    | EndScan
    | NextSignal(session: set<Pid>)
    | SendTo(p: Pid)
    | StartPoll
    | PollReturns(ready: set<Pid>, child: bool, forwarded: seq<int>, woken: bool)

  predicate IsMyChild(s: State, p: Pid) {
    p in s.procs && s.procs[p].parent == ME
  }

  function MyChildren(s: State): set<Pid> {
    set p | p in s.procs && s.procs[p].parent == ME
  }

  /** Orphans of `p` go to the heir, its nearest living subreaper above. */
  function Reparent(procs: map<Pid, Proc>, p: Pid, heir: Pid): map<Pid, Proc> {
    map q | q in procs :: if procs[q].parent == p then procs[q].(parent := heir) else procs[q]
  }

  /** The subreaper above `p`: the orchestrator, or a living task of p's own lineage. */
  predicate CanInherit(s: State, p: Pid, heir: Pid) {
    heir == ME ||
    (heir in s.procs && heir < p && s.procs[heir].condition.Running? && (heir in s.shield <==> p in s.shield))
  }

  /** What is waited for in one pass. */
  function Candidates(s: State): set<Pid> {
    (set p | p in MyChildren(s) && Some(p) != s.watchdog)
    + s.targets + s.untracked + (if s.status.None? then {s.original} else {})
  }

  /** Who receives a forwarded signal. */
  function Recipients(s: State, session: set<Pid>): set<Pid> {
    if s.original in s.targets + s.untracked then {s.original}
    else (s.targets + s.untracked) * session
  }

  /** waitpid(p, WNOHANG) and what the loop makes of it. */
  function WaitStep(s: State, p: Pid, todo: set<Pid>, reaped: bool): State {
    if IsMyChild(s, p) then
      var c := s.procs[p].condition;
      if c.Zombie? && !c.held then
        s.(procs := s.procs - {p}, targets := s.targets - {p}, untracked := s.untracked - {p},
           status := if p == s.original && s.status.None? then Some(c.status) else s.status,
           phase := Reap(todo - {p}, true))
      else if p in s.targets then s.(phase := Reap(todo - {p}, reaped))
      else s.(phase := Open(p, todo - {p}, reaped))
    else
      // ECHILD: no longer ours to reap.
      s.(targets := s.targets - {p}, untracked := s.untracked - {p}, parked := s.parked - {p},
         status := if p == s.original && s.status.None? then Some(1) else s.status,
         statusLost := s.statusLost || (p == s.original && s.status.None?),
         phase := Reap(todo - {p}, reaped))
  }

  function ScanEnded(s: State, reaped: bool): State {
    var t := s.(parked := s.parked + (s.fired * s.targets), fired := {});
    if reaped then t.(phase := Scan)
    else if t.targets == {} && t.untracked == {} && t.status.Some? then t.(phase := Returned(t.status.value))
    else t.(refresh := false, phase := Deliver)
  }

  function Apply(s: State, a: Action): Option<State> {
    match a
    case Fork(parent) =>
      if parent in s.procs && s.procs[parent].condition.Running?
      then Some(s.(procs := s.procs[s.nextPid := Proc(parent, Running)], nextPid := s.nextPid + 1,
                   shield := if parent in s.shield then s.shield + {s.nextPid} else s.shield))
      else None
    case Exit(p, status, held, heir) =>
      if p in s.procs && s.procs[p].condition.Running? && CanInherit(s, p, heir)
      then Some(s.(procs := Reparent(s.procs, p, heir)[p := s.procs[p].(condition := Zombie(status, held))],
                   exits := s.exits[p := status]))
      else None
    case ReapedByParent(p) =>
      if p in s.procs && s.procs[p].parent != ME && s.procs[p].condition.Zombie?
      then Some(s.(procs := s.procs - {p})) else None
    case Release(p) =>
      if p in s.procs && s.procs[p].condition.Zombie?
      then Some(s.(procs := s.procs[p := s.procs[p].(condition := s.procs[p].condition.(held := false))])) else None
    case ReadChildren =>
      if s.phase.Scan? then Some(s.(phase := Reap(Candidates(s), false))) else None
    case WaitFor(p) =>
      if s.phase.Reap? && p in s.phase.todo then Some(WaitStep(s, p, s.phase.todo, s.phase.reaped)) else None
    case OpenPidfd(outcome) =>
      if s.phase.Open? then
        var p, todo := s.phase.pid, s.phase.todo;
        (match outcome
         case GotDescriptor =>
           Some(s.(targets := s.targets + {p}, untracked := s.untracked - {p}, phase := Reap(todo, s.phase.reaped)))
         case NoSuchProcess => Some(s.(phase := Reap(todo, true)))
         case NoDescriptor => Some(s.(untracked := s.untracked + {p}, phase := Reap(todo, s.phase.reaped))))
      else None
    case EndScan =>
      if s.phase.Reap? && s.phase.todo == {} then Some(ScanEnded(s, s.phase.reaped)) else None
    case NextSignal(session) =>
      if s.phase.Deliver? && s.pending != []
      then Some(s.(pending := s.pending[1..], phase := Sending(s.pending[0], Recipients(s, session)))) else None
    case SendTo(p) =>
      if s.phase.Sending? && p in s.phase.to
      then Some(s.(signalled := s.signalled + [(p, IsMyChild(s, p))],
                   phase := if s.phase.to == {p} then Deliver else s.phase.(to := s.phase.to - {p})))
      else if s.phase.Sending? && s.phase.to == {} then Some(s.(phase := Deliver))
      else None
    case StartPoll =>
      if s.phase.Deliver? && s.pending == [] then Some(s.(phase := Poll)) else None
    case PollReturns(ready, child, forwarded, woken) =>
      if s.phase.Poll? && ready <= s.targets - s.parked
      then
        var refresh := s.refresh || child || forwarded != [] || woken || ready != {};
        Some(s.(parked := if child then {} else s.parked, pending := s.pending + forwarded,
                fired := s.fired + ready, lastFired := ready, refresh := refresh,
                phase := if refresh then Scan else Deliver))
      else None
  }

  function Exec(s: State, actions: seq<Action>): Option<State>
    decreases |actions|
  {
    if actions == [] then Some(s)
    else
      match Apply(s, actions[0])
      case None => None
      case Some(t) => Exec(t, actions[1..])
  }

  /** The command is running, and possibly the watchdog; nothing is watched yet. */
  function Start(watchdog: bool): State {
    var procs := if watchdog then map[1 := Proc(ME, Running), 2 := Proc(ME, Running)] else map[1 := Proc(ME, Running)];
    State(procs, 3, {1}, map[], 1, if watchdog then Some(2) else None,
          Scan, {}, {}, {}, {}, true, [], None, {}, false, [])
  }

  // ---------------------------------------------------------------- the forest

  /** Parents are older and alive, and a lineage stays within itself. */
  predicate ForestOk(s: State) {
    && ME !in s.procs && s.nextPid > ME
    && (forall p :: p in s.procs ==>
          && p < s.nextPid && s.procs[p].parent < p
          && (s.procs[p].parent != ME ==>
                && s.procs[p].parent in s.procs && s.procs[s.procs[p].parent].condition.Running?
                && (s.procs[p].parent in s.shield <==> p in s.shield))
          && (s.procs[p].condition.Zombie? ==> p in s.exits && s.exits[p] == s.procs[p].condition.status)
          && (s.procs[p].condition.Running? ==> p !in s.exits))
    && (forall p :: p in s.shield ==> p < s.nextPid)
    && (forall p :: p in s.exits ==> p < s.nextPid)
    && (s.watchdog.Some? ==> s.watchdog.value !in s.shield && s.watchdog.value < s.nextPid)
  }

  /** No process of the protected command is left, not even a zombie. */
  predicate ShieldEmpty(s: State) {
    forall p :: p in s.shield ==> p !in s.procs
  }

  /** A living lineage has a member the orchestrator can see: its oldest one. */
  lemma {:induction false} OldestIsMine(s: State, p: Pid)
    requires ForestOk(s) && p in s.shield && p in s.procs
    ensures exists q :: q in s.shield && q in MyChildren(s)
    decreases p
  {
    if s.procs[p].parent == ME {
      assert p in MyChildren(s);
    } else {
      OldestIsMine(s, s.procs[p].parent);
    }
  }

  // ---------------------------------------------------------------- what the loop keeps

  /** Processes the loop is about to call on. */
  predicate InHand(phase: Phase, p: Pid) {
    match phase
    case Reap(todo, _) => p in todo
    case Open(pid, todo, _) => p == pid || p in todo
    case Sending(_, to) => p in to
    case _ => false
  }

  predicate IsWatched(s: State, p: Pid) {
    p in s.targets || p in s.untracked || InHand(s.phase, p)
  }

  /** A pass that reaped nothing and watches nothing has seen that nothing is left. */
  predicate Scanned(s: State) {
    match s.phase
    case Reap(todo, reaped) => !reaped && todo == {} && s.targets == {} && s.untracked == {} ==> ShieldEmpty(s)
    case Returned(_) => ShieldEmpty(s)
    case _ => true
  }

  predicate StatusOk(s: State) {
    && (s.status.None? ==> IsMyChild(s, s.original))
    && (s.status.Some? ==> s.original in s.exits && s.status.value == s.exits[s.original])
    && (s.phase.Returned? ==> s.status == Some(s.phase.status))
    && !s.statusLost
  }

  ghost predicate LoopOk(s: State) {
    && (forall p :: IsWatched(s, p) ==> IsMyChild(s, p))
    && StatusOk(s) && Scanned(s)
    && (forall i :: 0 <= i < |s.signalled| ==> s.signalled[i].1)
  }

  /** Whatever the last poll reported is still watched if it is unreaped, and by the time of the
    * next poll it is parked or no longer watched. */
  predicate FiredOk(s: State) {
    && (forall p :: p in s.lastFired ==> p < s.nextPid && (p in s.procs ==> p in s.targets))
    && (forall p :: p in s.lastFired && p in s.targets ==> p in s.fired || p in s.parked)
    && (s.phase.Deliver? || s.phase.Sending? || s.phase.Poll? ==> s.fired == {})
  }

  ghost predicate Inv(s: State) {
    ForestOk(s) && LoopOk(s) && FiredOk(s)
  }

  lemma StartInv(watchdog: bool)
    ensures Inv(Start(watchdog))
  {
  }

  // ---------------------------------------------------------------- steps of the forest

  /** A forest move that leaves our children our children disturbs nothing in the loop. */
  lemma ForestFrame(s: State, t: State)
    requires LoopOk(s)
    requires t == s.(procs := t.procs, nextPid := t.nextPid, shield := t.shield, exits := t.exits)
    requires forall p :: IsMyChild(s, p) ==> IsMyChild(t, p)
    requires ShieldEmpty(s) ==> ShieldEmpty(t)
    requires s.original in s.exits && s.status.Some? ==>
               s.original in t.exits && t.exits[s.original] == s.exits[s.original]
    ensures LoopOk(t)
  {
    forall p | IsWatched(t, p) ensures IsMyChild(t, p) {
      assert IsWatched(s, p);
    }
  }

  lemma ForkKeeps(s: State, parent: Pid)
    requires Inv(s) && Apply(s, Fork(parent)).Some?
    ensures Inv(Apply(s, Fork(parent)).value)
  {
    var t := Apply(s, Fork(parent)).value;
    assert forall p :: p in s.procs ==> p != s.nextPid && t.procs[p] == s.procs[p];
    ForestFrame(s, t);
  }

  /** What an exit does to the processes. */
  lemma ExitMoves(s: State, p: Pid, status: int, held: bool, heir: Pid)
    requires ForestOk(s) && Apply(s, Exit(p, status, held, heir)).Some?
    ensures var t := Apply(s, Exit(p, status, held, heir)).value;
            && t.procs.Keys == s.procs.Keys && t == s.(procs := t.procs, exits := s.exits[p := status])
            && t.procs[p] == Proc(s.procs[p].parent, Zombie(status, held))
            && forall q :: q in s.procs && q != p ==>
                 t.procs[q] == Proc(if s.procs[q].parent == p then heir else s.procs[q].parent, s.procs[q].condition)
  {
    var t := Apply(s, Exit(p, status, held, heir)).value;
    var moved := Reparent(s.procs, p, heir);
    assert s.procs[p].parent != p;
    assert t.procs.Keys == s.procs.Keys;
    assert forall q :: q in s.procs && q != p ==> t.procs[q] == moved[q];
  }

  lemma ExitKeeps(s: State, p: Pid, status: int, held: bool, heir: Pid)
    requires Inv(s) && Apply(s, Exit(p, status, held, heir)).Some?
    ensures Inv(Apply(s, Exit(p, status, held, heir)).value)
  {
    var t := Apply(s, Exit(p, status, held, heir)).value;
    ExitMoves(s, p, status, held, heir);
    ExitForest(s, t, p, status, held, heir);
    hide ForestOk, LoopOk;
    ForestFrame(s, t);
  }

  lemma ExitForest(s: State, t: State, p: Pid, status: int, held: bool, heir: Pid)
    requires ForestOk(s) && p in s.procs && s.procs[p].condition.Running? && CanInherit(s, p, heir)
    requires t == s.(procs := t.procs, exits := s.exits[p := status]) && t.procs.Keys == s.procs.Keys
    requires t.procs[p] == Proc(s.procs[p].parent, Zombie(status, held))
    requires forall q :: q in s.procs && q != p ==>
               t.procs[q] == Proc(if s.procs[q].parent == p then heir else s.procs[q].parent, s.procs[q].condition)
    ensures ForestOk(t)
  {
    forall q | q in t.procs && t.procs[q].parent != ME
      ensures t.procs[q].parent in t.procs && t.procs[t.procs[q].parent].condition.Running?
      ensures t.procs[q].parent in t.shield <==> q in t.shield
    {
      var parent := s.procs[q].parent;
      if parent != p {
        assert parent in s.procs && s.procs[parent].condition.Running?;
      }
    }
  }

  lemma ReapedByParentKeeps(s: State, p: Pid)
    requires Inv(s) && Apply(s, ReapedByParent(p)).Some?
    ensures Inv(Apply(s, ReapedByParent(p)).value)
  {
    var t := Apply(s, ReapedByParent(p)).value;
    assert forall q :: IsMyChild(s, q) ==> q != p && IsMyChild(t, q);
    ForestFrame(s, t);
  }

  lemma ReleaseKeeps(s: State, p: Pid)
    requires Inv(s) && Apply(s, Release(p)).Some?
    ensures Inv(Apply(s, Release(p)).value)
  {
    var t := Apply(s, Release(p)).value;
    assert forall q :: IsMyChild(s, q) ==> IsMyChild(t, q);
    ForestFrame(s, t);
  }

  // ---------------------------------------------------------------- steps of the loop

  /** A loop step that keeps the forest and picks up no new process. */
  lemma LoopFrame(s: State, t: State)
    requires LoopOk(s) && t.procs == s.procs && t.shield == s.shield && t.exits == s.exits
    requires forall p :: IsWatched(t, p) ==> IsWatched(s, p) || IsMyChild(s, p)
    requires t.signalled == s.signalled
             || exists p :: IsWatched(s, p) && t.signalled == s.signalled + [(p, IsMyChild(s, p))]
    requires t.original == s.original && StatusOk(t) && Scanned(t)
    ensures LoopOk(t)
  {
  }

  lemma SameForest(s: State, t: State)
    requires ForestOk(s) && t.procs == s.procs && t.nextPid == s.nextPid && t.shield == s.shield
    requires t.exits == s.exits && t.watchdog == s.watchdog
    ensures ForestOk(t)
  {
  }

  lemma ReadChildrenKeeps(s: State)
    requires Inv(s) && s.phase.Scan?
    ensures Inv(Apply(s, ReadChildren).value)
  {
    var t := Apply(s, ReadChildren).value;
    forall p | IsWatched(t, p) ensures IsMyChild(s, p) {
      if p in MyChildren(s) || p == s.original { } else { assert IsWatched(s, p); }
    }
    if !ShieldEmpty(s) {
      var p :| p in s.shield && p in s.procs;
      OldestIsMine(s, p);
      var q :| q in s.shield && q in MyChildren(s);
      assert q in Candidates(s);
    }
    LoopFrame(s, t);
  }

  lemma WaitKeeps(s: State, p: Pid)
    requires Inv(s) && Apply(s, WaitFor(p)).Some?
    ensures Inv(Apply(s, WaitFor(p)).value)
  {
    var t := Apply(s, WaitFor(p)).value;
    assert IsWatched(s, p) && IsMyChild(s, p);
    if s.procs[p].condition.Zombie? && !s.procs[p].condition.held {
      ReapKeeps(s, p, t);
    } else {
      if p in s.targets { assert p in t.targets; }
      LoopFrame(s, t);
    }
  }

  lemma ReapKeeps(s: State, p: Pid, t: State)
    requires Inv(s) && s.phase.Reap? && p in s.phase.todo && IsMyChild(s, p)
    requires s.procs[p].condition.Zombie? && t == WaitStep(s, p, s.phase.todo, s.phase.reaped)
    requires !s.procs[p].condition.held
    ensures Inv(t)
  {
    assert forall q :: q in t.procs ==> t.procs[q] == s.procs[q] && t.procs[q].parent != p;
    forall q | IsWatched(t, q) ensures IsMyChild(t, q) {
      assert IsWatched(s, q) && q != p;
    }
  }

  lemma OpenKeeps(s: State, outcome: Opened)
    requires Inv(s) && Apply(s, OpenPidfd(outcome)).Some?
    ensures Inv(Apply(s, OpenPidfd(outcome)).value)
  {
    var t := Apply(s, OpenPidfd(outcome)).value;
    var p := s.phase.pid;
    assert IsWatched(s, p);
    if outcome.GotDescriptor? { assert p in t.targets; }
    if outcome.NoDescriptor? { assert p in t.untracked; }
    LoopFrame(s, t);
  }

  lemma EndScanKeeps(s: State)
    requires Inv(s) && Apply(s, EndScan).Some?
    ensures Inv(Apply(s, EndScan).value)
  {
    LoopFrame(s, Apply(s, EndScan).value);
  }

  lemma SignalsKeep(s: State, a: Action)
    requires Inv(s) && (a.NextSignal? || a.StartPoll? || a.PollReturns?) && Apply(s, a).Some?
    ensures Inv(Apply(s, a).value)
  {
    var t := Apply(s, a).value;
    assert forall p :: p in s.targets ==> IsWatched(s, p);
    LoopFrame(s, t);
    hide LoopOk, ForestOk;
    SameForest(s, t);
  }

  lemma SendKeeps(s: State, p: Pid)
    requires Inv(s) && Apply(s, SendTo(p)).Some?
    ensures Inv(Apply(s, SendTo(p)).value)
  {
    var t := Apply(s, SendTo(p)).value;
    if p in s.phase.to {
      assert IsWatched(s, p) && t.signalled == s.signalled + [(p, IsMyChild(s, p))];
    }
    LoopFrame(s, t);
    hide LoopOk, ForestOk;
    SameForest(s, t);
  }

  lemma StepKeeps(s: State, a: Action)
    requires Inv(s) && Apply(s, a).Some?
    ensures Inv(Apply(s, a).value)
  {
    match a
    case Fork(parent) => ForkKeeps(s, parent);
    case Exit(p, status, held, heir) => ExitKeeps(s, p, status, held, heir);
    case ReapedByParent(p) => ReapedByParentKeeps(s, p);
    case Release(p) => ReleaseKeeps(s, p);
    case ReadChildren => ReadChildrenKeeps(s);
    case WaitFor(p) => WaitKeeps(s, p);
    case OpenPidfd(outcome) => OpenKeeps(s, outcome);
    case EndScan => EndScanKeeps(s);
    case SendTo(p) => SendKeeps(s, p);
    case _ => SignalsKeep(s, a);
  }

  lemma {:induction false} RunKeeps(s: State, actions: seq<Action>)
    requires Inv(s) && Exec(s, actions).Some?
    ensures Inv(Exec(s, actions).value)
    decreases |actions|
  {
    if actions != [] {
      StepKeeps(s, actions[0]);
      RunKeeps(Apply(s, actions[0]).value, actions[1..]);
    }
  }

  // ---------------------------------------------------------------- main results

  /** When the loop returns, nothing the command ever forked is left, alive or unreaped, and the
    * status is the command's own. */
  lemma ReturnsOnlyWhenAllAreGone(watchdog: bool, actions: seq<Action>, s: State)
    requires Exec(Start(watchdog), actions) == Some(s) && s.phase.Returned?
    ensures ShieldEmpty(s)
    ensures s.original in s.exits && s.phase.status == s.exits[s.original]
  {
    StartInv(watchdog);
    RunKeeps(Start(watchdog), actions);
  }

  /** And nothing the command forked can appear afterwards. */
  lemma {:induction false} GoneForGood(s: State, actions: seq<Action>)
    requires Inv(s) && ShieldEmpty(s) && Exec(s, actions).Some?
    ensures ShieldEmpty(Exec(s, actions).value)
    decreases |actions|
  {
    if actions != [] {
      StepKeeps(s, actions[0]);
      ShieldStaysEmpty(s, actions[0]);
      GoneForGood(Apply(s, actions[0]).value, actions[1..]);
    }
  }

  lemma ShieldStaysEmpty(s: State, a: Action)
    requires ForestOk(s) && ShieldEmpty(s) && Apply(s, a).Some?
    ensures ShieldEmpty(Apply(s, a).value)
  {
  }

  /** With waits that can only fail for processes that are not ours, no status is ever lost. */
  lemma StatusNeverLost(watchdog: bool, actions: seq<Action>, s: State)
    requires Exec(Start(watchdog), actions) == Some(s)
    ensures !s.statusLost
    ensures s.status.None? ==> IsMyChild(s, s.original)
  {
    StartInv(watchdog);
    RunKeeps(Start(watchdog), actions);
  }

  /** Every signal went to a process that was, at that moment, our unreaped child. */
  lemma SignalsReachOnlyOurChildren(watchdog: bool, actions: seq<Action>, s: State, i: nat)
    requires Exec(Start(watchdog), actions) == Some(s) && i < |s.signalled|
    ensures s.signalled[i].1
  {
    StartInv(watchdog);
    RunKeeps(Start(watchdog), actions);
  }

  /** A descriptor that fired is not polled again before it was reaped, dropped or parked: the
    * next poll leaves out everything the last one reported. */
  lemma FiredIsNotPolledAgain(watchdog: bool, actions: seq<Action>, s: State)
    requires Exec(Start(watchdog), actions) == Some(s) && s.phase.Poll?
    ensures s.lastFired !! (s.targets - s.parked)
  {
    StartInv(watchdog);
    RunKeeps(Start(watchdog), actions);
  }

  /** Until its status is taken, the command is watched, or about to be looked at again; and then
    * only the command is being signalled. */
  predicate CommandWatched(s: State) {
    s.status.None? ==>
      var watched := s.targets + s.untracked;
      match s.phase
      case Scan => true
      case Reap(todo, reaped) => reaped || s.original in watched + todo
      case Open(pid, todo, reaped) => reaped || s.original in watched + todo + {pid}
      case Sending(_, to) => s.original in watched && to <= {s.original}
      case _ => s.original in watched
  }

  lemma StepKeepsWatch(s: State, a: Action)
    requires CommandWatched(s) && Apply(s, a).Some?
    ensures CommandWatched(Apply(s, a).value)
  {
  }

  lemma {:induction false} RunKeepsWatch(s: State, actions: seq<Action>)
    requires CommandWatched(s) && Exec(s, actions).Some?
    ensures CommandWatched(Exec(s, actions).value)
    decreases |actions|
  {
    hide Apply, CommandWatched;
    if actions != [] {
      StepKeepsWatch(s, actions[0]);
      RunKeepsWatch(Apply(s, actions[0]).value, actions[1..]);
    }
  }

  /** In every run, as long as the command's status is not taken, a forwarded signal goes to the
    * command and to nobody else. */
  lemma CommandComesFirst(watchdog: bool, actions: seq<Action>, s: State, p: Pid)
    requires Exec(Start(watchdog), actions) == Some(s) && s.status.None?
    requires s.phase.Sending? && p in s.phase.to
    ensures p == s.original && IsMyChild(s, p)
  {
    RunKeepsWatch(Start(watchdog), actions);
    StartInv(watchdog);
    RunKeeps(Start(watchdog), actions);
  }

  // ---------------------------------------------------------------- who gets a signal

  /** What the forest does by itself, and the sending of one signal. */
  predicate IsSendOrForest(a: Action) {
    a.SendTo? || a.Fork? || a.Exit? || a.ReapedByParent? || a.Release?
  }

  /** Who was signalled, from the `n`-th time on. */
  function Receivers(signalled: seq<(Pid, bool)>, n: nat): set<Pid> {
    set i | n <= i < |signalled| :: signalled[i].0
  }

  lemma OneReceiver(signalled: seq<(Pid, bool)>, n: nat, more: (Pid, bool))
    requires n <= |signalled|
    ensures Receivers(signalled + [more], n) == Receivers(signalled, n) + {more.0}
  {
    var all := signalled + [more];
    assert all[|signalled|] == more;
    forall p | p in Receivers(signalled, n) ensures p in Receivers(all, n) {
      var i :| n <= i < |signalled| && signalled[i].0 == p;
      assert all[i].0 == p;
    }
  }

  /** Of those who are to get this signal some have it, once each, and the others are still to get
    * it; when none is left, the next one is taken up. */
  predicate IsSending(s: State, n: nat, whom: set<Pid>) {
    && n <= |s.signalled|
    && (forall i, j :: n <= i < j < |s.signalled| ==> s.signalled[i].0 != s.signalled[j].0)
    && (match s.phase
        case Sending(_, rest) => rest !! Receivers(s.signalled, n) && rest + Receivers(s.signalled, n) == whom
        case Deliver => Receivers(s.signalled, n) == whom
        case _ => false)
  }

  lemma SendingGoesOn(s: State, a: Action, n: nat, whom: set<Pid>)
    requires IsSending(s, n, whom) && IsSendOrForest(a) && Apply(s, a).Some?
    ensures IsSending(Apply(s, a).value, n, whom)
  {
    if a.SendTo? && a.p in s.phase.to {
      OneReceiver(s.signalled, n, (a.p, IsMyChild(s, a.p)));
      forall i | n <= i < |s.signalled| ensures s.signalled[i].0 != a.p {
        assert s.signalled[i].0 in Receivers(s.signalled, n);
      }
    }
  }

  lemma {:induction false} SendingRuns(s: State, actions: seq<Action>, n: nat, whom: set<Pid>)
    requires IsSending(s, n, whom) && Exec(s, actions).Some?
    requires forall i :: 0 <= i < |actions| ==> IsSendOrForest(actions[i])
    ensures IsSending(Exec(s, actions).value, n, whom)
    decreases |actions|
  {
    hide IsSending, Apply, IsSendOrForest;
    if actions != [] {
      SendingGoesOn(s, actions[0], n, whom);
      SendingRuns(Apply(s, actions[0]).value, actions[1..], n, whom);
    }
  }

  /** A forwarded signal, the first that is waiting: by the time the next one is taken up, the command
    * has got it, alone, if it is watched, and else every watched child of the session has, each of
    * them once, and nobody else. */
  lemma SignalReachesAll(s: State, session: set<Pid>, actions: seq<Action>, t: State)
    requires s.phase.Deliver? && s.pending != [] && t.phase.Deliver?
    requires Exec(s, [NextSignal(session)] + actions) == Some(t)
    requires forall i :: 0 <= i < |actions| ==> IsSendOrForest(actions[i])
    ensures Receivers(t.signalled, |s.signalled|) ==
            if s.original in s.targets || s.original in s.untracked then {s.original}
            else set p | p in s.targets + s.untracked && p in session
    ensures forall i, j :: |s.signalled| <= i < j < |t.signalled| ==> t.signalled[i].0 != t.signalled[j].0
  {
    var run, a := [NextSignal(session)] + actions, NextSignal(session);
    assert run[0] == a && run[1..] == actions;
    var u := Apply(s, a).value;
    assert Receivers(u.signalled, |s.signalled|) == {};
    assert IsSending(u, |s.signalled|, u.phase.to);
    SendingRuns(u, actions, |s.signalled|, u.phase.to);
  }

  /** Everything that polls have reported. */
  function Reported(actions: seq<Action>): set<Pid> {
    if actions == [] then {}
    else (if actions[0].PollReturns? then actions[0].ready else {}) + Reported(actions[1..])
  }

  lemma StepParks(s: State, a: Action)
    requires Apply(s, a).Some?
    ensures var t := Apply(s, a).value;
            && t.parked + t.fired <= s.parked + s.fired + (if a.PollReturns? then a.ready else {})
            && ((s.phase.Poll? ==> s.pending == []) ==> (t.phase.Poll? ==> t.pending == []))
  {
  }

  lemma {:induction false} RunParks(s: State, actions: seq<Action>)
    requires Exec(s, actions).Some? && (s.phase.Poll? ==> s.pending == [])
    ensures var t := Exec(s, actions).value;
            && t.parked + t.fired <= s.parked + s.fired + Reported(actions)
            && (t.phase.Poll? ==> t.pending == [])
    decreases |actions|
  {
    hide Apply;
    if actions != [] {
      StepParks(s, actions[0]);
      RunParks(Apply(s, actions[0]).value, actions[1..]);
    }
  }

  /** In every run a descriptor is left out of a poll only after a poll has reported it, and no poll
    * begins while a forwarded signal is waiting. */
  lemma OnlyFiredIsParked(watchdog: bool, actions: seq<Action>, s: State)
    requires Exec(Start(watchdog), actions) == Some(s)
    ensures s.parked <= Reported(actions)
    ensures s.phase.Poll? ==> s.pending == []
  {
    RunParks(Start(watchdog), actions);
  }
}
