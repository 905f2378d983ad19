/** One supervised session: watchdog, supervisor generations, and the kernel's
  * notification listener (crates/trashd-seccomp/src/supervisor.rs, watchdog.rs,
  * landlock.rs).
  *
  * Everything that may happen is an Action: target calls, each atomic step of
  * each worker, crashes at any step, forks and failed forks.  A run is any
  * sequence of actions that the state allows.
  */
module Session {
  import opened Wrappers
  import opened Bytes
  import opened Filter

  type Pid = nat

  // ---------------------------------------------------------------- notifications and answers

  /** A trapped call: number, `args[2]` and `args[3]`. */
  datatype Notif = Notif(id: nat, nr: u32, flags: u64, mark: u64)

  const AT_REMOVEDIR: u32 := 0x200
  const DEFER_MARK: u64 := 0x7472_6173_6864_6d6b
  const ENOSYS := 38
  const EPERM := 1

  datatype Answer = Continue | Success | Errno(e: int)

  predicate IsLandlock(n: Notif) {
    n.nr == SYS_LANDLOCK_RESTRICT_SELF
  }

  function Unlinkat(m: Machine): u32 {
    if m.X86_64? then 263 else 35
  }

  predicate IsDeletion(m: Machine, n: Notif) {
    n.nr == Unlinkat(m) || (m.X86_64? && (n.nr == 87 || n.nr == 84))
  }

  /** An unlinkat with flags the kernel itself rejects. */
  predicate InvalidFlags(m: Machine, n: Notif) {
    n.nr == Unlinkat(m) && Lo(n.flags) != 0 && Lo(n.flags) != AT_REMOVEDIR
  }

  /** A deletion the preload handed over and can still trash itself. */
  predicate Deferred(m: Machine, n: Notif) {
    IsDeletion(m, n) && n.mark == DEFER_MARK
  }

  /** What the filter traps is what a worker knows how to answer: deletions, and a sandbox setup. */
  lemma TrappedAre(m: Machine, n: Notif)
    ensures n.nr in Trapped(m) <==> IsDeletion(m, n) || IsLandlock(n)
  {
  }

  /** The flags of an unlinkat that the kernel takes: none, or the one bit for directories. */
  lemma FlagsAreBits(m: Machine, n: Notif, word: bv32)
    requires n.nr == Unlinkat(m) && word as int == Lo(n.flags)
    ensures InvalidFlags(m, n) <==> word & !0x200 != 0
  {
    assert word & !0x200 == 0 <==> word == 0 || word == 0x200;
  }

  // ---------------------------------------------------------------- workers

  /** What the pinned mutation reported; `Failed` is its error return. */
  datatype PinDecision = Trashed | LeaveToKernel | Decline | Refuse(e: int) | Failed

  /** Where a worker stands with the notification it holds. */
  datatype Phase =
    | Starting
    | Idle
    | Entered(n: Notif)
    | Gated(n: Notif)                        // passed the credential and Landlock gates
    | Pinned(n: Notif, decision: PinDecision)
    | Declining(n: Notif)
    | Noted(n: Notif)                        // restriction recorded, not yet continued
    | Answered(n: Notif)                     // answer sent, still inside the handler

  predicate Holds(phase: Phase) {
    !phase.Starting? && !phase.Idle?
  }

  /** `protecting` is false for a supervisor without a trash store. */
  datatype Supervisor = Supervisor(phase: Phase, protecting: bool)

  datatype Watchdog =
    | Forking                        // no supervisor: about to fork one
    | Waiting(child: Pid)            // blocked in waitpid
    | Draining(phase: Phase)
    | Passthrough(phase: Phase)      // fork failed: serves the listener itself
    | Gone

  /** One effective reply. `declined` records that it came from `decline`. */
  datatype Reply = Reply(n: Notif, answer: Answer, declined: bool)

  datatype State = State(
    machine: Machine,
    pending: seq<Notif>,             // trapped, not yet received
    nextId: nat,
    restriction: Option<bool>,       // the shared bit; None when it was never mapped
    supervisors: map<Pid, Supervisor>,
    zombies: set<Pid>,
    nextPid: Pid,
    watchdog: Watchdog,
    received: set<nat>,
    answered: set<nat>,
    gone: set<nat>,                  // the target died or its call was interrupted: the id is no
                                     // longer valid, and replies have no effect
    lost: set<nat>,                  // a worker died holding it unanswered
    log: seq<Reply>
  )

  function Start(machine: Machine, restriction: Option<bool>): State {
    State(machine, [], 0, restriction, map[], {}, 0, Forking, {}, {}, {}, {}, [])
  }

  /** Unknown tracking state never authorizes a mutation. */
  predicate Restricts(s: State) {
    s.restriction.None? || s.restriction.value
  }

  // ---------------------------------------------------------------- actions

  /** What the outside world answers a supervisor during one step. `valid` is the kernel's check of the
    * notification's id, which always fails for one that is gone, and may fail for any other. */
  datatype Choice = Choice(valid: bool, lends: bool, capture: Capture, decision: PinDecision)

  datatype Capture = Policy | Unreadable | Captured

  datatype Action =
    | Trap(nr: u32, flags: u64, mark: u64)
    | TargetDies(id: nat)
    | SupervisorReady(p: Pid, store: bool)
    | SupervisorReceives(p: Pid, i: nat)
    | SupervisorSteps(p: Pid, choice: Choice)
    | SupervisorPanics(p: Pid)
    | SupervisorDies(p: Pid)
    | WatchdogForks
    | WatchdogForkFails
    | WatchdogReaps
    | WatchdogWaitFails
    | WatchdogReceives(i: nat)
    | WatchdogSteps
    | WatchdogDrained
    | WatchdogDies

  /** NOTIF_SEND: it reaches the target once, and never a dead one. */
  function Send(s: State, n: Notif, answer: Answer, declined: bool): State {
    if n.id in s.answered || n.id in s.gone then s
    else s.(answered := s.answered + {n.id}, log := s.log + [Reply(n, answer, declined)])
  }

  /** `decline`, up to its first externally visible effect. */
  function DeclineStep(s: State, n: Notif): (State, Phase) {
    if IsLandlock(n) then
      if s.restriction.Some? then (s.(restriction := Some(true)), Noted(n))
      else (Send(s, n, Errno(EPERM), true), Answered(n))
    else if Deferred(s.machine, n) then (Send(s, n, Errno(ENOSYS), true), Answered(n))
    else (Send(s, n, Continue, true), Answered(n))
  }

  /** The supervisor's next step with the notification it holds (`handle_notification`). */
  function HandleStep(s: State, w: Supervisor, c: Choice): (State, Phase)
    requires Holds(w.phase)
  {
    match w.phase
    case Entered(n) =>
      if !w.protecting || IsLandlock(n) then (s, Declining(n))
      else if n.id in s.gone || !c.valid then (Send(s, n, Continue, false), Answered(n))
      else if !InvalidFlags(s.machine, n) && (!c.lends || Restricts(s)) then (s, Declining(n))
      else (s, Gated(n))
    case Gated(n) =>
      if InvalidFlags(s.machine, n) || c.capture.Policy? then (Send(s, n, Continue, false), Answered(n))
      else if c.capture.Unreadable? then (s, Declining(n))
      else (s, Pinned(n, c.decision))
    case Pinned(n, d) =>
      (match d
       case Trashed => (Send(s, n, Success, false), Answered(n))
       case LeaveToKernel => (Send(s, n, Continue, false), Answered(n))
       case Refuse(e) => (Send(s, n, Errno(e), false), Answered(n))
       case Decline => (s, Declining(n))
       case Failed => (s, Declining(n)))
    case Declining(n) => DeclineStep(s, n)
    case Noted(n) => (Send(s, n, Continue, true), Answered(n))
    case Answered(n) => (s, Idle)
  }

  /** The watchdog only ever declines. */
  function WatchdogStep(s: State, phase: Phase): (State, Phase)
    requires Holds(phase)
  {
    if phase.Declining? then DeclineStep(s, phase.n)
    else if phase.Noted? then (Send(s, phase.n, Continue, true), Answered(phase.n))
    else if phase.Answered? then (s, Idle)
    else (s, Declining(phase.n))
  }

  function Receive(s: State, i: nat): State
    requires i < |s.pending|
  {
    s.(pending := s.pending[..i] + s.pending[i + 1..], received := s.received + {s.pending[i].id})
  }

  function Drop(s: State, phase: Phase): State {
    if Holds(phase) && phase.n.id !in s.answered && phase.n.id !in s.gone
    then s.(lost := s.lost + {phase.n.id}) else s
  }

  function SetPhase(s: State, p: Pid, phase: Phase): State
    requires p in s.supervisors
  {
    s.(supervisors := s.supervisors[p := s.supervisors[p].(phase := phase)])
  }

  predicate Serving(w: Watchdog) {
    w.Draining? || w.Passthrough?
  }

  function Apply(s: State, a: Action): Option<State> {
    match a
    case Trap(nr, flags, mark) =>
      Some(s.(pending := s.pending + [Notif(s.nextId, nr, flags, mark)], nextId := s.nextId + 1))
    case TargetDies(id) =>
      if id < s.nextId then Some(s.(gone := s.gone + {id})) else None
    case SupervisorReady(p, store) =>
      if p in s.supervisors && s.supervisors[p].phase.Starting?
      then Some(s.(supervisors := s.supervisors[p := Supervisor(Idle, store)])) else None
    case SupervisorReceives(p, i) =>
      if p in s.supervisors && s.supervisors[p].phase.Idle? && i < |s.pending|
      then Some(SetPhase(Receive(s, i), p, Entered(s.pending[i]))) else None
    case SupervisorSteps(p, choice) =>
      if p in s.supervisors && Holds(s.supervisors[p].phase)
      then var (t, phase) := HandleStep(s, s.supervisors[p], choice);
           Some(SetPhase(t, p, phase)) else None
    case SupervisorPanics(p) =>
      // Caught around the handler of a protecting supervisor, which then declines.
      if p in s.supervisors && s.supervisors[p].protecting && Holds(s.supervisors[p].phase)
      then Some(SetPhase(s, p, Declining(s.supervisors[p].phase.n))) else None
    case SupervisorDies(p) =>
      if p in s.supervisors
      then Some(Drop(s, s.supervisors[p].phase).(supervisors := s.supervisors - {p}, zombies := s.zombies + {p}))
      else None
    case WatchdogForks =>
      if s.watchdog.Forking?
      then Some(s.(supervisors := s.supervisors[s.nextPid := Supervisor(Starting, false)],
                   nextPid := s.nextPid + 1, watchdog := Waiting(s.nextPid)))
      else None
    case WatchdogForkFails =>
      if s.watchdog.Forking? then Some(s.(watchdog := Passthrough(Idle))) else None
    case WatchdogReaps =>
      if s.watchdog.Waiting? && s.watchdog.child in s.zombies
      then Some(s.(zombies := s.zombies - {s.watchdog.child}, watchdog := Draining(Idle))) else None
    case WatchdogWaitFails =>
      // waitpid returned an error: the loop fails over all the same.
      if s.watchdog.Waiting? then Some(s.(watchdog := Draining(Idle))) else None
    case WatchdogReceives(i) =>
      if Serving(s.watchdog) && s.watchdog.phase.Idle? && i < |s.pending|
      then Some(Receive(s, i).(watchdog := s.watchdog.(phase := Declining(s.pending[i])))) else None
    case WatchdogSteps =>
      if Serving(s.watchdog) && Holds(s.watchdog.phase)
      then var (t, phase) := WatchdogStep(s, s.watchdog.phase);
           Some(t.(watchdog := s.watchdog.(phase := phase))) else None
    case WatchdogDrained =>
      if s.watchdog.Draining? && s.watchdog.phase.Idle? then Some(s.(watchdog := Forking)) else None
    case WatchdogDies =>
      if s.watchdog.Gone? then None
      else Some((if Serving(s.watchdog) then Drop(s, s.watchdog.phase) else s).(watchdog := Gone))
  }

  function Exec(s: State, actions: seq<Action>): Option<State>
    decreases |actions|
  {
    if actions == [] then Some(s)
    else
      match Apply(s, actions[0])
      case None => None
      case Some(t) => Exec(t, actions[1..])
  }

  /** A run that reaches `s` from the start of a session. */
  ghost predicate Reaches(machine: Machine, restriction: Option<bool>, actions: seq<Action>, s: State) {
    restriction != Some(true) && Exec(Start(machine, restriction), actions) == Some(s)
  }

  /** A failing wait does no harm once the supervisor it waits for is gone. */
  predicate HarmlessAt(s: State, a: Action) {
    a.WatchdogWaitFails? && s.watchdog.Waiting? ==> s.watchdog.child !in s.supervisors
  }

  /** Along the run no wait fails for a living supervisor. */
  predicate HarmlessWaits(s: State, actions: seq<Action>)
    decreases |actions|
  {
    actions == [] ||
    (HarmlessAt(s, actions[0]) &&
     match Apply(s, actions[0]) case None => true case Some(t) => HarmlessWaits(t, actions[1..]))
  }

  // ---------------------------------------------------------------- who may receive

  /** A supervisor past its startup. */
  predicate IsReceiver(s: State, p: Pid) {
    p in s.supervisors && !s.supervisors[p].phase.Starting?
  }

  /** At most one supervisor receives, and none beside a watchdog that serves the listener itself. */
  ghost predicate OneReceiver(s: State) {
    && (forall p, q :: IsReceiver(s, p) && IsReceiver(s, q) ==> p == q)
    && (Serving(s.watchdog) ==> forall p :: !IsReceiver(s, p))
  }

  /** At most one worker lives: a supervisor, starting ones included, or the serving watchdog. */
  predicate OneWorker(s: State) {
    && (forall p, q :: p in s.supervisors && q in s.supervisors ==> p == q)
    && (Serving(s.watchdog) || s.watchdog.Forking? ==> s.supervisors == map[])
    && (s.watchdog.Waiting? ==> forall p :: p in s.supervisors ==> p == s.watchdog.child)
  }

  predicate PidsFresh(s: State) {
    && (forall p :: p in s.supervisors ==> p < s.nextPid && p !in s.zombies)
    && (forall p :: p in s.zombies ==> p < s.nextPid)
  }

  // ---------------------------------------------------------------- the Landlock order

  predicate ContinuesLandlock(r: Reply) {
    IsLandlock(r.n) && r.answer.Continue?
  }

  /** Once a restriction was allowed, nothing is reported trashed. */
  predicate NoTrashAfterRestriction(log: seq<Reply>) {
    forall i, j :: 0 <= i < j < |log| && ContinuesLandlock(log[i]) ==> !log[j].answer.Success?
  }

  predicate RestrictionAllowed(log: seq<Reply>) {
    exists i :: 0 <= i < |log| && ContinuesLandlock(log[i])
  }

  /** What each phase implies about the shared bit. */
  predicate PhaseOk(s: State, phase: Phase) {
    match phase
    case Gated(n) => !IsLandlock(n) && (!InvalidFlags(s.machine, n) ==> s.restriction == Some(false))
    case Pinned(n, _) => !IsLandlock(n) && !InvalidFlags(s.machine, n) && s.restriction == Some(false)
    case Noted(n) => IsLandlock(n) && s.restriction == Some(true)
    case _ => true
  }

  predicate OrderInv(s: State) {
    && OneWorker(s) && PidsFresh(s)
    && (RestrictionAllowed(s.log) ==> s.restriction == Some(true))
    && NoTrashAfterRestriction(s.log)
    && (forall p :: p in s.supervisors ==> PhaseOk(s, s.supervisors[p].phase))
    && (Serving(s.watchdog) ==> PhaseOk(s, s.watchdog.phase) && !s.watchdog.phase.Pinned? && !s.watchdog.phase.Gated?)
  }

  lemma SendKeepsOrder(s: State, n: Notif, answer: Answer, declined: bool)
    requires NoTrashAfterRestriction(s.log)
    requires RestrictionAllowed(s.log) ==> s.restriction == Some(true)
    requires answer.Success? ==> s.restriction != Some(true)
    requires IsLandlock(n) && answer.Continue? ==> s.restriction == Some(true)
    ensures var t := Send(s, n, answer, declined);
            && NoTrashAfterRestriction(t.log)
            && (RestrictionAllowed(t.log) ==> t.restriction == Some(true))
            && t == s.(answered := t.answered, log := t.log)
  {
    var t := Send(s, n, answer, declined);
    if t != s {
      forall i, j | 0 <= i < j < |t.log| && ContinuesLandlock(t.log[i])
        ensures !t.log[j].answer.Success?
      {
        assert i < |s.log| && t.log[i] == s.log[i];
        assert RestrictionAllowed(s.log);
      }
      if RestrictionAllowed(t.log) {
        var i :| 0 <= i < |t.log| && ContinuesLandlock(t.log[i]);
        if i < |s.log| { assert ContinuesLandlock(s.log[i]); }
      }
    }
  }

  lemma DeclineKeepsOrder(s: State, n: Notif)
    requires NoTrashAfterRestriction(s.log)
    requires RestrictionAllowed(s.log) ==> s.restriction == Some(true)
    ensures var (t, phase) := DeclineStep(s, n);
            && NoTrashAfterRestriction(t.log)
            && (RestrictionAllowed(t.log) ==> t.restriction == Some(true))
            && PhaseOk(t, phase) && !phase.Pinned? && !phase.Gated?
            && t == s.(answered := t.answered, log := t.log, restriction := t.restriction)
  {
    if IsLandlock(n) {
      if s.restriction.None? { SendKeepsOrder(s, n, Errno(EPERM), true); }
    } else if Deferred(s.machine, n) {
      SendKeepsOrder(s, n, Errno(ENOSYS), true);
    } else {
      SendKeepsOrder(s, n, Continue, true);
    }
  }

  lemma HandleKeepsOrder(s: State, w: Supervisor, c: Choice)
    requires Holds(w.phase) && PhaseOk(s, w.phase)
    requires NoTrashAfterRestriction(s.log)
    requires RestrictionAllowed(s.log) ==> s.restriction == Some(true)
    ensures var (t, phase) := HandleStep(s, w, c);
            && NoTrashAfterRestriction(t.log)
            && (RestrictionAllowed(t.log) ==> t.restriction == Some(true))
            && PhaseOk(t, phase)
            && t == s.(answered := t.answered, log := t.log, restriction := t.restriction)
  {
    match w.phase
    case Entered(n) => if !IsLandlock(n) { SendKeepsOrder(s, n, Continue, false); }
    case Gated(n) => SendKeepsOrder(s, n, Continue, false);
    case Pinned(n, d) =>
      SendKeepsOrder(s, n, Success, false);
      SendKeepsOrder(s, n, Continue, false);
      if d.Refuse? { SendKeepsOrder(s, n, Errno(d.e), false); }
    case Declining(n) => DeclineKeepsOrder(s, n);
    case Noted(n) => SendKeepsOrder(s, n, Continue, true);
    case Answered(n) =>
  }

  lemma WatchdogStepKeepsOrder(s: State)
    requires OrderInv(s) && Apply(s, WatchdogSteps).Some?
    ensures OrderInv(Apply(s, WatchdogSteps).value)
  {
    if s.watchdog.phase.Declining? {
      DeclineKeepsOrder(s, s.watchdog.phase.n);
    } else if s.watchdog.phase.Noted? {
      SendKeepsOrder(s, s.watchdog.phase.n, Continue, true);
    }
  }

  lemma SupervisorStepKeepsOrder(s: State, p: Pid, choice: Choice)
    requires OrderInv(s) && Apply(s, SupervisorSteps(p, choice)).Some?
    ensures OrderInv(Apply(s, SupervisorSteps(p, choice)).value)
  {
    hide HandleStep;
    HandleKeepsOrder(s, s.supervisors[p], choice);
  }

  /** Every action keeps the order invariant, but a wait that fails for a living supervisor. */
  lemma StepKeepsOrder(s: State, a: Action)
    requires OrderInv(s) && HarmlessAt(s, a) && Apply(s, a).Some?
    ensures OrderInv(Apply(s, a).value)
  {
    match a
    case SupervisorSteps(p, choice) => SupervisorStepKeepsOrder(s, p, choice);
    case WatchdogSteps => WatchdogStepKeepsOrder(s);
    case _ =>
  }

  lemma {:induction false} RunKeepsOrder(s: State, actions: seq<Action>)
    requires OrderInv(s) && HarmlessWaits(s, actions) && Exec(s, actions).Some?
    ensures OrderInv(Exec(s, actions).value)
    decreases |actions|
  {
    hide OrderInv, Apply;
    if actions != [] {
      StepKeepsOrder(s, actions[0]);
      RunKeepsOrder(Apply(s, actions[0]).value, actions[1..]);
    }
  }

  // ---------------------------------------------------------------- main results: order

  /** Every state of the run has at most one worker. */
  predicate AlwaysOneWorker(s: State, actions: seq<Action>)
    decreases |actions|
  {
    OneWorker(s) &&
    (actions == [] ||
     match Apply(s, actions[0]) case None => true case Some(t) => AlwaysOneWorker(t, actions[1..]))
  }

  lemma FailedWaitDoubles(s: State)
    requires Apply(s, WatchdogWaitFails).Some? && !HarmlessAt(s, WatchdogWaitFails)
    ensures !OneWorker(Apply(s, WatchdogWaitFails).value)
  {
    assert s.watchdog.child in Apply(s, WatchdogWaitFails).value.supervisors;
  }

  /** At most one worker lives throughout a run if and only if no wait of the run fails for a living
    * supervisor. */
  lemma {:induction false} OneWorkerExactly(s: State, actions: seq<Action>)
    requires OrderInv(s) && Exec(s, actions).Some?
    ensures AlwaysOneWorker(s, actions) <==> HarmlessWaits(s, actions)
    decreases |actions|
  {
    assert OneWorker(s);
    hide OrderInv, OneWorker, HarmlessAt, Apply;
    if actions != [] {
      var a := actions[0];
      var t := Apply(s, a).value;
      if HarmlessAt(s, a) {
        StepKeepsOrder(s, a);
        OneWorkerExactly(t, actions[1..]);
      } else {
        OnlyWaitsHarm(s, a);
        FailedWaitDoubles(s);
      }
    }
  }

  /** Once a wait fails for a living supervisor, two processes receive: at once, or when that
    * supervisor is past its startup. */
  lemma FailedWaitDoublesReceivers(s: State, store: bool)
    requires Apply(s, WatchdogWaitFails).Some? && !HarmlessAt(s, WatchdogWaitFails)
    ensures var t := Apply(s, WatchdogWaitFails).value;
            var u := Apply(t, SupervisorReady(s.watchdog.child, store));
            !OneReceiver(t) || (u.Some? && !OneReceiver(u.value))
  {
    var t, child := Apply(s, WatchdogWaitFails).value, s.watchdog.child;
    if t.supervisors[child].phase.Starting? {
      assert IsReceiver(Apply(t, SupervisorReady(child, store)).value, child);
    } else {
      assert IsReceiver(t, child);
    }
  }

  lemma OnlyWaitsHarm(s: State, a: Action)
    ensures HarmlessAt(s, a) || a == WatchdogWaitFails
  {
  }

  lemma StartIsOrdered(machine: Machine, restriction: Option<bool>)
    requires restriction != Some(true)
    ensures OrderInv(Start(machine, restriction))
  {
  }

  /** At most one process ever receives from the listener. */
  lemma AtMostOneReceiver(machine: Machine, restriction: Option<bool>, actions: seq<Action>, s: State)
    requires Reaches(machine, restriction, actions, s) && HarmlessWaits(Start(machine, restriction), actions)
    ensures OneReceiver(s) && OneWorker(s)
  {
    StartIsOrdered(machine, restriction);
    RunKeepsOrder(Start(machine, restriction), actions);
  }

  /** After a Landlock restriction was let through, by any worker of any generation, no
    * deletion is answered as trashed by any worker, and none is being moved either. */
  lemma RestrictionEndsTrashing(machine: Machine, restriction: Option<bool>, actions: seq<Action>, s: State)
    requires Reaches(machine, restriction, actions, s) && HarmlessWaits(Start(machine, restriction), actions)
    ensures NoTrashAfterRestriction(s.log)
    ensures RestrictionAllowed(s.log) ==> forall p :: p in s.supervisors ==> !s.supervisors[p].phase.Pinned?
  {
    StartIsOrdered(machine, restriction);
    RunKeepsOrder(Start(machine, restriction), actions);
  }

  /** A supervisor asks the kernel whether the notification it just received still stands, and is told
    * no. */
  predicate CheckFails(s: State, a: Action) {
    && a.SupervisorSteps? && a.p in s.supervisors && s.supervisors[a.p].protecting
    && s.supervisors[a.p].phase.Entered? && !a.choice.valid
  }

  /** A marked deletion with valid flags, once nothing may be trashed for its target, be it restricted
    * or untracked, and always from the watchdog: it is handed back to the preload with ENOSYS, by
    * whoever answers it, unless that very check fails for it while it still stands, which lets the
    * deletion through. */
  lemma RestrictedHandoffGetsEnosys(machine: Machine, restriction: Option<bool>, actions: seq<Action>, s: State,
                                    a: Action, t: State)
    requires Reaches(machine, restriction, actions, s) && HarmlessWaits(Start(machine, restriction), actions)
    requires Apply(s, a) == Some(t) && |t.log| > |s.log| && (Restricts(s) || a.WatchdogSteps?)
    requires var n := t.log[|s.log|].n; Deferred(machine, n) && !InvalidFlags(machine, n)
    ensures t.log[|s.log|].answer == if CheckFails(s, a) then Continue else Errno(ENOSYS)
  {
    StartIsOrdered(machine, restriction);
    RunKeepsOrder(Start(machine, restriction), actions);
    MachineFixed(Start(machine, restriction), actions);
    if a.SupervisorSteps? {
      RestrictedStepHandsBack(s, s.supervisors[a.p], a.choice);
    } else if a.WatchdogSteps? {
      WatchdogHandsBack(s, s.watchdog.phase);
    }
  }

  /** A check that fails lets the deletion through at once. */
  lemma FailedCheckLetsThrough(s: State, a: Action)
    requires CheckFails(s, a)
    requires var n := s.supervisors[a.p].phase.n;
             IsDeletion(s.machine, n) && n.id !in s.answered && n.id !in s.gone
    ensures Apply(s, a).Some?
    ensures Apply(s, a).value.log == s.log + [Reply(s.supervisors[a.p].phase.n, Continue, false)]
  {
  }

  lemma DeferredIsNoSetup(m: Machine, n: Notif)
    requires Deferred(m, n)
    ensures !IsLandlock(n)
  {
  }

  lemma RestrictedStepHandsBack(s: State, w: Supervisor, c: Choice)
    requires Restricts(s) && Holds(w.phase) && PhaseOk(s, w.phase)
    ensures var t := HandleStep(s, w, c).0;
            |t.log| > |s.log| ==>
              var r := t.log[|s.log|];
              Deferred(s.machine, r.n) && !InvalidFlags(s.machine, r.n) ==>
                r.answer == if w.protecting && w.phase.Entered? && !c.valid then Continue else Errno(ENOSYS)
  {
    if Deferred(s.machine, w.phase.n) { DeferredIsNoSetup(s.machine, w.phase.n); }
  }

  lemma WatchdogHandsBack(s: State, phase: Phase)
    requires Holds(phase) && PhaseOk(s, phase)
    ensures var t := WatchdogStep(s, phase).0;
            |t.log| > |s.log| ==>
              var r := t.log[|s.log|];
              Deferred(s.machine, r.n) ==> r.answer == Errno(ENOSYS)
  {
    if Deferred(s.machine, phase.n) { DeferredIsNoSetup(s.machine, phase.n); }
  }

  const YES := Choice(true, true, Captured, Trashed)

  function Victim(m: Machine): Notif {
    Notif(0, Unlinkat(m), 0, 0)
  }

  const SETUP := Notif(1, SYS_LANDLOCK_RESTRICT_SELF, 0, 0)

  /** A supervisor has moved the file of notification 0 and not yet said so. */
  function MidHandle(m: Machine): State {
    State(m, [], 1, Some(false), map[0 := Supervisor(Pinned(Victim(m), Trashed), true)], {}, 1, Waiting(0),
          {0}, {}, {}, {}, [])
  }

  function UpToMidHandle(m: Machine): seq<Action> {
    [ WatchdogForks, SupervisorReady(0, true), Trap(Unlinkat(m), 0, 0), SupervisorReceives(0, 0),
      SupervisorSteps(0, YES), SupervisorSteps(0, YES) ]
  }

  const FAILOVER: seq<Action> :=
    [ Trap(SYS_LANDLOCK_RESTRICT_SELF, 0, 0), WatchdogWaitFails, WatchdogReceives(0), WatchdogSteps, WatchdogSteps,
      SupervisorSteps(0, YES) ]

  function AfterFailover(m: Machine): State {
    State(m, [], 2, Some(true), map[0 := Supervisor(Answered(Victim(m)), true)], {}, 1, Draining(Answered(SETUP)),
          {0, 1}, {0, 1}, {}, {}, [Reply(SETUP, Continue, true), Reply(Victim(m), Success, false)])
  }

  lemma Unroll(s: State, t: State, actions: seq<Action>, i: nat)
    requires i < |actions| && Apply(s, actions[i]) == Some(t)
    ensures Exec(s, actions[i..]) == Exec(t, actions[i + 1..])
  {
    assert actions[i..][1..] == actions[i + 1..];
  }

  lemma {:induction false} ExecAppend(s: State, a: seq<Action>, b: seq<Action>)
    requires Exec(s, a).Some?
    ensures Exec(s, a + b) == Exec(Exec(s, a).value, b)
    decreases |a|
  {
    if a == [] {
      assert a + b == b;
    } else {
      assert (a + b)[1..] == a[1..] + b;
      ExecAppend(Apply(s, a[0]).value, a[1..], b);
    }
  }

  /** The first supervisor is up and one deletion is waiting. */
  function Waiting1(m: Machine): State {
    Start(m, Some(false)).(
      pending := [Victim(m)], nextId := 1, supervisors := map[0 := Supervisor(Idle, true)],
      nextPid := 1, watchdog := Waiting(0))
  }

  lemma ReachWaiting(m: Machine)
    ensures Exec(Start(m, Some(false)), UpToMidHandle(m)[..3]) == Some(Waiting1(m))
  {
    var actions := UpToMidHandle(m)[..3];
    var s0 := Start(m, Some(false));
    var s1 := Apply(s0, actions[0]).value;
    var s2 := Apply(s1, actions[1]).value;
    assert s2.supervisors == map[0 := Supervisor(Idle, true)];
    var s3 := Apply(s2, actions[2]).value;
    assert s3 == Waiting1(m);
    Unroll(s0, s1, actions, 0);
    Unroll(s1, s2, actions, 1);
    Unroll(s2, s3, actions, 2);
    assert actions[0..] == actions && actions[3..] == [];
  }

  lemma ReachMidHandle(m: Machine)
    ensures Exec(Waiting1(m), UpToMidHandle(m)[3..]) == Some(MidHandle(m))
  {
    var actions := UpToMidHandle(m)[3..];
    var s3 := Waiting1(m);
    var s4 := Apply(s3, actions[0]).value;
    assert s4.pending == [] && s4.received == {0};
    assert s4.supervisors == map[0 := Supervisor(Entered(Victim(m)), true)];
    var s5 := Apply(s4, actions[1]).value;
    assert s5.supervisors == map[0 := Supervisor(Gated(Victim(m)), true)];
    var s6 := Apply(s5, actions[2]).value;
    assert s6.supervisors == MidHandle(m).supervisors;
    Unroll(s3, s4, actions, 0);
    Unroll(s4, s5, actions, 1);
    Unroll(s5, s6, actions, 2);
    assert actions[0..] == actions && actions[3..] == [];
  }

  /** The watchdog serves the restriction while the supervisor still holds the deletion. */
  function MidFailover(m: Machine): State {
    MidHandle(m).(watchdog := Draining(Declining(SETUP)), received := {0, 1}, nextId := 2)
  }

  lemma ToMidFailover(m: Machine)
    ensures Exec(MidHandle(m), FAILOVER) == Exec(MidFailover(m), FAILOVER[3..])
  {
    var s0 := MidHandle(m);
    var s1 := Apply(s0, FAILOVER[0]).value;
    assert s1.pending == [SETUP];
    var s2 := Apply(s1, FAILOVER[1]).value;
    var s3 := Apply(s2, FAILOVER[2]).value;
    assert s3.pending == [] && s3.received == {0, 1};
    assert s3 == MidFailover(m);
    Unroll(s0, s1, FAILOVER, 0);
    Unroll(s1, s2, FAILOVER, 1);
    Unroll(s2, s3, FAILOVER, 2);
    assert FAILOVER[0..] == FAILOVER;
  }

  /** The restriction is let through, and the deletion still held. */
  function AfterContinue(m: Machine): State {
    MidFailover(m).(watchdog := Draining(Answered(SETUP)), restriction := Some(true), answered := {1},
                    log := [Reply(SETUP, Continue, true)])
  }

  lemma ToContinue(m: Machine)
    ensures Exec(MidFailover(m), FAILOVER[3..]) == Exec(AfterContinue(m), FAILOVER[5..])
  {
    var s3 := MidFailover(m);
    var s4 := Apply(s3, FAILOVER[3]).value;
    var s5 := Apply(s4, FAILOVER[4]).value;
    assert s5.log == [Reply(SETUP, Continue, true)] && s5.answered == {1};
    assert s5 == AfterContinue(m);
    Unroll(s3, s4, FAILOVER, 3);
    Unroll(s4, s5, FAILOVER, 4);
  }

  lemma FailoverFromMidHandle(m: Machine)
    ensures Exec(MidHandle(m), FAILOVER) == Some(AfterFailover(m))
  {
    ToMidFailover(m);
    ToContinue(m);
    var s5 := AfterContinue(m);
    var s6 := Apply(s5, FAILOVER[5]).value;
    assert s6.log == AfterFailover(m).log && s6.answered == {0, 1};
    assert s6.supervisors == AfterFailover(m).supervisors;
    Unroll(s5, s6, FAILOVER, 5);
    assert FAILOVER[6..] == [];
  }

  /** Why the exclusion needs waits that succeed: if one failed for a living supervisor, the failover
    * would start a second receiver, and the order could break. */
  lemma FailedWaitBreaksTheOrder(m: Machine)
    ensures exists actions, s ::
      && Reaches(m, Some(false), actions, s)
      && !OneReceiver(s) && !NoTrashAfterRestriction(s.log)
  {
    ReachWaiting(m);
    ReachMidHandle(m);
    ExecAppend(Start(m, Some(false)), UpToMidHandle(m)[..3], UpToMidHandle(m)[3..]);
    assert UpToMidHandle(m)[..3] + UpToMidHandle(m)[3..] == UpToMidHandle(m);
    FailoverFromMidHandle(m);
    ExecAppend(Start(m, Some(false)), UpToMidHandle(m), FAILOVER);
    var s := AfterFailover(m);
    assert ContinuesLandlock(s.log[0]) && s.log[1].answer.Success?;
    assert IsReceiver(s, 0) && Serving(s.watchdog);
    assert Reaches(m, Some(false), UpToMidHandle(m) + FAILOVER, s);
  }

  /** Without the shared bit nothing is trashed and no restriction is let through. */
  predicate Untracked(s: State) {
    && s.restriction.None?
    && (forall i :: 0 <= i < |s.log| ==> !s.log[i].answer.Success? && !ContinuesLandlock(s.log[i]))
    && (forall p :: p in s.supervisors ==> UntrackedPhase(s.machine, s.supervisors[p].phase))
    && (Serving(s.watchdog) ==> !s.watchdog.phase.Noted?)
  }

  predicate UntrackedPhase(m: Machine, phase: Phase) {
    !phase.Noted? && !phase.Pinned? && (phase.Gated? ==> InvalidFlags(m, phase.n) && !IsLandlock(phase.n))
  }

  lemma UntrackedHandleStep(s: State, w: Supervisor, c: Choice)
    requires Untracked(s) && Holds(w.phase) && UntrackedPhase(s.machine, w.phase)
    ensures var (t, phase) := HandleStep(s, w, c);
            && Untracked(t) && UntrackedPhase(t.machine, phase)
            && t == s.(answered := t.answered, log := t.log)
  {
  }

  lemma UntrackedStep(s: State, a: Action)
    requires Untracked(s) && Apply(s, a).Some?
    ensures Untracked(Apply(s, a).value)
  {
    if a.SupervisorSteps? {
      UntrackedHandleStep(s, s.supervisors[a.p], a.choice);
    }
  }

  lemma {:induction false} UntrackedStaysSafe(s: State, actions: seq<Action>)
    requires Untracked(s) && Exec(s, actions).Some?
    ensures Untracked(Exec(s, actions).value)
    decreases |actions|
  {
    if actions != [] {
      UntrackedStep(s, actions[0]);
      UntrackedStaysSafe(Apply(s, actions[0]).value, actions[1..]);
    }
  }

  lemma UninitializedTrackingTrashesNothing(machine: Machine, actions: seq<Action>, s: State)
    requires Reaches(machine, None, actions, s)
    ensures forall r :: r in s.log ==> !r.answer.Success? && !ContinuesLandlock(r)
  {
    UntrackedStaysSafe(Start(machine, None), actions);
  }

  // ---------------------------------------------------------------- nobody is left waiting

  predicate HeldBySupervisor(s: State, id: nat) {
    exists p :: p in s.supervisors && Holds(s.supervisors[p].phase) && s.supervisors[p].phase.n.id == id
  }

  predicate HeldByWatchdog(s: State, id: nat) {
    Serving(s.watchdog) && Holds(s.watchdog.phase) && s.watchdog.phase.n.id == id
  }

  predicate Settled(s: State, id: nat) {
    id in s.answered || id in s.gone || id in s.lost
  }

  predicate PhaseSettled(s: State, phase: Phase) {
    phase.Answered? ==> phase.n.id in s.answered || phase.n.id in s.gone
  }

  /** A decline answers by the kind of call alone. */
  predicate DeclinedRight(m: Machine, r: Reply) {
    r.declined ==>
      if IsLandlock(r.n) then r.answer.Continue? || r.answer == Errno(EPERM)
      else r.answer == if Deferred(m, r.n) then Errno(ENOSYS) else Continue
  }

  predicate NotedRight(phase: Phase) {
    phase.Noted? ==> IsLandlock(phase.n)
  }

  /** Every reply is booked, right for its call, and the only one to its notification. */
  predicate LogOk(s: State) {
    && (forall i :: 0 <= i < |s.log| ==> s.log[i].n.id in s.answered && DeclinedRight(s.machine, s.log[i]))
    && (forall i, j :: 0 <= i < j < |s.log| ==> s.log[i].n.id != s.log[j].n.id)
  }

  /** No pid is given twice. */
  predicate PidsBelow(s: State) {
    forall p :: p in s.supervisors ==> p < s.nextPid
  }

  predicate AccountInv(s: State) {
    && (forall id :: id in s.received ==> Settled(s, id) || HeldBySupervisor(s, id) || HeldByWatchdog(s, id))
    && (forall p :: p in s.supervisors ==>
          PhaseSettled(s, s.supervisors[p].phase) && NotedRight(s.supervisors[p].phase))
    && (Serving(s.watchdog) ==> PhaseSettled(s, s.watchdog.phase) && NotedRight(s.watchdog.phase))
    && PidsBelow(s) && LogOk(s)
  }

  /** What a send may change. */
  predicate Extends(s: State, t: State) {
    && t.machine == s.machine && t.supervisors == s.supervisors && t.watchdog == s.watchdog
    && t.received == s.received && t.gone == s.gone && t.lost == s.lost && t.nextPid == s.nextPid
    && s.answered <= t.answered && LogOk(t)
  }

  lemma SendAccounts(s: State, n: Notif, answer: Answer, declined: bool)
    requires LogOk(s) && DeclinedRight(s.machine, Reply(n, answer, declined))
    ensures var t := Send(s, n, answer, declined);
            Extends(s, t) && (n.id in t.answered || n.id in t.gone)
  {
  }

  lemma DeclineAccounts(s: State, n: Notif)
    requires LogOk(s)
    ensures var (t, phase) := DeclineStep(s, n);
            && Extends(s, t) && PhaseSettled(t, phase) && NotedRight(phase)
            && Holds(phase) && phase.n == n
  {
    var answer := if IsLandlock(n) then Errno(EPERM) else if Deferred(s.machine, n) then Errno(ENOSYS) else Continue;
    SendAccounts(s, n, answer, true);
  }

  lemma HandleAccounts(s: State, w: Supervisor, c: Choice)
    requires LogOk(s) && Holds(w.phase) && PhaseSettled(s, w.phase) && NotedRight(w.phase)
    ensures var (t, phase) := HandleStep(s, w, c);
            && Extends(s, t) && PhaseSettled(t, phase) && NotedRight(phase)
            && (Holds(phase) ==> phase.n == w.phase.n) && (!Holds(phase) ==> w.phase.Answered?)
  {
    var n := w.phase.n;
    if w.phase.Declining? {
      DeclineAccounts(s, n);
    } else if w.phase.Noted? {
      SendAccounts(s, n, Continue, true);
    } else if w.phase.Pinned? && w.phase.decision.Trashed? {
      SendAccounts(s, n, Success, false);
    } else if w.phase.Pinned? && w.phase.decision.Refuse? {
      SendAccounts(s, n, Errno(w.phase.decision.e), false);
    } else {
      SendAccounts(s, n, Continue, false);
    }
  }

  lemma WatchdogAccounts(s: State, phase: Phase)
    requires LogOk(s) && Holds(phase) && PhaseSettled(s, phase) && NotedRight(phase)
    ensures var (t, next) := WatchdogStep(s, phase);
            && Extends(s, t) && PhaseSettled(t, next) && NotedRight(next)
            && (Holds(next) ==> next.n == phase.n) && (!Holds(next) ==> phase.Answered?)
  {
    if phase.Declining? { DeclineAccounts(s, phase.n); }
    if phase.Noted? { SendAccounts(s, phase.n, Continue, true); }
  }

  lemma SupervisorStepAccounts(s: State, p: Pid, c: Choice)
    requires AccountInv(s) && Apply(s, SupervisorSteps(p, c)).Some?
    ensures AccountInv(Apply(s, SupervisorSteps(p, c)).value)
  {
    var w := s.supervisors[p];
    HandleAccounts(s, w, c);
    var (t, phase) := HandleStep(s, w, c);
    var u := SetPhase(t, p, phase);
    forall id | id in u.received ensures Settled(u, id) || HeldBySupervisor(u, id) || HeldByWatchdog(u, id) {
      if !Settled(s, id) && !HeldByWatchdog(s, id) {
        var q :| q in s.supervisors && Holds(s.supervisors[q].phase) && s.supervisors[q].phase.n.id == id;
        assert q in u.supervisors && (q != p ==> u.supervisors[q] == s.supervisors[q]);
      }
    }
  }

  lemma WatchdogStepAccounts(s: State)
    requires AccountInv(s) && Apply(s, WatchdogSteps).Some?
    ensures AccountInv(Apply(s, WatchdogSteps).value)
  {
    WatchdogAccounts(s, s.watchdog.phase);
    var u := Apply(s, WatchdogSteps).value;
    forall id | id in u.received ensures Settled(u, id) || HeldBySupervisor(u, id) || HeldByWatchdog(u, id) {
      if HeldBySupervisor(s, id) {
        var q :| q in s.supervisors && Holds(s.supervisors[q].phase) && s.supervisors[q].phase.n.id == id;
        assert u.supervisors[q] == s.supervisors[q];
      }
    }
  }

  lemma StepAccounts(s: State, a: Action)
    requires AccountInv(s) && Apply(s, a).Some?
    ensures AccountInv(Apply(s, a).value)
  {
    var u := Apply(s, a).value;
    if a.SupervisorSteps? {
      SupervisorStepAccounts(s, a.p, a.choice);
    } else if a.WatchdogSteps? {
      WatchdogStepAccounts(s);
    } else {
      forall id | id in u.received ensures Settled(u, id) || HeldBySupervisor(u, id) || HeldByWatchdog(u, id) {
        if id in s.received {
          if !Settled(s, id) && !HeldByWatchdog(s, id) {
            var q :| q in s.supervisors && Holds(s.supervisors[q].phase) && s.supervisors[q].phase.n.id == id;
            if q in u.supervisors { assert Holds(u.supervisors[q].phase) && u.supervisors[q].phase.n.id == id; }
          }
        } else if a.SupervisorReceives? {
          assert Holds(u.supervisors[a.p].phase) && u.supervisors[a.p].phase.n.id == id;
        }
      }
    }
  }

  lemma {:induction false} RunAccounts(s: State, actions: seq<Action>)
    requires AccountInv(s) && Exec(s, actions).Some?
    ensures AccountInv(Exec(s, actions).value)
    decreases |actions|
  {
    if actions != [] {
      StepAccounts(s, actions[0]);
      RunAccounts(Apply(s, actions[0]).value, actions[1..]);
    }
  }

  // ---------------------------------------------------------------- main results: answers

  /** In every run, crashes and failed waits included, a received notification is answered, or
    * its target is gone, or a live worker holds it, or a worker died holding it; and no
    * notification is answered twice. */
  lemma EveryNotificationAccounted(machine: Machine, restriction: Option<bool>, actions: seq<Action>, s: State, id: nat)
    requires Reaches(machine, restriction, actions, s) && id in s.received
    ensures Settled(s, id) || HeldBySupervisor(s, id) || HeldByWatchdog(s, id)
    ensures forall i, j :: 0 <= i < j < |s.log| ==> s.log[i].n.id != s.log[j].n.id
  {
    RunAccounts(Start(machine, restriction), actions);
  }

  /** A declined deletion that the preload marked is answered ENOSYS, never continued, whoever
    * declines it and for whatever reason. */
  lemma DeclinedHandoffGetsEnosys(machine: Machine, restriction: Option<bool>, actions: seq<Action>, s: State, r: Reply)
    requires Reaches(machine, restriction, actions, s) && r in s.log && r.declined && Deferred(machine, r.n)
    ensures r.answer == Errno(ENOSYS)
  {
    RunAccounts(Start(machine, restriction), actions);
    MachineFixed(Start(machine, restriction), actions);
    assert !IsLandlock(r.n);
    var i :| 0 <= i < |s.log| && s.log[i] == r;
    assert DeclinedRight(s.machine, s.log[i]);
  }

  lemma {:induction false} MachineFixed(s: State, actions: seq<Action>)
    requires Exec(s, actions).Some?
    ensures Exec(s, actions).value.machine == s.machine
    decreases |actions|
  {
    if actions != [] {
      MachineFixed(Apply(s, actions[0]).value, actions[1..]);
    }
  }

  /** Steps a worker still needs before its notification is answered. */
  function StepsToAnswer(phase: Phase): nat {
    match phase
    case Entered(_) => 5
    case Gated(_) => 4
    case Pinned(_, _) => 3
    case Declining(_) => 2
    case Noted(_) => 1
    case _ => 0
  }

  /** A supervisor left alone answers: each own step brings the answer closer, whatever the
    * outside world chooses, and it is sent when the count reaches zero. */
  lemma HandlerMakesProgress(s: State, p: Pid, c: Choice)
    requires p in s.supervisors && StepsToAnswer(s.supervisors[p].phase) > 0
    ensures Apply(s, SupervisorSteps(p, c)).Some?
    ensures var before, after := s.supervisors[p].phase, Apply(s, SupervisorSteps(p, c)).value;
            && p in after.supervisors
            && StepsToAnswer(after.supervisors[p].phase) < StepsToAnswer(before)
            && (StepsToAnswer(after.supervisors[p].phase) == 0 ==>
                  before.n.id in after.answered || before.n.id in after.gone)
  {
  }

  /** So does a watchdog that serves the listener itself. */
  lemma WatchdogMakesProgress(s: State)
    requires Serving(s.watchdog) && StepsToAnswer(s.watchdog.phase) > 0
    ensures Apply(s, WatchdogSteps).Some?
    ensures var before, after := s.watchdog.phase, Apply(s, WatchdogSteps).value;
            && Serving(after.watchdog)
            && StepsToAnswer(after.watchdog.phase) < StepsToAnswer(before)
            && (StepsToAnswer(after.watchdog.phase) == 0 ==>
                  before.n.id in after.answered || before.n.id in after.gone)
  {
  }

  /** A live worker that holds this notification. */
  predicate Works(s: State, worker: Option<Pid>, id: nat) {
    match worker
    case None => Serving(s.watchdog) && Holds(s.watchdog.phase) && s.watchdog.phase.n.id == id
    case Some(p) =>
      p in s.supervisors && Holds(s.supervisors[p].phase) && s.supervisors[p].phase.n.id == id
  }

  /** Steps it still needs; a supervisor is named by its pid, the watchdog is None. */
  function StepsLeft(s: State, worker: Option<Pid>): nat
    requires worker.None? ==> Serving(s.watchdog)
    requires worker.Some? ==> worker.value in s.supervisors
  {
    StepsToAnswer(if worker.None? then s.watchdog.phase else s.supervisors[worker.value].phase)
  }

  predicate IsOwnStep(worker: Option<Pid>, a: Action) {
    if worker.None? then a.WatchdogSteps? else a.SupervisorSteps? && a.p == worker.value
  }

  /** The worker dies, or panics and starts to decline. */
  predicate Interrupts(worker: Option<Pid>, a: Action) {
    if worker.None? then a.WatchdogDies? else (a.SupervisorDies? || a.SupervisorPanics?) && a.p == worker.value
  }

  function OwnSteps(worker: Option<Pid>, actions: seq<Action>): nat {
    if actions == [] then 0 else (if IsOwnStep(worker, actions[0]) then 1 else 0) + OwnSteps(worker, actions[1..])
  }

  lemma OneActionProgress(s: State, worker: Option<Pid>, id: nat, a: Action)
    requires PidsBelow(s) && Works(s, worker, id) && StepsLeft(s, worker) > 0
    requires Apply(s, a).Some? && !Interrupts(worker, a)
    ensures var t := Apply(s, a).value;
            && PidsBelow(t) && Works(t, worker, id)
            && (if IsOwnStep(worker, a) then StepsLeft(t, worker) < StepsLeft(s, worker)
                else StepsLeft(t, worker) == StepsLeft(s, worker))
            && (StepsLeft(t, worker) == 0 ==> id in t.answered || id in t.gone)
  {
  }

  lemma {:induction false} SettledStays(s: State, actions: seq<Action>)
    requires Exec(s, actions).Some?
    ensures var t := Exec(s, actions).value;
            s.answered <= t.answered && s.gone <= t.gone
    decreases |actions|
  {
    if actions != [] {
      hide Holds, Drop;
      SettledStays(Apply(s, actions[0]).value, actions[1..]);
    }
  }

  lemma {:induction false} WorkerAnswers(s: State, worker: Option<Pid>, id: nat, actions: seq<Action>)
    requires PidsBelow(s) && Works(s, worker, id) && StepsLeft(s, worker) > 0 && Exec(s, actions).Some?
    requires forall i :: 0 <= i < |actions| ==> !Interrupts(worker, actions[i])
    requires OwnSteps(worker, actions) >= StepsLeft(s, worker)
    ensures id in Exec(s, actions).value.answered || id in Exec(s, actions).value.gone
    decreases |actions|
  {
    hide Apply, StepsLeft, Interrupts;
    var t := Apply(s, actions[0]).value;
    OneActionProgress(s, worker, id, actions[0]);
    SettledStays(t, actions[1..]);
    if StepsLeft(t, worker) > 0 { WorkerAnswers(t, worker, id, actions[1..]); }
  }

  /** In every run: a worker, supervisor or watchdog, that holds a notification, is not interrupted and
    * gets to take the steps it needs, at most five, answers it unless its target is gone, whatever
    * all others do in between. */
  lemma EveryWorkerAnswers(machine: Machine, restriction: Option<bool>, before: seq<Action>, s: State,
                           worker: Option<Pid>, id: nat, actions: seq<Action>)
    requires Reaches(machine, restriction, before, s) && Works(s, worker, id) && Exec(s, actions).Some?
    requires StepsLeft(s, worker) > 0 && OwnSteps(worker, actions) >= StepsLeft(s, worker)
    requires forall i :: 0 <= i < |actions| ==> !Interrupts(worker, actions[i])
    ensures StepsLeft(s, worker) <= 5
    ensures id in Exec(s, actions).value.answered || id in Exec(s, actions).value.gone
  {
    RunAccounts(Start(machine, restriction), before);
    WorkerAnswers(s, worker, id, actions);
  }

  // ---------------------------------------------------------------- every notification has one holder

  predicate HoldsId(phase: Phase, id: nat) {
    Holds(phase) && phase.n.id == id
  }

  /** Ids are given once and received once. */
  predicate IdsOnce(s: State) {
    && PidsBelow(s)
    && (forall i :: 0 <= i < |s.pending| ==> s.pending[i].id < s.nextId && s.pending[i].id !in s.received)
    && (forall i, j :: 0 <= i < j < |s.pending| ==> s.pending[i].id != s.pending[j].id)
    && (forall id :: id in s.received ==> id < s.nextId)
    && (forall id :: id in s.answered ==> id in s.received)
  }

  predicate OnlyDeclines(phase: Phase) {
    phase.Declining? || phase.Noted? || phase.Answered?
  }

  /** And held by one worker; what a worker has not yet decided about has no answer. */
  predicate HeldOnce(s: State) {
    && (forall p :: p in s.supervisors && Holds(s.supervisors[p].phase) ==> IsFresh(s, s.supervisors[p].phase))
    && (Serving(s.watchdog) && Holds(s.watchdog.phase) ==>
          && s.watchdog.phase.n.id in s.received && OnlyDeclines(s.watchdog.phase)
          && forall p :: p in s.supervisors ==> !HoldsId(s.supervisors[p].phase, s.watchdog.phase.n.id))
    && (forall p, q :: p in s.supervisors && q in s.supervisors && p != q && Holds(s.supervisors[p].phase) ==>
          !HoldsId(s.supervisors[q].phase, s.supervisors[p].phase.n.id))
  }

  predicate OneHolder(s: State) {
    IdsOnce(s) && HeldOnce(s)
  }

  predicate IsFresh(s: State, phase: Phase)
    requires Holds(phase)
  {
    && phase.n.id in s.received
    && (phase.Entered? || phase.Gated? || phase.Pinned? ==> phase.n.id !in s.answered)
  }

  /** A step of a worker touches its own notification only. */
  lemma StepTouches(s: State, w: Supervisor, c: Choice)
    requires Holds(w.phase)
    ensures var (t, next) := HandleStep(s, w, c);
            && t == s.(answered := t.answered, log := t.log, restriction := t.restriction)
            && (t.restriction.Some? <==> s.restriction.Some?)
            && s.answered <= t.answered <= s.answered + {w.phase.n.id}
            && (Holds(next) ==> next.n == w.phase.n)
            && (next.Entered? || next.Gated? || next.Pinned? ==>
                  t.answered == s.answered && (w.phase.Entered? || w.phase.Gated?))
            && (t.log == s.log || (|t.log| == |s.log| + 1 && t.log[..|s.log|] == s.log
                                   && t.log[|s.log|].n == w.phase.n))
  {
  }

  lemma WatchdogTouches(s: State, phase: Phase)
    requires Holds(phase)
    ensures var (t, next) := WatchdogStep(s, phase);
            && t == s.(answered := t.answered, log := t.log, restriction := t.restriction)
            && (t.restriction.Some? <==> s.restriction.Some?)
            && s.answered <= t.answered <= s.answered + {phase.n.id}
            && (Holds(next) ==> next.n == phase.n && (OnlyDeclines(phase) ==> OnlyDeclines(next)))
            && (t.log == s.log || (|t.log| == |s.log| + 1 && t.log[..|s.log|] == s.log && t.log[|s.log|].n == phase.n))
  {
  }

  lemma SupervisorStepKeepsHolders(s: State, p: Pid, c: Choice)
    requires OneHolder(s) && Apply(s, SupervisorSteps(p, c)).Some?
    ensures OneHolder(Apply(s, SupervisorSteps(p, c)).value)
  {
    hide HandleStep;
    var t := Apply(s, SupervisorSteps(p, c)).value;
    StepTouches(s, s.supervisors[p], c);
    forall q | q in t.supervisors && q != p && Holds(t.supervisors[q].phase)
      ensures IsFresh(t, t.supervisors[q].phase)
    {
      assert !HoldsId(s.supervisors[q].phase, s.supervisors[p].phase.n.id);
    }
  }

  lemma WatchdogStepKeepsHolders(s: State)
    requires OneHolder(s) && Apply(s, WatchdogSteps).Some?
    ensures OneHolder(Apply(s, WatchdogSteps).value)
  {
    hide WatchdogStep;
    WatchdogTouches(s, s.watchdog.phase);
    var t := Apply(s, WatchdogSteps).value;
    forall q | q in t.supervisors && Holds(t.supervisors[q].phase) ensures IsFresh(t, t.supervisors[q].phase) {
      assert !HoldsId(s.supervisors[q].phase, s.watchdog.phase.n.id);
    }
  }

  /** What is received was held by nobody. */
  lemma ReceiveKeepsHolders(s: State, a: Action)
    requires OneHolder(s) && Apply(s, a).Some? && (a.SupervisorReceives? || a.WatchdogReceives?)
    ensures OneHolder(Apply(s, a).value)
  {
    ReceiveKeepsIds(s, a);
    ReceiveKeepsHeld(s, a);
  }

  lemma ReceiveKeepsIds(s: State, a: Action)
    requires IdsOnce(s) && Apply(s, a).Some? && (a.SupervisorReceives? || a.WatchdogReceives?)
    ensures IdsOnce(Apply(s, a).value)
  {
    var t := Apply(s, a).value;
    forall k | 0 <= k < |t.pending| ensures t.pending[k] == s.pending[if k < a.i then k else k + 1] {}
  }

  lemma ReceiveKeepsHeld(s: State, a: Action)
    requires IdsOnce(s) && HeldOnce(s) && Apply(s, a).Some? && (a.SupervisorReceives? || a.WatchdogReceives?)
    ensures HeldOnce(Apply(s, a).value)
  {
    var t, n := Apply(s, a).value, s.pending[a.i];
    assert n.id !in s.received && n.id !in s.answered;
    hide IdsOnce;
    forall q | q in s.supervisors ensures !HoldsId(s.supervisors[q].phase, n.id) {
      if Holds(s.supervisors[q].phase) { assert IsFresh(s, s.supervisors[q].phase); }
    }
  }

  /** A step of a worker with what it holds. */
  predicate IsHandling(a: Action) {
    a.SupervisorSteps? || a.WatchdogSteps? || a.SupervisorReceives? || a.WatchdogReceives?
  }

  lemma OtherKeepsIds(s: State, a: Action)
    requires IdsOnce(s) && Apply(s, a).Some? && !IsHandling(a)
    ensures IdsOnce(Apply(s, a).value)
  {
  }

  lemma OtherKeepsHeld(s: State, a: Action)
    requires PidsBelow(s) && HeldOnce(s) && Apply(s, a).Some? && !IsHandling(a)
    ensures HeldOnce(Apply(s, a).value)
  {
  }

  lemma StepKeepsHolders(s: State, a: Action)
    requires OneHolder(s) && Apply(s, a).Some?
    ensures OneHolder(Apply(s, a).value)
  {
    hide HeldOnce, Apply;
    if a.SupervisorSteps? {
      SupervisorStepKeepsHolders(s, a.p, a.choice);
    } else if a.WatchdogSteps? {
      WatchdogStepKeepsHolders(s);
    } else if IsHandling(a) {
      ReceiveKeepsHolders(s, a);
    } else {
      OtherKeepsIds(s, a);
      OtherKeepsHeld(s, a);
    }
  }

  lemma {:induction false} RunKeepsHolders(s: State, actions: seq<Action>)
    requires OneHolder(s) && Exec(s, actions).Some?
    ensures OneHolder(Exec(s, actions).value)
    decreases |actions|
  {
    hide OneHolder, Apply;
    if actions != [] {
      StepKeepsHolders(s, actions[0]);
      RunKeepsHolders(Apply(s, actions[0]).value, actions[1..]);
    }
  }

  // ---------------------------------------------------------------- main results: which answer

  /** What declining comes to: a sandbox setup goes on if that can be recorded, a marked deletion goes
    * back to the preload, and anything else is the kernel's. */
  function DeclineAnswer(m: Machine, n: Notif, restriction: Option<bool>): Answer {
    if IsLandlock(n) then (if restriction.Some? then Continue else Errno(EPERM))
    else if Deferred(m, n) then Errno(ENOSYS)
    else Continue
  }

  /** By the numbers: what gets which answer when it is declined. */
  lemma DeclineTable(m: Machine, n: Notif, restriction: Option<bool>)
    ensures n.nr == 446 ==> DeclineAnswer(m, n, restriction) == if restriction.Some? then Continue else Errno(1)
    ensures (if m.X86_64? then n.nr == 263 || n.nr == 87 || n.nr == 84 else n.nr == 35) ==>
              DeclineAnswer(m, n, restriction) == if n.mark == 0x7472_6173_6864_6d6b then Errno(38) else Continue
  {
  }

  function AnswerTo(d: PinDecision, m: Machine, n: Notif, restriction: Option<bool>): Answer {
    match d
    case Trashed => Success
    case LeaveToKernel => Continue
    case Refuse(e) => Errno(e)
    case Decline => DeclineAnswer(m, n, restriction)
    case Failed => DeclineAnswer(m, n, restriction)
  }

  /** What a step of a supervisor decides about the notification it holds, if it settles which answer
    * is to be sent. */
  function Decides(s: State, w: Supervisor, c: Choice): Option<Answer> {
    match w.phase
    case Entered(n) =>
      if IsLandlock(n) || !w.protecting then Some(DeclineAnswer(s.machine, n, s.restriction))
      else if n.id in s.gone || !c.valid || InvalidFlags(s.machine, n) then Some(Continue)
      else if !c.lends || Restricts(s) then Some(DeclineAnswer(s.machine, n, s.restriction))
      else None
    case Gated(n) =>
      if InvalidFlags(s.machine, n) || c.capture.Policy? then Some(Continue)
      else if c.capture.Unreadable? then Some(DeclineAnswer(s.machine, n, s.restriction))
      else Some(AnswerTo(c.decision, s.machine, n, s.restriction))
    case _ => None
  }

  /** A worker in this phase sends this answer, if it sends any. */
  predicate Leads(s: State, phase: Phase, answer: Answer) {
    match phase
    case Gated(n) => InvalidFlags(s.machine, n) && answer == Continue
    case Pinned(n, d) => answer == AnswerTo(d, s.machine, n, s.restriction)
    case Declining(n) => answer == DeclineAnswer(s.machine, n, s.restriction)
    case Noted(n) => answer == Continue
    case Answered(n) => n.id in s.answered || n.id in s.gone
    case _ => false
  }

  predicate HolderLeads(s: State, phase: Phase, n: Notif, answer: Answer) {
    HoldsId(phase, n.id) ==>
      phase.n == n && (n.id in s.answered || n.id in s.gone || Leads(s, phase, answer))
  }

  /** All replies to this notification are this answer, and one is there once it is answered. */
  predicate AnsweredAs(log: seq<Reply>, answered: set<nat>, n: Notif, answer: Answer) {
    && (forall i :: 0 <= i < |log| && log[i].n.id == n.id ==> log[i].n == n && log[i].answer == answer)
    && (n.id in answered ==> exists i :: 0 <= i < |log| && log[i].n.id == n.id)
  }

  /** The only answer that this notification has or will get is this one. */
  predicate IsDue(s: State, n: Notif, answer: Answer) {
    && n.id in s.received && AnsweredAs(s.log, s.answered, n, answer)
    && (forall p :: p in s.supervisors ==> HolderLeads(s, s.supervisors[p].phase, n, answer))
    && (Serving(s.watchdog) ==> HolderLeads(s, s.watchdog.phase, n, answer))
  }

  lemma SendAnswersAs(s: State, n: Notif, answer: Answer, declined: bool)
    requires AnsweredAs(s.log, s.answered, n, answer)
    ensures var t := Send(s, n, answer, declined);
            AnsweredAs(t.log, t.answered, n, answer) && (n.id in t.answered || n.id in t.gone)
  {
    var t := Send(s, n, answer, declined);
    if |t.log| > |s.log| { assert t.log[|s.log|].n.id == n.id; }
  }

  /** A reply to another notification changes nothing about this one. */
  lemma OtherReply(s: State, t: State, n: Notif, answer: Answer)
    requires AnsweredAs(s.log, s.answered, n, answer)
    requires t.log == s.log || (|t.log| == |s.log| + 1 && t.log[..|s.log|] == s.log && t.log[|s.log|].n.id != n.id)
    requires n.id in t.answered ==> n.id in s.answered
    ensures AnsweredAs(t.log, t.answered, n, answer)
  {
    if n.id in t.answered {
      var i :| 0 <= i < |s.log| && s.log[i].n.id == n.id;
      assert t.log[i] == s.log[i];
    }
  }

  /** The handler of this notification panics. */
  predicate PanicsOn(s: State, id: nat, a: Action) {
    a.SupervisorPanics? && a.p in s.supervisors && HoldsId(s.supervisors[a.p].phase, id)
  }

  predicate NeverPanicsOn(s: State, id: nat, actions: seq<Action>)
    decreases |actions|
  {
    actions == [] ||
    (!PanicsOn(s, id, actions[0]) &&
     match Apply(s, actions[0]) case None => true case Some(t) => NeverPanicsOn(t, id, actions[1..]))
  }

  /** What the holder of a notification does next about it. */
  lemma HolderStepAnswers(s: State, w: Supervisor, c: Choice, n: Notif, answer: Answer)
    requires AnsweredAs(s.log, s.answered, n, answer) && HolderLeads(s, w.phase, n, answer) && HoldsId(w.phase, n.id)
    requires w.phase.Entered? || w.phase.Gated? || w.phase.Pinned? ==> n.id !in s.answered
    ensures var (t, next) := HandleStep(s, w, c);
            AnsweredAs(t.log, t.answered, n, answer) && HolderLeads(t, next, n, answer)
  {
    hide AnsweredAs;
    SendAnswersAs(s, n, answer, true);
    SendAnswersAs(s, n, answer, false);
  }

  lemma WatchdogStepAnswers(s: State, phase: Phase, n: Notif, answer: Answer)
    requires AnsweredAs(s.log, s.answered, n, answer) && HolderLeads(s, phase, n, answer) && HoldsId(phase, n.id)
    requires OnlyDeclines(phase)
    ensures var (t, next) := WatchdogStep(s, phase);
            AnsweredAs(t.log, t.answered, n, answer) && HolderLeads(t, next, n, answer)
  {
    hide AnsweredAs;
    SendAnswersAs(s, n, answer, true);
  }

  lemma HolderStepKeepsDue(s: State, p: Pid, c: Choice, n: Notif, answer: Answer)
    requires OneHolder(s) && IsDue(s, n, answer)
    requires Apply(s, SupervisorSteps(p, c)).Some? && HoldsId(s.supervisors[p].phase, n.id)
    ensures IsDue(Apply(s, SupervisorSteps(p, c)).value, n, answer)
  {
    hide IdsOnce, HandleStep, AnsweredAs;
    assert IsFresh(s, s.supervisors[p].phase);
    HolderStepAnswers(s, s.supervisors[p], c, n, answer);
    StepTouches(s, s.supervisors[p], c);
  }

  lemma OtherStepKeepsDue(s: State, p: Pid, c: Choice, n: Notif, answer: Answer)
    requires OneHolder(s) && IsDue(s, n, answer)
    requires Apply(s, SupervisorSteps(p, c)).Some? && !HoldsId(s.supervisors[p].phase, n.id)
    ensures IsDue(Apply(s, SupervisorSteps(p, c)).value, n, answer)
  {
    hide IdsOnce, HandleStep, AnsweredAs, HeldOnce;
    StepTouches(s, s.supervisors[p], c);
    OtherReply(s, Apply(s, SupervisorSteps(p, c)).value, n, answer);
  }

  lemma WatchdogStepKeepsDue(s: State, n: Notif, answer: Answer)
    requires OneHolder(s) && IsDue(s, n, answer) && Apply(s, WatchdogSteps).Some?
    ensures IsDue(Apply(s, WatchdogSteps).value, n, answer)
  {
    hide IdsOnce, AnsweredAs, WatchdogStep;
    WatchdogTouches(s, s.watchdog.phase);
    if HoldsId(s.watchdog.phase, n.id) {
      WatchdogStepAnswers(s, s.watchdog.phase, n, answer);
    } else {
      OtherReply(s, Apply(s, WatchdogSteps).value, n, answer);
    }
  }

  lemma OtherKeepsDue(s: State, a: Action, n: Notif, answer: Answer)
    requires IdsOnce(s) && IsDue(s, n, answer) && Apply(s, a).Some?
    requires !PanicsOn(s, n.id, a) || answer == DeclineAnswer(s.machine, n, s.restriction)
    requires !a.SupervisorSteps? && !a.WatchdogSteps?
    ensures IsDue(Apply(s, a).value, n, answer)
  {
    var t := Apply(s, a).value;
    assert t.log == s.log && t.answered == s.answered;
    hide AnsweredAs;
  }

  /** No step changes which answer is due, but a panic of its handler, which starts to decline. */
  lemma StepKeepsDue(s: State, a: Action, n: Notif, answer: Answer)
    requires OneHolder(s) && IsDue(s, n, answer) && Apply(s, a).Some?
    requires !PanicsOn(s, n.id, a) || answer == DeclineAnswer(s.machine, n, s.restriction)
    ensures IsDue(Apply(s, a).value, n, answer)
  {
    hide IsDue, HeldOnce, IdsOnce, PanicsOn;
    if a.SupervisorSteps? {
      if HoldsId(s.supervisors[a.p].phase, n.id) {
        HolderStepKeepsDue(s, a.p, a.choice, n, answer);
      } else {
        OtherStepKeepsDue(s, a.p, a.choice, n, answer);
      }
    } else if a.WatchdogSteps? {
      WatchdogStepKeepsDue(s, n, answer);
    } else {
      OtherKeepsDue(s, a, n, answer);
    }
  }

  /** Whether restrictions can be recorded does not change. */
  lemma TrackingStays(s: State, a: Action)
    requires Apply(s, a).Some?
    ensures var t := Apply(s, a).value;
            t.machine == s.machine && (t.restriction.Some? <==> s.restriction.Some?)
  {
  }

  lemma {:induction false} TrackingFixed(s: State, actions: seq<Action>)
    requires Exec(s, actions).Some?
    ensures var t := Exec(s, actions).value;
            t.machine == s.machine && (t.restriction.Some? <==> s.restriction.Some?)
    decreases |actions|
  {
    hide Apply;
    if actions != [] {
      TrackingStays(s, actions[0]);
      TrackingFixed(Apply(s, actions[0]).value, actions[1..]);
    }
  }

  lemma {:induction false} RunKeepsDue(s: State, actions: seq<Action>, n: Notif, answer: Answer)
    requires OneHolder(s) && IsDue(s, n, answer) && Exec(s, actions).Some?
    requires NeverPanicsOn(s, n.id, actions) || answer == DeclineAnswer(s.machine, n, s.restriction)
    ensures IsDue(Exec(s, actions).value, n, answer)
    decreases |actions|
  {
    hide OneHolder, IsDue, Apply, PanicsOn;
    if actions != [] {
      StepKeepsHolders(s, actions[0]);
      StepKeepsDue(s, actions[0], n, answer);
      TrackingStays(s, actions[0]);
      RunKeepsDue(Apply(s, actions[0]).value, actions[1..], n, answer);
    }
  }

  /** What the step decides becomes due. */
  lemma DecisionIsDue(s: State, p: Pid, c: Choice)
    requires OneHolder(s) && p in s.supervisors && Decides(s, s.supervisors[p], c).Some?
    requires AnsweredAs(s.log, s.answered, s.supervisors[p].phase.n, Decides(s, s.supervisors[p], c).value)
    ensures Apply(s, SupervisorSteps(p, c)).Some?
    ensures var answer := Decides(s, s.supervisors[p], c).value;
            IsDue(Apply(s, SupervisorSteps(p, c)).value, s.supervisors[p].phase.n, answer)
  {
    hide IdsOnce, AnsweredAs;
    var n, answer := s.supervisors[p].phase.n, Decides(s, s.supervisors[p], c).value;
    SendAnswersAs(s, n, answer, false);
    assert IsFresh(s, s.supervisors[p].phase);
  }

  /** The log holds replies to received notifications only. */
  predicate LogIsBooked(s: State) {
    forall i :: 0 <= i < |s.log| ==> s.log[i].n.id in s.answered
  }

  lemma NotYetAnswered(s: State, n: Notif, answer: Answer)
    requires LogIsBooked(s) && n.id !in s.answered
    ensures AnsweredAs(s.log, s.answered, n, answer)
  {
  }

  /** In every run: what a supervisor's step decides about the notification it holds is what is
    * answered, by whoever answers it and whatever all others do meanwhile, unless the handler panics
    * and starts to decline; and once it is answered, that reply is there. */
  lemma DecidedAnswerIsSent(machine: Machine, restriction: Option<bool>, before: seq<Action>, s: State,
                            p: Pid, c: Choice, actions: seq<Action>, t: State)
    requires Reaches(machine, restriction, before, s)
    requires p in s.supervisors && Holds(s.supervisors[p].phase) && Decides(s, s.supervisors[p], c).Some?
    requires Exec(s, [SupervisorSteps(p, c)] + actions) == Some(t)
    requires var n := s.supervisors[p].phase.n;
             || NeverPanicsOn(s, n.id, [SupervisorSteps(p, c)] + actions)
             || Decides(s, s.supervisors[p], c) == Some(DeclineAnswer(s.machine, n, s.restriction))
    ensures var n, answer := s.supervisors[p].phase.n, Decides(s, s.supervisors[p], c).value;
            && (forall r :: r in t.log && r.n.id == n.id ==> r.n == n && r.answer == answer)
            && (n.id in t.answered ==> exists r :: r in t.log && r.n == n && r.answer == answer)
  {
    hide Apply, OneHolder, IsDue, Decides, AccountInv, DeclineAnswer;
    var a, n, answer := SupervisorSteps(p, c), s.supervisors[p].phase.n, Decides(s, s.supervisors[p], c).value;
    var run := [a] + actions;
    assert run[0] == a && run[1..] == actions;
    RunHolders(machine, restriction, before, s);
    Undecided(s, p, c);
    NotYetAnswered(s, n, answer);
    DecisionIsDue(s, p, c);
    var u := Apply(s, a).value;
    StepKeepsHolders(s, a);
    TrackingStays(s, a);
    SameDecline(s.machine, n, s.restriction, u.restriction);
    RunKeepsDue(u, actions, n, answer);
    DueSays(t, n, answer);
  }

  lemma Undecided(s: State, p: Pid, c: Choice)
    requires OneHolder(s) && p in s.supervisors && Holds(s.supervisors[p].phase)
    requires Decides(s, s.supervisors[p], c).Some?
    ensures s.supervisors[p].phase.n.id !in s.answered
  {
    assert IsFresh(s, s.supervisors[p].phase);
  }

  lemma DueSays(s: State, n: Notif, answer: Answer)
    requires IsDue(s, n, answer)
    ensures forall r :: r in s.log && r.n.id == n.id ==> r.n == n && r.answer == answer
    ensures n.id in s.answered ==> exists r :: r in s.log && r.n == n && r.answer == answer
  {
    if n.id in s.answered {
      var i :| 0 <= i < |s.log| && s.log[i].n.id == n.id;
      assert s.log[i] in s.log;
    }
  }

  lemma RunHolders(machine: Machine, restriction: Option<bool>, actions: seq<Action>, s: State)
    requires Reaches(machine, restriction, actions, s)
    ensures OneHolder(s) && LogIsBooked(s)
  {
    RunKeepsHolders(Start(machine, restriction), actions);
    RunAccounts(Start(machine, restriction), actions);
  }

  /** A notification that a serving watchdog receives is declined, and nothing else: a setup goes on
    * if it can be recorded, a marked deletion goes back to the preload, anything else to the kernel. */
  lemma WatchdogDeclines(machine: Machine, restriction: Option<bool>, before: seq<Action>, s: State,
                         i: nat, actions: seq<Action>, t: State)
    requires Reaches(machine, restriction, before, s)
    requires i < |s.pending| && Apply(s, WatchdogReceives(i)).Some?
    requires Exec(s, [WatchdogReceives(i)] + actions) == Some(t)
    ensures var n := s.pending[i];
            var answer := DeclineAnswer(machine, n, restriction);
            && (forall r :: r in t.log && r.n.id == n.id ==> r.n == n && r.answer == answer)
            && (n.id in t.answered ==> exists r :: r in t.log && r.n == n && r.answer == answer)
  {
    hide Apply, OneHolder, IsDue, AccountInv, DeclineAnswer;
    var a, n := WatchdogReceives(i), s.pending[i];
    var run, u := [a] + actions, Apply(s, a).value;
    assert run[0] == a && run[1..] == actions;
    RunHolders(machine, restriction, before, s);
    TrackingFixed(Start(machine, restriction), before);
    ReceivedIsDue(s, i);
    StepKeepsHolders(s, a);
    TrackingStays(s, a);
    SameDecline(machine, n, s.restriction, restriction);
    SameDecline(machine, n, u.restriction, restriction);
    RunKeepsDue(u, actions, n, DeclineAnswer(machine, n, restriction));
    DueSays(t, n, DeclineAnswer(machine, n, restriction));
  }

  lemma SameDecline(m: Machine, n: Notif, restriction: Option<bool>, other: Option<bool>)
    requires restriction.Some? <==> other.Some?
    ensures DeclineAnswer(m, n, restriction) == DeclineAnswer(m, n, other)
  {
  }

  lemma ReceivedIsDue(s: State, i: nat)
    requires OneHolder(s) && LogIsBooked(s) && Apply(s, WatchdogReceives(i)).Some?
    ensures var n := s.pending[i];
            IsDue(Apply(s, WatchdogReceives(i)).value, n, DeclineAnswer(s.machine, n, s.restriction))
  {
    var n := s.pending[i];
    NotYetAnswered(s, n, DeclineAnswer(s.machine, n, s.restriction));
    forall p | p in s.supervisors ensures !HoldsId(s.supervisors[p].phase, n.id) {
      if Holds(s.supervisors[p].phase) { assert IsFresh(s, s.supervisors[p].phase); }
    }
  }

  /** In step `i` of the run a protecting supervisor lets a notification through its gates: it stands,
    * its target may be lent the supervisor's credentials, and is not restricted. */
  predicate Gates(start: State, actions: seq<Action>, i: nat, n: Notif) {
    && i < |actions| && Exec(start, actions[..i]).Some? && actions[i].SupervisorSteps?
    && var s, a := Exec(start, actions[..i]).value, actions[i];
       && a.p in s.supervisors && s.supervisors[a.p] == Supervisor(Entered(n), true)
       && !IsLandlock(n) && n.id !in s.gone && a.choice.valid && a.choice.lends && s.restriction == Some(false)
  }

  /** In step `i` of the run its path is captured, and this is what becomes of the entry. */
  predicate Captures(start: State, actions: seq<Action>, i: nat, n: Notif, d: PinDecision) {
    && i < |actions| && Exec(start, actions[..i]).Some? && actions[i].SupervisorSteps?
    && var s, a := Exec(start, actions[..i]).value, actions[i];
       && a.p in s.supervisors && s.supervisors[a.p].phase == Gated(n)
       && !InvalidFlags(s.machine, n) && a.choice.capture.Captured? && a.choice.decision == d
  }

  ghost predicate WasGated(start: State, actions: seq<Action>, n: Notif) {
    exists i: nat :: Gates(start, actions, i, n)
  }

  ghost predicate WasDecided(start: State, actions: seq<Action>, n: Notif, d: PinDecision) {
    exists i: nat, j: nat :: i < j && Gates(start, actions, i, n) && Captures(start, actions, j, n, d)
  }

  /** What the workers hold and have answered has its reasons in the run. */
  ghost predicate HasReasons(start: State, actions: seq<Action>, s: State) {
    && (forall p :: p in s.supervisors ==> PhaseHasReason(start, actions, s.machine, s.supervisors[p].phase))
    && (Serving(s.watchdog) && Holds(s.watchdog.phase) ==> OnlyDeclines(s.watchdog.phase))
    && (forall i :: 0 <= i < |s.log| ==> ReplyHasReason(start, actions, s.log[i]))
  }

  ghost predicate PhaseHasReason(start: State, actions: seq<Action>, m: Machine, phase: Phase) {
    match phase
    case Gated(n) => InvalidFlags(m, n) || WasGated(start, actions, n)
    case Pinned(n, d) => WasDecided(start, actions, n, d)
    case _ => true
  }

  ghost predicate ReplyHasReason(start: State, actions: seq<Action>, r: Reply) {
    match r.answer
    case Success => WasDecided(start, actions, r.n, Trashed)
    case Errno(e) => r.declined || WasDecided(start, actions, r.n, Refuse(e))
    case Continue => true
  }

  lemma StillGated(start: State, actions: seq<Action>, a: Action, n: Notif)
    requires WasGated(start, actions, n)
    ensures WasGated(start, actions + [a], n)
  {
    var i: nat :| Gates(start, actions, i, n);
    assert (actions + [a])[..i] == actions[..i];
    assert Gates(start, actions + [a], i, n);
  }

  lemma StillDecided(start: State, actions: seq<Action>, a: Action, n: Notif, d: PinDecision)
    requires WasDecided(start, actions, n, d)
    ensures WasDecided(start, actions + [a], n, d)
  {
    var i: nat, j: nat :| i < j && Gates(start, actions, i, n) && Captures(start, actions, j, n, d);
    assert (actions + [a])[..i] == actions[..i] && (actions + [a])[..j] == actions[..j];
    assert Gates(start, actions + [a], i, n) && Captures(start, actions + [a], j, n, d);
  }

  lemma PhaseReasonStays(start: State, actions: seq<Action>, a: Action, m: Machine, phase: Phase)
    requires PhaseHasReason(start, actions, m, phase)
    ensures PhaseHasReason(start, actions + [a], m, phase)
  {
    if phase.Gated? && !InvalidFlags(m, phase.n) { StillGated(start, actions, a, phase.n); }
    if phase.Pinned? { StillDecided(start, actions, a, phase.n, phase.decision); }
  }

  lemma ReplyReasonStays(start: State, actions: seq<Action>, a: Action, r: Reply)
    requires ReplyHasReason(start, actions, r)
    ensures ReplyHasReason(start, actions + [a], r)
  {
    if r.answer.Success? { StillDecided(start, actions, a, r.n, Trashed); }
    if r.answer.Errno? && !r.declined { StillDecided(start, actions, a, r.n, Refuse(r.answer.e)); }
  }

  /** A step of a supervisor that is the next one of the run. */
  lemma StepHasReasons(start: State, actions: seq<Action>, s: State, p: Pid, c: Choice)
    requires Exec(start, actions) == Some(s) && p in s.supervisors && Holds(s.supervisors[p].phase)
    requires PhaseHasReason(start, actions, s.machine, s.supervisors[p].phase)
    ensures var w, more := s.supervisors[p], actions + [SupervisorSteps(p, c)];
            var (t, next) := HandleStep(s, w, c);
            && PhaseHasReason(start, more, s.machine, next)
            && (|t.log| > |s.log| ==> ReplyHasReason(start, more, t.log[|s.log|]))
  {
    var w, a := s.supervisors[p], SupervisorSteps(p, c);
    var more, k := actions + [a], |actions|;
    assert more[..k] == actions && more[k] == a;
    PhaseReasonStays(start, actions, a, s.machine, w.phase);
    hide WasGated, WasDecided, Exec;
    var next := HandleStep(s, w, c).1;
    if next.Gated? && !InvalidFlags(s.machine, next.n) { GatedNow(start, more, k, next.n); }
    if next.Pinned? { DecidedNow(start, actions, a, next.n, next.decision); }
  }

  lemma GatedNow(start: State, actions: seq<Action>, i: nat, n: Notif)
    requires Gates(start, actions, i, n)
    ensures WasGated(start, actions, n)
  {
  }

  lemma DecidedNow(start: State, actions: seq<Action>, a: Action, n: Notif, d: PinDecision)
    requires WasGated(start, actions, n) && Captures(start, actions + [a], |actions|, n, d)
    ensures WasDecided(start, actions + [a], n, d)
  {
    var i: nat :| Gates(start, actions, i, n);
    assert (actions + [a])[..i] == actions[..i];
    assert Gates(start, actions + [a], i, n);
  }

  lemma NextHasReasons(start: State, actions: seq<Action>, s: State, a: Action)
    requires Exec(start, actions) == Some(s) && HasReasons(start, actions, s) && Apply(s, a).Some?
    ensures HasReasons(start, actions + [a], Apply(s, a).value)
  {
    hide PhaseHasReason, ReplyHasReason, HandleStep, WatchdogStep, Exec;
    var t, more := Apply(s, a).value, actions + [a];
    forall p | p in s.supervisors ensures PhaseHasReason(start, more, s.machine, s.supervisors[p].phase) {
      PhaseReasonStays(start, actions, a, s.machine, s.supervisors[p].phase);
    }
    forall i | 0 <= i < |s.log| ensures ReplyHasReason(start, more, s.log[i]) {
      ReplyReasonStays(start, actions, a, s.log[i]);
    }
    if a.SupervisorSteps? {
      StepTouches(s, s.supervisors[a.p], a.choice);
      StepHasReasons(start, actions, s, a.p, a.choice);
    } else if a.WatchdogSteps? {
      WatchdogTouches(s, s.watchdog.phase);
      WatchdogHasReasons(start, more, s, s.watchdog.phase);
    }
    if !a.SupervisorSteps? { OtherPhases(start, more, s, a); }
  }

  lemma WatchdogHasReasons(start: State, actions: seq<Action>, s: State, phase: Phase)
    requires OnlyDeclines(phase)
    ensures var t := WatchdogStep(s, phase).0;
            |t.log| > |s.log| ==> ReplyHasReason(start, actions, t.log[|s.log|])
  {
  }

  /** No other action leads a supervisor past its gates. */
  lemma OtherPhases(start: State, actions: seq<Action>, s: State, a: Action)
    requires Apply(s, a).Some? && !a.SupervisorSteps?
    ensures var t := Apply(s, a).value;
            forall p :: p in t.supervisors && (p !in s.supervisors || t.supervisors[p] != s.supervisors[p]) ==>
              PhaseHasReason(start, actions, s.machine, t.supervisors[p].phase)
  {
  }

  lemma {:induction false} RunHasReasons(start: State, actions: seq<Action>, s: State)
    requires Exec(start, actions) == Some(s)
    requires start.supervisors == map[] && !Serving(start.watchdog) && start.log == []
    ensures HasReasons(start, actions, s)
    decreases |actions|
  {
    hide HasReasons, Apply;
    if actions == [] {
      NoReasonsYet(start, actions);
    } else {
      var k := |actions| - 1;
      var before := actions[..k];
      assert actions == before + [actions[k]];
      PrefixRuns(start, before, actions[k]);
      var u := Exec(start, before).value;
      RunHasReasons(start, before, u);
      NextHasReasons(start, before, u, actions[k]);
    }
  }

  lemma NoReasonsYet(start: State, actions: seq<Action>)
    requires start.supervisors == map[] && !Serving(start.watchdog) && start.log == []
    ensures HasReasons(start, actions, start)
  {
  }

  lemma {:induction false} PrefixRuns(s: State, actions: seq<Action>, a: Action)
    requires Exec(s, actions + [a]).Some?
    ensures Exec(s, actions).Some? && Exec(s, actions + [a]) == Apply(Exec(s, actions).value, a)
    decreases |actions|
  {
    hide Apply;
    if actions == [] {
      assert (actions + [a])[1..] == [] && (actions + [a])[0] == a;
    } else {
      assert (actions + [a])[1..] == actions[1..] + [a];
      PrefixRuns(Apply(s, actions[0]).value, actions[1..], a);
    }
  }

  /** In every run: a deletion is answered as trashed only if some step captured its path and the
    * entry was trashed, and an error is only passed on, but by a decline, if that step refused with
    * it; before that a step found the notification standing, its target one to lend credentials to,
    * and no restriction. */
  lemma AnswersHaveReasons(machine: Machine, restriction: Option<bool>, actions: seq<Action>, s: State, r: Reply)
    requires Reaches(machine, restriction, actions, s) && r in s.log
    ensures r.answer.Success? ==> WasDecided(Start(machine, restriction), actions, r.n, Trashed)
    ensures r.answer.Errno? && !r.declined ==>
              WasDecided(Start(machine, restriction), actions, r.n, Refuse(r.answer.e))
  {
    RunHasReasons(Start(machine, restriction), actions, s);
    hide WasDecided;
    var i :| 0 <= i < |s.log| && s.log[i] == r;
    assert ReplyHasReason(Start(machine, restriction), actions, s.log[i]);
  }
}
