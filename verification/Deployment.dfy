/** The serial deployment: any number of deployers, a lock file created exclusively, failures and crashes anywhere. */
module DeploymentProtocol {
  import opened Runs
  datatype Outcome = Succeeded | FailedUnstarted | FailedStopped | Interrupted

  datatype Action =
    | LockTaken
    | MigrationDone
    | ControlPlaneUp
    | SeenHealthy
    | IsolationChecked
    | IngressRequested
    | Verified
    | ControlPlaneFailed
    | StopRequested
    | LockReleased(outcome: Outcome)

  datatype Event = Event(deployer: nat, action: Action)

  datatype Stage =
    | Outside
    | Refused                       // a check before the lock failed, or the lock file was there
    | LockLeaked                    // the lock file was created, but writing it failed
    | Validating
    | Migrating
    | StartingControlPlane
    | Polling
    | CheckingIsolation
    | StartingIngress
    | Verifying
    | Stopping
    | Releasing(outcome: Outcome)
    | Finished(outcome: Outcome)
    | Crashed

  datatype State = State(lockFile: bool, stages: seq<Stage>, log: seq<Event>)

  /** Past `acquire_lock` and not yet through the `finally` block. */
  predicate Inside(stage: Stage) {
    match stage
    case Outside | Refused | LockLeaked | Finished(_) | Crashed => false
    case _ => true
  }

  predicate IsOver(stage: Stage) {
    stage.Refused? || stage.LockLeaked? || stage.Finished? || stage.Crashed?
  }

  predicate Goes(s: State, p: nat, s': State, lockFile: bool, actions: seq<Action>, stage: Stage)
    requires p < |s.stages|
  {
    s' == State(lockFile, s.stages[p := stage], s.log + Tagged(p, actions))
  }

  function Tagged(p: nat, actions: seq<Action>): (r: seq<Event>)
    ensures |r| == |actions| && forall i :: 0 <= i < |r| ==> r[i] == Event(p, actions[i])
  {
    seq(|actions|, i requires 0 <= i < |actions| => Event(p, actions[i]))
  }

  /** Deployer `p` proceeds by one step of `deploy`. */
  predicate Proceeds(s: State, p: nat, s': State)
    requires p < |s.stages|
  {
    match s.stages[p]
    case Outside =>
      || Goes(s, p, s', s.lockFile, [], Refused)
      || (!s.lockFile && Goes(s, p, s', true, [LockTaken], Validating))
      || (!s.lockFile && Goes(s, p, s', true, [], LockLeaked))
    case Validating =>
      Goes(s, p, s', s.lockFile, [], Migrating) || Goes(s, p, s', s.lockFile, [], Releasing(FailedUnstarted))
    case Migrating =>
      || Goes(s, p, s', s.lockFile, [MigrationDone], StartingControlPlane)
      || Goes(s, p, s', s.lockFile, [], Releasing(FailedUnstarted))
    case StartingControlPlane =>
      || Goes(s, p, s', s.lockFile, [ControlPlaneUp], Polling)
      || Goes(s, p, s', s.lockFile, [ControlPlaneFailed], Releasing(FailedUnstarted))  // `started` is not set yet
    case Polling =>
      || Goes(s, p, s', s.lockFile, [], Polling)
      || Goes(s, p, s', s.lockFile, [SeenHealthy], CheckingIsolation)
      || Goes(s, p, s', s.lockFile, [], Stopping)
    case CheckingIsolation =>
      Goes(s, p, s', s.lockFile, [IsolationChecked], StartingIngress) || Goes(s, p, s', s.lockFile, [], Stopping)
    case StartingIngress =>
      || Goes(s, p, s', s.lockFile, [IngressRequested], Verifying)
      || Goes(s, p, s', s.lockFile, [IngressRequested], Stopping)
    case Verifying =>
      Goes(s, p, s', s.lockFile, [Verified], Releasing(Succeeded)) || Goes(s, p, s', s.lockFile, [], Stopping)
    case Stopping =>
      Goes(s, p, s', s.lockFile, [StopRequested], Releasing(FailedStopped))
    case Releasing(outcome) =>
      || Goes(s, p, s', false, [LockReleased(outcome)], Finished(outcome))
      || Goes(s, p, s', s.lockFile, [], Finished(outcome))  // the lock file could not be removed
    case _ => false
  }

  /** An interrupt is no ordinary failure: `except Exception` lets it pass, `finally` still runs. */
  predicate IsInterrupted(s: State, p: nat, s': State)
    requires p < |s.stages|
  {
    Inside(s.stages[p]) && !s.stages[p].Releasing? && Goes(s, p, s', s.lockFile, [], Releasing(Interrupted))
  }

  predicate Crashes(s: State, p: nat, s': State)
    requires p < |s.stages|
  {
    !IsOver(s.stages[p]) && Goes(s, p, s', s.lockFile, [], Crashed)
  }

  predicate Step(s: State, p: nat, s': State) {
    p < |s.stages| && (Proceeds(s, p, s') || IsInterrupted(s, p, s') || Crashes(s, p, s'))
  }

  /** Any deployer that is not over can crash in any state, and leaves lock file and log as they are. */
  lemma AnyDeployerCanCrash(s: State, p: nat)
    requires p < |s.stages|
    requires !s.stages[p].Finished? && s.stages[p] !in {Refused, LockLeaked, Crashed}
    ensures Step(s, p, State(s.lockFile, s.stages[p := Crashed], s.log))
  {
    assert s.log + Tagged(p, []) == s.log;
  }

  /** Any deployer between taking the lock and releasing it can be interrupted, and goes on to release it. */
  lemma AnyDeployerCanBeInterrupted(s: State, p: nat)
    requires p < |s.stages|
    requires s.stages[p] in {Validating, Migrating, StartingControlPlane, Polling, CheckingIsolation, StartingIngress,
                             Verifying, Stopping}
    ensures Step(s, p, State(s.lockFile, s.stages[p := Releasing(Interrupted)], s.log))
  {
    assert s.log + Tagged(p, []) == s.log;
  }

  ghost predicate Initial(s: State) {
    s.log == [] && forall p :: 0 <= p < |s.stages| ==> s.stages[p] == Outside
  }

  // ----- mutual exclusion -----

  ghost predicate OneInside(s: State) {
    && (forall p :: 0 <= p < |s.stages| && Inside(s.stages[p]) ==> s.lockFile)
    && forall p, q :: 0 <= p < |s.stages| && 0 <= q < |s.stages| ==>
         Inside(s.stages[p]) && Inside(s.stages[q]) ==> p == q
  }

  lemma StepKeepsOneInside(s: State, p: nat, s': State)
    requires OneInside(s) && Step(s, p, s')
    ensures OneInside(s')
  {
    forall q | 0 <= q < |s'.stages| && q != p ensures s'.stages[q] == s.stages[q] {}
    assert s'.stages[p] == Validating || (Inside(s'.stages[p]) ==> Inside(s.stages[p]));
  }

  // ----- what the log says -----

  /** The actions of a deployment that works, in order. */
  function Milestones(k: nat): (r: seq<Action>)
    requires k <= 7
    ensures |r| == k
  {
    [LockTaken, MigrationDone, ControlPlaneUp, SeenHealthy, IsolationChecked, IngressRequested, Verified][..k]
  }

  /** What a deployer has logged since it took the lock. */
  ghost predicate Trace(stage: Stage, actions: seq<Action>) {
    match stage
    case Validating => actions == Milestones(1)
    case Migrating => actions == Milestones(1)
    case StartingControlPlane => actions == Milestones(2)
    case Polling => actions == Milestones(3)
    case CheckingIsolation => actions == Milestones(4)
    case StartingIngress => actions == Milestones(5)
    case Verifying => actions == Milestones(6)
    case Stopping => exists k :: 3 <= k <= 6 && actions == Milestones(k)
    case Releasing(Succeeded) => actions == Milestones(7)
    case Releasing(FailedUnstarted) =>
      actions == Milestones(1) || actions == Milestones(2) || actions == Milestones(2) + [ControlPlaneFailed]
    case Releasing(FailedStopped) => exists k :: 3 <= k <= 6 && actions == Milestones(k) + [StopRequested]
    case Releasing(Interrupted) => exists k :: 1 <= k <= 6 && actions == Milestones(k)
    case _ => true
  }

  /** The log ends with the actions of `p`, one deployment's worth, nobody else's among them. */
  ghost predicate EndsWith(log: seq<Event>, p: nat, actions: seq<Action>) {
    |actions| <= |log| && log[|log| - |actions|..] == Tagged(p, actions)
  }

  ghost predicate InsideTraced(s: State, p: nat) {
    p < |s.stages| && Inside(s.stages[p]) ==>
      exists actions :: Trace(s.stages[p], actions) && EndsWith(s.log, p, actions)
  }

  /** Ingress is requested directly after the five milestones before it, by the same deployer. */
  ghost predicate IngressGuarded(log: seq<Event>, e: nat) {
    e < |log| && log[e].action.IngressRequested? ==>
      5 <= e && log[e - 5..e + 1] == Tagged(log[e].deployer, Milestones(6))
  }

  /** The lock is released after a whole deployment by one deployer, with the trace its outcome calls for. */
  ghost predicate ReleaseTraced(log: seq<Event>, e: nat) {
    e < |log| && log[e].action.LockReleased? ==>
      exists actions ::
        Trace(Releasing(log[e].action.outcome), actions) && EndsWith(log[..e], log[e].deployer, actions)
  }

  ghost predicate LogSound(s: State) {
    && (forall p :: InsideTraced(s, p))
    && (forall e :: IngressGuarded(s.log, e))
    && forall e :: ReleaseTraced(s.log, e)
  }

  ghost predicate Inv(s: State) {
    OneInside(s) && LogSound(s)
  }

  lemma GrownTrace(log: seq<Event>, p: nat, actions: seq<Action>, more: seq<Action>)
    requires EndsWith(log, p, actions)
    ensures EndsWith(log + Tagged(p, more), p, actions + more)
  {
  }

  lemma NextMilestone(k: nat)
    requires k < 7
    ensures Milestones(k + 1) == Milestones(k) + [Milestones(k + 1)[k]]
  {
  }

  /** One step inside, seen from the deployer alone. */
  predicate Advances(stage: Stage, more: seq<Action>, next: Stage) {
    || (next == Releasing(Interrupted) && more == [] && !stage.Releasing?)
    || match stage
       case Validating => more == [] && (next == Migrating || next == Releasing(FailedUnstarted))
       case Migrating =>
         || (more == [MigrationDone] && next == StartingControlPlane)
         || (more == [] && next == Releasing(FailedUnstarted))
       case StartingControlPlane =>
         || (more == [ControlPlaneUp] && next == Polling)
         || (more == [ControlPlaneFailed] && next == Releasing(FailedUnstarted))
       case Polling =>
         || (more == [] && (next == Polling || next == Stopping))
         || (more == [SeenHealthy] && next == CheckingIsolation)
       case CheckingIsolation =>
         (more == [IsolationChecked] && next == StartingIngress) || (more == [] && next == Stopping)
       case StartingIngress => more == [IngressRequested] && (next == Verifying || next == Stopping)
       case Verifying => (more == [Verified] && next == Releasing(Succeeded)) || (more == [] && next == Stopping)
       case Stopping => more == [StopRequested] && next == Releasing(FailedStopped)
       case _ => false
  }

  lemma StepAdvances(s: State, p: nat, s': State) returns (more: seq<Action>)
    requires Step(s, p, s') && Inside(s.stages[p]) && Inside(s'.stages[p])
    ensures Advances(s.stages[p], more, s'.stages[p]) && s'.log == s.log + Tagged(p, more)
  {
    assert s'.stages[p] != Crashed;
    if IsInterrupted(s, p, s') {
      more := [];
    } else {
      more := match s.stages[p]
        case Migrating => if s'.stages[p] == StartingControlPlane then [MigrationDone] else []
        case StartingControlPlane => if s'.stages[p] == Polling then [ControlPlaneUp] else [ControlPlaneFailed]
        case Polling => if s'.stages[p] == CheckingIsolation then [SeenHealthy] else []
        case CheckingIsolation => if s'.stages[p] == StartingIngress then [IsolationChecked] else []
        case StartingIngress => [IngressRequested]
        case Verifying => if s'.stages[p] == Stopping then [] else [Verified]
        case Stopping => [StopRequested]
        case _ => [];
    }
  }

  lemma WorkingTrace(stage: Stage, actions: seq<Action>) returns (k: nat)
    requires Trace(stage, actions) && Inside(stage) && !stage.Releasing?
    ensures 1 <= k <= 6 && actions == Milestones(k)
    ensures match stage
            case Validating => k == 1
            case Migrating => k == 1
            case StartingControlPlane => k == 2
            case Polling => k == 3
            case CheckingIsolation => k == 4
            case StartingIngress => k == 5
            case Verifying => k == 6
            case _ => k >= 3
  {
    if stage == Stopping {
      k :| 3 <= k <= 6 && actions == Milestones(k);
    } else {
      k := if stage == Validating || stage == Migrating then 1
           else if stage == StartingControlPlane then 2
           else if stage == Polling then 3
           else if stage == CheckingIsolation then 4
           else if stage == StartingIngress then 5
           else 6;
    }
  }

  lemma AdvancingKeepsTrace(stage: Stage, actions: seq<Action>, more: seq<Action>, next: Stage)
    requires Trace(stage, actions) && Inside(stage) && !stage.Releasing? && Advances(stage, more, next)
    ensures Trace(next, actions + more)
  {
    var k := WorkingTrace(stage, actions);
    NextMilestone(k);
    assert actions + [] == actions;
  }

  lemma StepKeepsTrace(s: State, p: nat, s': State, q: nat)
    requires OneInside(s) && Step(s, p, s') && InsideTraced(s, q)
    ensures InsideTraced(s', q)
  {
    if q < |s'.stages| && Inside(s'.stages[q]) {
      if q == p && s.stages[p] == Outside {
        assert Tagged(p, [LockTaken]) == s'.log[|s.log|..];
        assert Trace(Validating, Milestones(1)) && EndsWith(s'.log, p, Milestones(1));
      } else if q == p {
        var more := StepAdvances(s, p, s');
        var actions :| Trace(s.stages[p], actions) && EndsWith(s.log, p, actions);
        AdvancingKeepsTrace(s.stages[p], actions, more, s'.stages[p]);
        GrownTrace(s.log, p, actions, more);
      } else {
        assert s'.log == s.log + Tagged(p, []);
        assert s'.log == s.log;
      }
    }
  }

  lemma StepAppends(s: State, p: nat, s': State) returns (more: seq<Action>)
    requires Step(s, p, s')
    ensures s'.log == s.log + Tagged(p, more) && |more| <= 1
    ensures IngressRequested in more ==> s.stages[p] == StartingIngress
    ensures forall outcome :: LockReleased(outcome) in more ==> s.stages[p] == Releasing(outcome)
  {
    if Inside(s.stages[p]) && Inside(s'.stages[p]) {
      more := StepAdvances(s, p, s');
    } else if s.stages[p].Releasing? && Goes(s, p, s', false, [LockReleased(s.stages[p].outcome)],
                                             Finished(s.stages[p].outcome)) {
      more := [LockReleased(s.stages[p].outcome)];
    } else if s.stages[p] == Outside && s'.stages[p] == Validating {
      more := [LockTaken];
    } else {
      more := [];
    }
  }

  lemma StepExtendsLog(s: State, p: nat, s': State)
    requires Step(s, p, s')
    ensures |s.log| <= |s'.log| <= |s.log| + 1 && s'.log[..|s.log|] == s.log
    ensures |s'.log| > |s.log| ==> s'.log[|s.log|].deployer == p
    ensures |s'.log| > |s.log| && s'.log[|s.log|].action.IngressRequested? ==> s.stages[p] == StartingIngress
    ensures |s'.log| > |s.log| && s'.log[|s.log|].action.LockReleased? ==>
              s.stages[p] == Releasing(s'.log[|s.log|].action.outcome)
  {
    var more := StepAppends(s, p, s');
    assert |more| > 0 ==> s'.log[|s.log|] == Event(p, more[0]) && more[0] in more;
  }

  lemma OldIngressStaysGuarded(log: seq<Event>, longer: seq<Event>, e: nat)
    requires e < |log| <= |longer| && longer[..|log|] == log && IngressGuarded(log, e)
    ensures IngressGuarded(longer, e)
  {
  }

  lemma NewIngressIsGuarded(log: seq<Event>, p: nat)
    requires EndsWith(log, p, Milestones(5))
    ensures IngressGuarded(log + Tagged(p, [IngressRequested]), |log|)
  {
  }

  lemma StepKeepsIngressGuarded(s: State, p: nat, s': State, e: nat)
    requires Step(s, p, s') && InsideTraced(s, p) && IngressGuarded(s.log, e)
    ensures IngressGuarded(s'.log, e)
  {
    StepExtendsLog(s, p, s');
    if e < |s.log| {
      OldIngressStaysGuarded(s.log, s'.log, e);
    } else if e == |s.log| && e < |s'.log| && s'.log[e].action.IngressRequested? {
      NewIngressIsGuarded(s.log, p);
      assert s'.log == s.log + Tagged(p, [IngressRequested]);
    }
  }

  lemma StepKeepsReleaseTraced(s: State, p: nat, s': State, e: nat)
    requires Step(s, p, s') && InsideTraced(s, p) && ReleaseTraced(s.log, e)
    ensures ReleaseTraced(s'.log, e)
  {
    StepExtendsLog(s, p, s');
    if e < |s.log| {
      assert s'.log[e] == s'.log[..|s.log|][e] == s.log[e];
      assert s'.log[..e] == s'.log[..|s.log|][..e] == s.log[..e];
    } else if e == |s.log| && e < |s'.log| && s'.log[e].action.LockReleased? {
      var actions :| Trace(s.stages[p], actions) && EndsWith(s.log, p, actions);
      assert s'.log[..e] == s.log;
    }
  }

  lemma StepKeepsInv(s: State, p: nat, s': State)
    requires Inv(s) && Step(s, p, s')
    ensures Inv(s')
  {
    StepKeepsOneInside(s, p, s');
    forall q ensures InsideTraced(s', q) {
      StepKeepsTrace(s, p, s', q);
    }
    forall e ensures IngressGuarded(s'.log, e) {
      StepKeepsIngressGuarded(s, p, s', e);
    }
    forall e ensures ReleaseTraced(s'.log, e) {
      StepKeepsReleaseTraced(s, p, s', e);
    }
  }

  lemma RunKeepsInv(r: Run<State>, i: nat)
    requires IsRun(r, Step) && Initial(r.states[0]) && i < |r.states|
    ensures Inv(r.states[i])
  {
    forall s, p, s' | Inv(s) && Step(s, p, s') ensures Inv(s') {
      StepKeepsInv(s, p, s');
    }
    RunKeeps(r, Step, Inv, i);
  }

  // ----- what every run guarantees -----

  /** In every interleaving at most one deployer is past `acquire_lock`, and the lock file exists then. */
  lemma OneDeployerInside(r: Run<State>, i: nat, p: nat, q: nat)
    requires IsRun(r, Step) && Initial(r.states[0]) && i < |r.states|
    requires p < |r.states[i].stages| && q < |r.states[i].stages|
    requires Inside(r.states[i].stages[p]) && Inside(r.states[i].stages[q])
    ensures p == q && r.states[i].lockFile
  {
    RunKeepsInv(r, i);
  }

  /**
    In every interleaving, a request to start ingress comes directly after the same deployer took the lock, migrated,
    started the Control Plane, saw it healthy and checked its isolation, in that order and with nothing that anybody
    else did in between: others can only be refused meanwhile.
   */
  lemma IngressComesLast(r: Run<State>, i: nat, e: nat)
    requires IsRun(r, Step) && Initial(r.states[0]) && i < |r.states|
    requires e < |r.states[i].log| && r.states[i].log[e].action == IngressRequested
    ensures e >= 5 && forall k :: e - 5 <= k < e ==> r.states[i].log[k].deployer == r.states[i].log[e].deployer
    ensures r.states[i].log[e - 5].action == LockTaken && r.states[i].log[e - 4].action == MigrationDone
    ensures r.states[i].log[e - 3].action == ControlPlaneUp && r.states[i].log[e - 2].action == SeenHealthy
    ensures r.states[i].log[e - 1].action == IsolationChecked
  {
    RunKeepsInv(r, i);
    var log := r.states[i].log;
    assert IngressGuarded(log, e);
    forall k | 0 <= k < 6 ensures log[e - 5 + k] == Event(log[e].deployer, Milestones(6)[k]) {
      assert log[e - 5..e + 1][k] == Tagged(log[e].deployer, Milestones(6))[k];
    }
    forall k | e - 5 <= k < e ensures log[k].deployer == log[e].deployer {
      assert log[e - 5 + (k - (e - 5))].deployer == log[e].deployer;
    }
    assert Milestones(6)[0] == LockTaken && Milestones(6)[1] == MigrationDone;
    assert Milestones(6)[2] == ControlPlaneUp && Milestones(6)[3] == SeenHealthy;
    assert Milestones(6)[4] == IsolationChecked;
  }

  /**
    When a deployer releases the lock, everything back to where it took it is its own doing. If the Control Plane had
    come up and the deployment neither succeeded nor was interrupted, the last thing before the release is the stop
    request; a success is verified; an interrupted deployment is released without any stop request; and the lock is
    never released as unstarted once the Control Plane is up.
   */
  lemma ReleaseComesAfterStop(r: Run<State>, i: nat, e: nat) returns (from: nat)
    requires IsRun(r, Step) && Initial(r.states[0]) && i < |r.states|
    requires e < |r.states[i].log| && r.states[i].log[e].action.LockReleased?
    ensures var log := r.states[i].log;
            var p, outcome := log[e].deployer, log[e].action.outcome;
            && from < e && log[from].action == LockTaken
            && (forall k :: from <= k < e ==> log[k].deployer == p)
            && (outcome == Succeeded ==> log[e - 1].action == Verified)
            && (outcome == FailedStopped ==> log[e - 1].action == StopRequested)
            && (outcome == Interrupted ==> forall k :: from <= k < e ==> log[k].action != StopRequested)
            && ((exists k :: from <= k < e && log[k].action == ControlPlaneUp) ==> outcome != FailedUnstarted)
  {
    RunKeepsInv(r, i);
    var log := r.states[i].log;
    var p, outcome := log[e].deployer, log[e].action.outcome;
    assert ReleaseTraced(log, e);
    var actions :| Trace(Releasing(outcome), actions) && EndsWith(log[..e], p, actions);
    from := e - |actions|;
    forall k | 0 <= k < |actions| ensures log[from + k] == Event(p, actions[k]) {
      assert log[..e][from..][k] == Tagged(p, actions)[k];
    }
    ReleaseTraceShape(outcome, actions);
    forall k | from <= k < e ensures log[k] == Event(p, actions[k - from]) {
      assert log[from + (k - from)] == Event(p, actions[k - from]);
    }
  }

  lemma ReleaseTraceShape(outcome: Outcome, actions: seq<Action>)
    requires Trace(Releasing(outcome), actions)
    ensures actions != [] && actions[0] == LockTaken
    ensures outcome == Succeeded ==> actions[|actions| - 1] == Verified
    ensures outcome == FailedStopped ==> actions[|actions| - 1] == StopRequested
    ensures outcome == FailedUnstarted ==> forall k :: 0 <= k < |actions| ==> actions[k] != ControlPlaneUp
    ensures outcome == Interrupted ==> forall k :: 0 <= k < |actions| ==> actions[k] != StopRequested
  {
  }

  /** Nobody is inside, but the lock file is there. */
  ghost predicate Abandoned(s: State) {
    s.lockFile && forall p :: 0 <= p < |s.stages| ==> !Inside(s.stages[p])
  }

  /** A step that leaves the lock file behind: a crash inside, a lock file that cannot be written or removed. */
  predicate LeavesLockBehind(s: State, p: nat, s': State) {
    && p < |s.stages| == |s'.stages|
    && (|| (Inside(s.stages[p]) && s'.stages[p] == Crashed)
        || (s.stages[p] == Outside && s'.stages[p] == LockLeaked)
        || (s.stages[p].Releasing? && s'.stages[p].Finished? && s'.lockFile))
  }

  predicate LeavesLockBehindAt(r: Run<State>, k: nat)
    requires k < |r.moves| < |r.states|
  {
    LeavesLockBehind(r.states[k], r.moves[k], r.states[k + 1])
  }

  lemma AbandonedStep(s: State, p: nat, s': State)
    requires Step(s, p, s') && OneInside(s)
    ensures Abandoned(s) ==> Abandoned(s') && s'.log == s.log && !LeavesLockBehind(s, p, s')
    ensures LeavesLockBehind(s, p, s') ==> Abandoned(s')
    ensures !Abandoned(s) && Abandoned(s') ==> LeavesLockBehind(s, p, s')
  {
    forall q | 0 <= q < |s'.stages| && q != p ensures s'.stages[q] == s.stages[q] {}
    assert Tagged(p, []) == [];
  }

  /** An abandoned lock locks everybody out for good: nobody ever gets in again, and nothing is done any more. */
  lemma {:induction false} AbandonedLockStaysForever(r: Run<State>, i: nat, j: nat)
    requires IsRun(r, Step) && Initial(r.states[0]) && i <= j < |r.states| && Abandoned(r.states[i])
    ensures Abandoned(r.states[j]) && r.states[j].log == r.states[i].log
  {
    if i < j {
      AbandonedLockStaysForever(r, i, j - 1);
      RunKeepsInv(r, j - 1);
      assert StepAt(r, Step, j - 1);
      AbandonedStep(r.states[j - 1], r.moves[j - 1], r.states[j]);
    }
  }

  /**
    When the lock is abandoned, exactly: starting without a lock file, a state locks everybody out if and only if some
    step before it was a crash inside, a lock file that could be created but not written, or one not removed.
   */
  lemma {:induction false} LockIsAbandonedExactly(r: Run<State>, i: nat)
    requires IsRun(r, Step) && Initial(r.states[0]) && !r.states[0].lockFile && i < |r.states|
    ensures Abandoned(r.states[i]) <==> exists k :: 0 <= k < i && LeavesLockBehindAt(r, k)
  {
    if i > 0 {
      LockIsAbandonedExactly(r, i - 1);
      RunKeepsInv(r, i - 1);
      assert StepAt(r, Step, i - 1);
      AbandonedStep(r.states[i - 1], r.moves[i - 1], r.states[i]);
      assert LeavesLockBehindAt(r, i - 1) <==> LeavesLockBehind(r.states[i - 1], r.moves[i - 1], r.states[i]);
    }
  }
}

/** `deploy` itself, executed by one deployer while no other is active. */
module DeploymentCall {
  import opened Runs
  import opened DeploymentProtocol

  /** What one poll of the Control Plane container shows. */
  datatype Observation = Waiting | Healthy | Exited | Malformed

  /** How the outside world answers one deployment. */
  datatype Answers =
    Answers(preconditionsHold: bool, lockWritten: bool, imagesValid: bool, migrated: bool, controlPlaneUp: bool,
            observations: seq<Observation>, isolated: bool, ingressUp: bool, verified: bool, lockRemoved: bool)

  /** A healthy poll comes before the deadline, with only waiting ones before it. */
  ghost predicate BecomesHealthy(observations: seq<Observation>) {
    exists k :: 0 <= k < |observations| && observations[k] == Healthy
                && forall j :: 0 <= j < k ==> observations[j] == Waiting
  }

  /** How many milestones the deployment reaches. */
  ghost function Reached(a: Answers): (n: nat)
    ensures 1 <= n <= 7
  {
    if !a.imagesValid || !a.migrated then 1
    else if !a.controlPlaneUp then 2
    else if !BecomesHealthy(a.observations) then 3
    else if !a.isolated then 4
    else if !a.ingressUp || !a.verified then 6
    else 7
  }

  /** How it ends: verified, failed before the Control Plane was up, or failed later and stopped. */
  ghost function Ending(a: Answers): Outcome {
    if Reached(a) == 7 then Succeeded else if Reached(a) <= 2 then FailedUnstarted else FailedStopped
  }

  ghost function Performed(a: Answers): seq<Action> {
    Milestones(Reached(a))
    + (if Reached(a) == 2 then [ControlPlaneFailed] else if 3 <= Reached(a) <= 6 then [StopRequested] else [])
  }

  ghost predicate Continues(before: Run<State>, run: Run<State>) {
    IsRun(before, Step) && IsRun(run, Step) && run.states[0] == before.states[0]
  }

  lemma TaggedTogether(log: seq<Event>, a: seq<Action>, b: seq<Action>)
    ensures log + Tagged(0, a) + Tagged(0, b) == log + Tagged(0, a + b)
  {
  }

  class Host {
    var lockFile: bool
    var log: seq<Event>

    constructor ()
      ensures !lockFile && log == []
    {
      lockFile, log := false, [];
    }

    ghost function Now(stage: Stage): State
      reads this
    {
      State(lockFile, [stage], log)
    }

    /** One step inside the lock: what it does is logged, and the run goes on. */
    method Do(stage: Stage, more: seq<Action>, next: Stage, ghost before: Run<State>) returns (ghost run: Run<State>)
      requires IsRun(before, Step) && Last(before) == Now(stage) && Inside(stage) && Advances(stage, more, next)
      modifies this`log
      ensures log == old(log) + Tagged(0, more)
      ensures Continues(before, run) && Last(run) == Now(next)
    {
      log := log + Tagged(0, more);
      assert [stage][0 := next] == [next];
      run := Extended(before, Step, Now(next));
    }

    /** Image checks, migration and the Control Plane start; `started` is set only after the start worked. */
    method StartControlPlane(a: Answers, ghost before: Run<State>) returns (started: bool, ghost run: Run<State>)
      requires IsRun(before, Step) && Last(before) == Now(Validating)
      modifies this`log
      ensures started <==> a.imagesValid && a.migrated && a.controlPlaneUp
      ensures log == old(log) + Tagged(0, if !a.imagesValid || !a.migrated then []
                                          else if started then [MigrationDone, ControlPlaneUp]
                                          else [MigrationDone, ControlPlaneFailed])
      ensures Continues(before, run) && Last(run) == Now(if started then Polling else Releasing(FailedUnstarted))
    {
      started := false;
      if !a.imagesValid {
        run := Do(Validating, [], Releasing(FailedUnstarted), before);
        return;
      }
      run := Do(Validating, [], Migrating, before);
      if !a.migrated {
        run := Do(Migrating, [], Releasing(FailedUnstarted), run);
        TaggedTogether(old(log), [], []);
        return;
      }
      run := Do(Migrating, [MigrationDone], StartingControlPlane, run);
      TaggedTogether(old(log), [], [MigrationDone]);
      started := a.controlPlaneUp;
      if started {
        run := Do(StartingControlPlane, [ControlPlaneUp], Polling, run);
        TaggedTogether(old(log), [MigrationDone], [ControlPlaneUp]);
      } else {
        run := Do(StartingControlPlane, [ControlPlaneFailed], Releasing(FailedUnstarted), run);
        TaggedTogether(old(log), [MigrationDone], [ControlPlaneFailed]);
      }
    }

    /** `wait_for_control_plane`: poll until healthy, exited, malformed or past the deadline. */
    method WaitForControlPlane(observations: seq<Observation>, ghost before: Run<State>)
      returns (healthy: bool, ghost run: Run<State>)
      requires IsRun(before, Step) && Last(before) == Now(Polling)
      modifies this`log
      ensures healthy <==> BecomesHealthy(observations)
      ensures log == old(log) + Tagged(0, if healthy then [SeenHealthy] else [])
      ensures Continues(before, run) && Last(run) == Now(if healthy then CheckingIsolation else Stopping)
    {
      run := before;
      for i := 0 to |observations|
        invariant forall j :: 0 <= j < i ==> observations[j] == Waiting
        invariant Continues(before, run) && Last(run) == Now(Polling) && log == old(log)
      {
        if observations[i] == Healthy {
          healthy := true;
          run := Do(Polling, [SeenHealthy], CheckingIsolation, run);
          return;
        }
        if observations[i] != Waiting {
          healthy := false;
          run := Do(Polling, [], Stopping, run);
          return;
        }
        run := Do(Polling, [], Polling, run);
        assert log == old(log);
      }
      healthy := false;
      run := Do(Polling, [], Stopping, run);
    }

    /** Isolation check, ingress start and verification. */
    method ServeTraffic(a: Answers, ghost before: Run<State>) returns (ok: bool, ghost run: Run<State>)
      requires IsRun(before, Step) && Last(before) == Now(CheckingIsolation)
      modifies this`log
      ensures ok <==> a.isolated && a.ingressUp && a.verified
      ensures log == old(log) + Tagged(0, if !a.isolated then []
                                          else if ok then [IsolationChecked, IngressRequested, Verified]
                                          else [IsolationChecked, IngressRequested])
      ensures Continues(before, run) && Last(run) == Now(if ok then Releasing(Succeeded) else Stopping)
    {
      ok := false;
      if !a.isolated {
        run := Do(CheckingIsolation, [], Stopping, before);
        return;
      }
      run := Do(CheckingIsolation, [IsolationChecked], StartingIngress, before);
      if !a.ingressUp {
        run := Do(StartingIngress, [IngressRequested], Stopping, run);
        TaggedTogether(old(log), [IsolationChecked], [IngressRequested]);
        return;
      }
      run := Do(StartingIngress, [IngressRequested], Verifying, run);
      TaggedTogether(old(log), [IsolationChecked], [IngressRequested]);
      ok := a.verified;
      if ok {
        run := Do(Verifying, [Verified], Releasing(Succeeded), run);
        TaggedTogether(old(log), [IsolationChecked, IngressRequested], [Verified]);
      } else {
        run := Do(Verifying, [], Stopping, run);
        TaggedTogether(old(log), [IsolationChecked, IngressRequested], []);
      }
    }

    /** The `try` block from the start of polling on. */
    method Serve(a: Answers, ghost before: Run<State>) returns (ok: bool, ghost run: Run<State>)
      requires IsRun(before, Step) && Last(before) == Now(Polling) && Reached(a) >= 3
      modifies this`log
      ensures ok <==> Reached(a) == 7
      ensures log == old(log) + Tagged(0, Milestones(Reached(a))[3..])
      ensures Continues(before, run) && Last(run) == Now(if ok then Releasing(Succeeded) else Stopping)
    {
      ok, run := WaitForControlPlane(a.observations, before);
      if ok {
        ok, run := ServeTraffic(a, run);
        TaggedTogether(old(log), [SeenHealthy],
                       if !a.isolated then []
                       else if ok then [IsolationChecked, IngressRequested, Verified]
                       else [IsolationChecked, IngressRequested]);
      }
    }

    /** ... and the `except` block. */
    method ServeOrStop(a: Answers, ghost before: Run<State>) returns (outcome: Outcome, ghost run: Run<State>)
      requires IsRun(before, Step) && Last(before) == Now(Polling) && Reached(a) >= 3
      modifies this`log
      ensures outcome == Ending(a)
      ensures log == old(log) + Tagged(0, Performed(a)[3..])
      ensures Continues(before, run) && Last(run) == Now(Releasing(outcome))
    {
      var ok;
      ok, run := Serve(a, before);
      ghost var done := Milestones(Reached(a))[3..];
      outcome := Succeeded;
      if !ok {
        run := Do(Stopping, [StopRequested], Releasing(FailedStopped), run);
        TaggedTogether(old(log), done, [StopRequested]);
        outcome := FailedStopped;
      }
      assert Performed(a)[3..] == done + if ok then [] else [StopRequested];
      assert done + [] == done;
    }

    method Work(a: Answers, ghost before: Run<State>) returns (outcome: Outcome, ghost run: Run<State>)
      requires IsRun(before, Step) && Last(before) == Now(Validating)
      modifies this`log
      ensures outcome == Ending(a)
      ensures log == old(log) + Tagged(0, Performed(a)[1..])
      ensures Continues(before, run) && Last(run) == Now(Releasing(outcome))
    {
      var started;
      started, run := StartControlPlane(a, before);
      outcome := FailedUnstarted;
      if started {
        outcome, run := ServeOrStop(a, run);
        TaggedTogether(old(log), [MigrationDone, ControlPlaneUp], Performed(a)[3..]);
        assert Performed(a)[1..] == [MigrationDone, ControlPlaneUp] + Performed(a)[3..];
      }
    }

    /**
      The whole call. A held or unwritable lock refuses it and changes nothing else; otherwise what it does, how it
      ends and what becomes of the lock file are determined by the answers, and every path is a run of the step
      system, so the run-level theorems cover it.
     */
    method Deploy(a: Answers) returns (entered: bool, outcome: Outcome, ghost run: Run<State>)
      modifies this
      ensures entered <==> a.preconditionsHold && !old(lockFile) && a.lockWritten
      ensures !entered ==> log == old(log)
      ensures !entered ==> lockFile == (old(lockFile) || a.preconditionsHold)
      ensures entered ==> outcome == Ending(a) && lockFile == !a.lockRemoved
      ensures entered ==>
                log == old(log) + Tagged(0, Performed(a) + if a.lockRemoved then [LockReleased(outcome)] else [])
      ensures IsRun(run, Step) && run.states[0] == old(Now(Outside))
      ensures Last(run) == Now(if entered then Finished(outcome)
                               else if a.preconditionsHold && !old(lockFile) then LockLeaked else Refused)
    {
      run := Run([Now(Outside)], []);
      entered, outcome := false, FailedUnstarted;
      if !a.preconditionsHold || lockFile {
        assert Now(Refused) == State(lockFile, [Outside][0 := Refused], log + Tagged(0, []));
        run := Extended(run, Step, Now(Refused));
        return;
      }
      lockFile := true;
      if !a.lockWritten {
        assert Now(LockLeaked) == State(true, [Outside][0 := LockLeaked], log + Tagged(0, []));
        run := Extended(run, Step, Now(LockLeaked));
        return;
      }
      entered := true;
      run := TakeLock(run);
      outcome, run := Work(a, run);
      TaggedTogether(old(log), [LockTaken], Performed(a)[1..]);
      assert [LockTaken] + Performed(a)[1..] == Performed(a);
      run := ReleaseLock(a.lockRemoved, outcome, run);
      TaggedTogether(old(log), Performed(a), if a.lockRemoved then [LockReleased(outcome)] else []);
    }

    method TakeLock(ghost before: Run<State>) returns (ghost run: Run<State>)
      requires IsRun(before, Step) && Last(before) == State(false, [Outside], log) && lockFile
      modifies this`log
      ensures log == old(log) + Tagged(0, [LockTaken])
      ensures Continues(before, run) && Last(run) == Now(Validating)
    {
      log := log + Tagged(0, [LockTaken]);
      assert [Outside][0 := Validating] == [Validating];
      run := Extended(before, Step, Now(Validating));
    }

    /** The `finally` block. */
    method ReleaseLock(removed: bool, outcome: Outcome, ghost before: Run<State>) returns (ghost run: Run<State>)
      requires IsRun(before, Step) && Last(before) == Now(Releasing(outcome)) && lockFile
      modifies this
      ensures lockFile == !removed
      ensures log == old(log) + Tagged(0, if removed then [LockReleased(outcome)] else [])
      ensures Continues(before, run) && Last(run) == Now(Finished(outcome))
    {
      assert [Releasing(outcome)][0 := Finished(outcome)] == [Finished(outcome)];
      if removed {
        lockFile := false;
        log := log + Tagged(0, [LockReleased(outcome)]);
      } else {
        log := log + Tagged(0, []);
      }
      run := Extended(before, Step, Now(Finished(outcome)));
    }
  }
}
