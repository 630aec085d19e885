/**
  The per-machine build cache as a step system: any number of concurrent `ensure_cached` calls for one
  artifact name, each with its own fingerprint, interleaved one disk operation at a time.

  A directory test, a stamp read, an unlink and a lock operation are single steps. Removing a tree, running
  a build and writing the stamp take two steps each, so that other calls, and crashes, can fall in between.
 */
module BuildCacheProtocol {
  import opened Runs
  import opened Outcomes

  type Fingerprint = string

  /** What `_stamped_fingerprint` can learn from the stamp file. */
  datatype Stamp = NoStamp | Unreadable | Carries(fingerprint: Fingerprint)

  /** The artifact directory. `Complete(f)`: a build for `f` returned normally and nothing was removed since. */
  datatype Tree = Missing | Partial | Complete(source: Fingerprint)

  datatype Stage =
    | FastDirectoryCheck
    | FastStampCheck
    | WaitingForLock
    | LockedDirectoryCheck
    | LockedStampCheck
    | RemovingStamp
    | ClearingTree
    | TreeHalfCleared
    | StartingBuild
    | BuildRunning
    | BuildReturned
    | OpeningStamp
    | WritingStamp
    | DiscardingFailedBuild
    | FailedBuildHalfDiscarded
    | ReleasingToReturn
    | ReleasingToRaise
    | Returned
    | Raised
    | Crashed

  datatype Call = Call(fingerprint: Fingerprint, stage: Stage)

  datatype State = State(stamp: Stamp, tree: Tree, lock: Option<nat>, calls: seq<Call>)

  predicate HoldsLock(stage: Stage) {
    match stage
    case FastDirectoryCheck | FastStampCheck | WaitingForLock | Returned | Raised | Crashed => false
    case _ => true
  }

  predicate Finished(stage: Stage) {
    stage.Returned? || stage.Raised? || stage.Crashed?
  }

  function WithoutLock(s: State, p: nat): Option<nat> {
    if s.lock == Some(p) then None else s.lock
  }

  /** The disk and the lock after the step, the others' calls unchanged, `p` at its next stage. */
  predicate Goes(s: State, p: nat, s': State, stamp: Stamp, tree: Tree, lock: Option<nat>, stage: Stage)
    requires p < |s.calls|
  {
    s' == State(stamp, tree, lock, s.calls[p := s.calls[p].(stage := stage)])
  }

  /** Call `p` proceeds by one step of `ensure_cached`. */
  predicate Proceeds(s: State, p: nat, s': State)
    requires p < |s.calls|
  {
    var f := s.calls[p].fingerprint;
    match s.calls[p].stage
    case FastDirectoryCheck =>
      Goes(s, p, s', s.stamp, s.tree, s.lock, if s.tree.Missing? then WaitingForLock else FastStampCheck)
    case FastStampCheck =>
      Goes(s, p, s', s.stamp, s.tree, s.lock, if s.stamp == Carries(f) then Returned else WaitingForLock)
    case WaitingForLock =>
      s.lock.None? && Goes(s, p, s', s.stamp, s.tree, Some(p), LockedDirectoryCheck)
    case LockedDirectoryCheck =>
      Goes(s, p, s', s.stamp, s.tree, s.lock, if s.tree.Missing? then RemovingStamp else LockedStampCheck)
    case LockedStampCheck =>
      Goes(s, p, s', s.stamp, s.tree, s.lock, if s.stamp == Carries(f) then ReleasingToReturn else RemovingStamp)
    case RemovingStamp =>
      Goes(s, p, s', NoStamp, s.tree, s.lock, ClearingTree)
    case ClearingTree =>
      Goes(s, p, s', s.stamp, if s.tree.Missing? then Missing else Partial, s.lock, TreeHalfCleared)
    case TreeHalfCleared =>
      Goes(s, p, s', s.stamp, Missing, s.lock, StartingBuild)
    case StartingBuild =>
      || Goes(s, p, s', s.stamp, Partial, s.lock, BuildRunning)
      || Goes(s, p, s', s.stamp, s.tree, s.lock, BuildReturned)  // success reported, nothing produced
      || Goes(s, p, s', s.stamp, s.tree, s.lock, DiscardingFailedBuild)
    case BuildRunning =>
      || Goes(s, p, s', s.stamp, Complete(f), s.lock, BuildReturned)
      || Goes(s, p, s', s.stamp, s.tree, s.lock, DiscardingFailedBuild)
    case BuildReturned =>
      Goes(s, p, s', s.stamp, s.tree, s.lock, if s.tree.Missing? then ReleasingToRaise else OpeningStamp)
    case OpeningStamp =>
      Goes(s, p, s', Unreadable, s.tree, s.lock, WritingStamp)
    case WritingStamp =>
      Goes(s, p, s', Carries(f), s.tree, s.lock, ReleasingToReturn)
    case DiscardingFailedBuild =>
      Goes(s, p, s', s.stamp, if s.tree.Missing? then Missing else Partial, s.lock, FailedBuildHalfDiscarded)
    case FailedBuildHalfDiscarded =>
      Goes(s, p, s', s.stamp, Missing, s.lock, ReleasingToRaise)
    case ReleasingToReturn =>
      Goes(s, p, s', s.stamp, s.tree, None, Returned)
    case ReleasingToRaise =>
      Goes(s, p, s', s.stamp, s.tree, None, Raised)
    case _ => false
  }

  /** Call `p` is killed, or raises outside the build, at any point: the operating system frees its lock. */
  predicate Dies(s: State, p: nat, s': State)
    requires p < |s.calls|
  {
    && !Finished(s.calls[p].stage)
    && Goes(s, p, s', s.stamp, s.tree, WithoutLock(s, p), Crashed)
  }

  predicate Step(s: State, p: nat, s': State) {
    p < |s.calls| && (Proceeds(s, p, s') || Dies(s, p, s'))
  }

  /** Any call that is not over can crash in any state, and the lock is free again then. */
  lemma AnyCallCanCrash(s: State, p: nat)
    requires p < |s.calls| && s.calls[p].stage !in {Returned, Raised, Crashed}
    ensures Step(s, p, State(s.stamp, s.tree, if s.lock == Some(p) then None else s.lock,
                             s.calls[p := Call(s.calls[p].fingerprint, Crashed)]))
  {
  }

  /** The step in which call `p` settles that it will hand out the artifact directory. */
  predicate Decides(s: State, p: nat, s': State) {
    && p < |s.calls| == |s'.calls|
    && !(s.calls[p].stage.ReleasingToReturn? || s.calls[p].stage.Returned?)
    && (s'.calls[p].stage.ReleasingToReturn? || s'.calls[p].stage.Returned?)
  }

  /** The step in which call `p` finishes writing the stamp. */
  predicate Stamps(s: State, p: nat, s': State) {
    && p < |s.calls| == |s'.calls|
    && s.calls[p].stage == WritingStamp && s'.calls[p].stage == ReleasingToReturn
  }

  /** Step `i` of the run is the step in which call `p` decides to return. */
  predicate DecidesAt(r: Run<State>, i: nat, p: nat)
    requires i < |r.moves| < |r.states|
  {
    r.moves[i] == p && Decides(r.states[i], p, r.states[i + 1])
  }

  /** A readable stamp, if any, vouches for a finished tree, unless somebody has removed the tree since. */
  predicate Trustworthy(stamp: Stamp, tree: Tree) {
    stamp.Carries? ==> tree == Missing || tree == Complete(stamp.fingerprint)
  }

  /** The stamp outlived its artifact directory: why the directory is looked for before the stamp is read. */
  predicate Orphaned(stamp: Stamp, tree: Tree) {
    stamp.Carries? && tree == Missing
  }

  /** The artifact for `f` is there: what both checks look for. */
  predicate Current(stamp: Stamp, tree: Tree, f: Fingerprint) {
    stamp == Carries(f) && tree != Missing
  }

  ghost predicate Initial(s: State) {
    && Trustworthy(s.stamp, s.tree)
    && s.lock == None
    && forall p :: 0 <= p < |s.calls| ==> s.calls[p].stage == FastDirectoryCheck
  }

  /** What the lock holder knows about the disk at each stage. */
  predicate HolderKnows(s: State, c: Call) {
    match c.stage
    case RemovingStamp => !Current(s.stamp, s.tree, c.fingerprint)
    case TreeHalfCleared | FailedBuildHalfDiscarded => s.stamp == NoStamp && !s.tree.Complete?
    case StartingBuild => s.stamp == NoStamp && s.tree == Missing
    case BuildRunning => s.stamp == NoStamp && s.tree == Partial
    case BuildReturned => s.stamp == NoStamp && s.tree in {Missing, Complete(c.fingerprint)}
    case OpeningStamp => s.stamp == NoStamp && s.tree == Complete(c.fingerprint)
    case WritingStamp => s.stamp == Unreadable && s.tree == Complete(c.fingerprint)
    case ClearingTree => s.stamp == NoStamp
    case DiscardingFailedBuild => s.stamp == NoStamp && !s.tree.Complete?
    case ReleasingToRaise => s.stamp == NoStamp && s.tree == Missing
    case ReleasingToReturn => s.stamp == Carries(c.fingerprint) && s.tree == Complete(c.fingerprint)
    case _ => true
  }

  ghost predicate Inv(s: State) {
    && Trustworthy(s.stamp, s.tree)
    && LockMatchesStages(s)
    && (s.lock.Some? ==> HolderKnows(s, s.calls[s.lock.value]))
    && SawDirectory(s)
  }

  /** A call that has seen the directory and is about to read the stamp does not read an orphaned one. */
  ghost predicate SawDirectory(s: State) {
    forall p :: 0 <= p < |s.calls| && (s.calls[p].stage.FastStampCheck? || s.calls[p].stage.LockedStampCheck?) ==>
      !Orphaned(s.stamp, s.tree)
  }

  ghost predicate LockMatchesStages(s: State) {
    && (s.lock.Some? ==> s.lock.value < |s.calls|)
    && forall p :: 0 <= p < |s.calls| ==> (HoldsLock(s.calls[p].stage) <==> s.lock == Some(p))
  }

  lemma StepKeepsLock(s: State, p: nat, s': State)
    requires LockMatchesStages(s) && Step(s, p, s')
    ensures LockMatchesStages(s')
  {
    forall q | 0 <= q < |s'.calls|
      ensures HoldsLock(s'.calls[q].stage) <==> s'.lock == Some(q)
    {
      assert HoldsLock(s.calls[p].stage) <==> s.lock == Some(p);
      assert HoldsLock(s.calls[q].stage) <==> s.lock == Some(q);
    }
  }

  lemma StepKeepsKnowledge(s: State, p: nat, s': State)
    requires Inv(s) && Step(s, p, s') && (s'.lock.Some? ==> s'.lock.value < |s'.calls|)
    ensures Trustworthy(s'.stamp, s'.tree)
    ensures s'.lock.Some? ==> HolderKnows(s', s'.calls[s'.lock.value])
  {
    assert HoldsLock(s.calls[p].stage) <==> s.lock == Some(p);
  }

  /** No step orphans a stamp. */
  lemma StepOrphansNothing(s: State, p: nat, s': State)
    requires Inv(s) && Step(s, p, s') && Orphaned(s'.stamp, s'.tree)
    ensures s.stamp == s'.stamp && s.tree == s'.tree
  {
    assert HoldsLock(s.calls[p].stage) <==> s.lock == Some(p);
  }

  lemma StepKeepsSight(s: State, p: nat, s': State)
    requires Inv(s) && Step(s, p, s')
    ensures SawDirectory(s')
  {
    if Orphaned(s'.stamp, s'.tree) {
      StepOrphansNothing(s, p, s');
    }
  }

  lemma StepKeepsInv(s: State, p: nat, s': State)
    requires Inv(s) && Step(s, p, s')
    ensures Inv(s')
  {
    StepKeepsSight(s, p, s');
    StepKeepsLock(s, p, s');
    StepKeepsKnowledge(s, p, s');
  }

  /** Every state of every interleaving satisfies the invariant. */
  lemma RunKeepsInv(r: Run<State>, i: nat)
    requires IsRun(r, Step) && Initial(r.states[0]) && i < |r.states|
    ensures Inv(r.states[i])
  {
    forall s, p, s' | Inv(s) && Step(s, p, s') ensures Inv(s') {
      StepKeepsInv(s, p, s');
    }
    RunKeeps(r, Step, Inv, i);
  }

  /** An orphaned stamp is one the run started with, and nothing has been written since. */
  lemma {:induction false} OrphanedSinceTheStart(r: Run<State>, i: nat)
    requires IsRun(r, Step) && Initial(r.states[0]) && i < |r.states|
    requires Orphaned(r.states[i].stamp, r.states[i].tree)
    ensures forall k :: 0 <= k <= i ==> r.states[k].stamp == r.states[i].stamp && r.states[k].tree == Missing
  {
    if i > 0 {
      RunKeepsInv(r, i - 1);
      assert StepAt(r, Step, i - 1);
      StepOrphansNothing(r.states[i - 1], r.moves[i - 1], r.states[i]);
      OrphanedSinceTheStart(r, i - 1);
    }
  }

  /**
    Safety over whole runs: in every interleaving, with build failures and crashes anywhere, a readable stamp
    carrying `f` means the tree is complete and built for `f`, unless the tree was gone when the run started and
    nobody has written since; and the lock, if held, is held by a live call.
   */
  lemma ReadableStampMeansFinishedTree(r: Run<State>, i: nat, f: Fingerprint)
    requires IsRun(r, Step) && Initial(r.states[0]) && i < |r.states|
    ensures r.states[i].stamp == Carries(f) ==>
              || r.states[i].tree == Complete(f)
              || forall k :: 0 <= k <= i ==> r.states[k].stamp == Carries(f) && r.states[k].tree == Missing
    ensures r.states[i].lock.Some? ==>
              var p := r.states[i].lock.value;
              p < |r.states[i].calls| && !Finished(r.states[i].calls[p].stage)
    ensures forall p, q :: 0 <= p < q < |r.states[i].calls| ==>
              !(HoldsLock(r.states[i].calls[p].stage) && HoldsLock(r.states[i].calls[q].stage))
  {
    RunKeepsInv(r, i);
    if Orphaned(r.states[i].stamp, r.states[i].tree) {
      OrphanedSinceTheStart(r, i);
    }
  }

  /** At its deciding stamp read or write, no call hands out a partial or foreign tree, on any path. */
  lemma ReturnsOnlyFinishedArtifact(r: Run<State>, i: nat)
    requires IsRun(r, Step) && Initial(r.states[0]) && i < |r.moves|
    requires DecidesAt(r, i, r.moves[i])
    ensures r.states[i + 1].stamp == Carries(r.states[i].calls[r.moves[i]].fingerprint)
    ensures r.states[i + 1].tree == Complete(r.states[i].calls[r.moves[i]].fingerprint)
  {
    RunKeepsInv(r, i);
    RunKeepsInv(r, i + 1);
    assert StepAt(r, Step, i);
  }

  /** Only the call that holds the lock ever changes the stamp or the tree. */
  lemma OnlyHolderWrites(r: Run<State>, i: nat)
    requires IsRun(r, Step) && Initial(r.states[0]) && i < |r.moves|
    requires r.states[i + 1].stamp != r.states[i].stamp || r.states[i + 1].tree != r.states[i].tree
    ensures r.states[i].lock == Some(r.moves[i])
  {
    RunKeepsInv(r, i);
    assert StepAt(r, Step, i);
  }

  /**
    A finished artifact is disturbed only by a call whose inputs differ, and then its stamp goes first:
    a new run with the same inputs, a crash or a failing build elsewhere never touches it.
   */
  lemma OnlyDifferentInputsInvalidate(s: State, p: nat, s': State, f: Fingerprint)
    requires Inv(s) && Step(s, p, s') && s.stamp == Carries(f)
    requires s'.stamp != s.stamp || s'.tree != s.tree
    ensures s.tree == Complete(f) || s.tree == Missing
    ensures s.tree == Complete(f) ==> s.calls[p].fingerprint != f
    ensures s.lock == Some(p) && s'.stamp == NoStamp && s'.tree == s.tree
  {
  }

  function Stampings(r: Run<State>, n: nat): nat
    requires |r.states| == |r.moves| + 1 && n <= |r.moves|
  {
    if n == 0 then 0
    else Stampings(r, n - 1) + if Stamps(r.states[n - 1], r.moves[n - 1], r.states[n]) then 1 else 0
  }

  ghost predicate AllCarry(s: State, f: Fingerprint) {
    forall p :: 0 <= p < |s.calls| ==> s.calls[p].fingerprint == f
  }

  lemma {:induction false} FingerprintsNeverChange(r: Run<State>, i: nat, f: Fingerprint)
    requires IsRun(r, Step) && AllCarry(r.states[0], f) && i < |r.states|
    ensures AllCarry(r.states[i], f)
  {
    if i > 0 {
      FingerprintsNeverChange(r, i - 1, f);
      assert StepAt(r, Step, i - 1);
    }
  }

  lemma AgreeingStepLeavesDisk(s: State, p: nat, s': State, f: Fingerprint)
    requires Inv(s) && Step(s, p, s') && s.calls[p].fingerprint == f && Current(s.stamp, s.tree, f)
    ensures s'.stamp == s.stamp && s'.tree == s.tree && !Stamps(s, p, s')
  {
  }

  /** Once the artifact for the fingerprint all callers share is there, no step writes the disk again. */
  lemma {:induction false} SharedStampIsFinal(r: Run<State>, i: nat, j: nat, f: Fingerprint)
    requires IsRun(r, Step) && Initial(r.states[0]) && AllCarry(r.states[0], f)
    requires i <= j < |r.states| && Current(r.states[i].stamp, r.states[i].tree, f)
    ensures r.states[j].stamp == Carries(f) && r.states[j].tree == Complete(f)
    ensures j < |r.moves| ==> !Stamps(r.states[j], r.moves[j], r.states[j + 1])
    decreases j - i
  {
    RunKeepsInv(r, j);
    FingerprintsNeverChange(r, j, f);
    if i < j {
      SharedStampIsFinal(r, i, j - 1, f);
      RunKeepsInv(r, j - 1);
      FingerprintsNeverChange(r, j - 1, f);
      assert StepAt(r, Step, j - 1);
      AgreeingStepLeavesDisk(r.states[j - 1], r.moves[j - 1], r.states[j], f);
    }
    if j < |r.moves| {
      assert StepAt(r, Step, j);
      AgreeingStepLeavesDisk(r.states[j], r.moves[j], r.states[j + 1], f);
    }
  }

  lemma StampingCarriesOwnFingerprint(s: State, p: nat, s': State)
    requires Inv(s) && Step(s, p, s') && Stamps(s, p, s')
    ensures Current(s'.stamp, s'.tree, s.calls[p].fingerprint)
  {
    assert HoldsLock(s.calls[p].stage) <==> s.lock == Some(p);
  }

  /** If all callers carry the same fingerprint, every run finishes writing the stamp at most once. */
  lemma {:induction false} SharedInputsBuildOnce(r: Run<State>, n: nat, f: Fingerprint)
    requires IsRun(r, Step) && Initial(r.states[0]) && AllCarry(r.states[0], f) && n <= |r.moves|
    ensures Stampings(r, n) <= 1
    ensures Stampings(r, n) == 1 ==>
              Current(r.states[n].stamp, r.states[n].tree, f) && !Current(r.states[0].stamp, r.states[0].tree, f)
  {
    if n > 0 {
      SharedInputsBuildOnce(r, n - 1, f);
      if Stampings(r, n - 1) == 1 {
        SharedStampIsFinal(r, n - 1, n - 1, f);
        SharedStampIsFinal(r, n - 1, n, f);
      } else if Stamps(r.states[n - 1], r.moves[n - 1], r.states[n]) {
        FingerprintsNeverChange(r, n - 1, f);
        assert StepAt(r, Step, n - 1);
        RunKeepsInv(r, n - 1);
        StampingCarriesOwnFingerprint(r.states[n - 1], r.moves[n - 1], r.states[n]);
        if Current(r.states[0].stamp, r.states[0].tree, f) {
          SharedStampIsFinal(r, 0, n - 1, f);
        }
      }
    }
  }

  /** No two steps of such a run finish writing a stamp. */
  lemma NoSecondStamp(r: Run<State>, i: nat, j: nat, f: Fingerprint)
    requires IsRun(r, Step) && Initial(r.states[0]) && AllCarry(r.states[0], f) && i < j < |r.moves|
    requires Stamps(r.states[i], r.moves[i], r.states[i + 1])
    ensures !Stamps(r.states[j], r.moves[j], r.states[j + 1])
  {
    RunKeepsInv(r, i);
    FingerprintsNeverChange(r, i, f);
    assert StepAt(r, Step, i);
    StampingCarriesOwnFingerprint(r.states[i], r.moves[i], r.states[i + 1]);
    SharedStampIsFinal(r, i + 1, j, f);
  }

  /** Step `i` ends a rebuild without an artifact: the call dies in it, or lets go of the lock to raise. */
  predicate EndsFailedBuild(r: Run<State>, i: nat)
    requires i < |r.moves| < |r.states|
  {
    var s, p, s' := r.states[i], r.moves[i], r.states[i + 1];
    && p < |s.calls| == |s'.calls|
    && s.lock == Some(p) && s'.calls[p].stage in {Crashed, Raised}
    && s.calls[p].stage !in {LockedDirectoryCheck, LockedStampCheck, RemovingStamp, ReleasingToReturn}
  }

  /** No stamp is readable while a rebuild is under way, nor after it ended without an artifact. */
  lemma FailedBuildLeavesNoReadableStamp(r: Run<State>, i: nat)
    requires IsRun(r, Step) && Initial(r.states[0]) && i < |r.states|
    ensures forall p :: 0 <= p < |r.states[i].calls| && r.states[i].lock == Some(p)
                        && r.states[i].calls[p].stage !in
                             {LockedDirectoryCheck, LockedStampCheck, RemovingStamp, ReleasingToReturn} ==>
              !r.states[i].stamp.Carries?
    ensures i < |r.moves| && EndsFailedBuild(r, i) ==>
              !r.states[i + 1].stamp.Carries? && r.states[i + 1].lock == None
  {
    RunKeepsInv(r, i);
    if i < |r.moves| {
      assert StepAt(r, Step, i);
    }
  }

  /** One step, of anybody, while `p` waits to learn that its artifact is not there. */
  lemma HolderSeesNoArtifactStep(s: State, q: nat, s': State, p: nat)
    requires Inv(s) && Step(s, q, s') && p < |s.calls|
    requires Finished(s.calls[p].stage) || HoldsLock(s.calls[p].stage)
    requires HoldsLock(s.calls[p].stage) ==> !Current(s.stamp, s.tree, s.calls[p].fingerprint)
    requires !(q == p && Decides(s, q, s'))
    ensures |s'.calls| == |s.calls| && s'.calls[p].fingerprint == s.calls[p].fingerprint
    ensures Finished(s'.calls[p].stage) || HoldsLock(s'.calls[p].stage)
    ensures HoldsLock(s'.calls[p].stage) ==> !Current(s'.stamp, s'.tree, s.calls[p].fingerprint)
  {
    assert HoldsLock(s.calls[p].stage) <==> s.lock == Some(p);
    assert HoldsLock(s.calls[q].stage) <==> s.lock == Some(q);
  }

  /** While `p` keeps the lock and has not stamped, nobody can make its artifact current. */
  lemma {:induction false} HolderSeesNoArtifact(r: Run<State>, i: nat, j: nat, p: nat)
    requires IsRun(r, Step) && Initial(r.states[0]) && i <= j < |r.states|
    requires p < |r.states[i].calls| && r.states[i].calls[p].stage == LockedDirectoryCheck
    requires !Current(r.states[i].stamp, r.states[i].tree, r.states[i].calls[p].fingerprint)
    requires forall k :: i <= k < j ==> !DecidesAt(r, k, p)
    ensures p < |r.states[j].calls| && r.states[j].calls[p].fingerprint == r.states[i].calls[p].fingerprint
    ensures Finished(r.states[j].calls[p].stage) || HoldsLock(r.states[j].calls[p].stage)
    ensures HoldsLock(r.states[j].calls[p].stage) ==>
              !Current(r.states[j].stamp, r.states[j].tree, r.states[i].calls[p].fingerprint)
    decreases j - i
  {
    if i < j {
      HolderSeesNoArtifact(r, i, j - 1, p);
      RunKeepsInv(r, j - 1);
      assert StepAt(r, Step, j - 1) && !DecidesAt(r, j - 1, p);
      HolderSeesNoArtifactStep(r.states[j - 1], r.moves[j - 1], r.states[j], p);
    }
  }

  /** A call whose artifact is not there when it gets the lock never returns by reading a stamp. */
  lemma HolderWithoutArtifactRebuilds(r: Run<State>, i: nat, j: nat, p: nat)
    requires IsRun(r, Step) && Initial(r.states[0]) && i <= j < |r.moves|
    requires p < |r.states[i].calls| && r.states[i].calls[p].stage == LockedDirectoryCheck
    requires !Current(r.states[i].stamp, r.states[i].tree, r.states[i].calls[p].fingerprint)
    requires forall k :: i <= k < j ==> !DecidesAt(r, k, p)
    requires DecidesAt(r, j, p)
    ensures Stamps(r.states[j], p, r.states[j + 1])
  {
    HolderSeesNoArtifact(r, i, j, p);
    RunKeepsInv(r, j);
    assert StepAt(r, Step, j);
  }

  /** While nobody holds the lock, the stamp stays as it is. */
  lemma {:induction false} UnheldStampStays(r: Run<State>, i: nat, k: nat)
    requires IsRun(r, Step) && Initial(r.states[0]) && i <= k < |r.states|
    requires forall m :: i <= m < k ==> r.states[m].lock == None
    ensures r.states[k].stamp == r.states[i].stamp
  {
    if i < k {
      UnheldStampStays(r, i, k - 1);
      if r.states[k].stamp != r.states[k - 1].stamp {
        OnlyHolderWrites(r, k - 1);
      }
    }
  }

  /**
    After a failed or crashed build the next lock holder always rebuilds. Step `i` ends a rebuild without an artifact;
    nobody holds the lock from then until `p` has just taken it in state `k`; and `p` decides to return in step `j`.
    That step finishes a new stamp: `p` has built, whatever its fingerprint and whatever the others do.
   */
  lemma NextHolderRebuilds(r: Run<State>, i: nat, k: nat, j: nat, p: nat)
    requires IsRun(r, Step) && Initial(r.states[0]) && i < k <= j < |r.moves|
    requires EndsFailedBuild(r, i) && forall m :: i < m < k ==> r.states[m].lock == None
    requires p < |r.states[k].calls| && r.states[k].calls[p].stage == LockedDirectoryCheck
    requires forall m :: k <= m < j ==> !DecidesAt(r, m, p)
    requires DecidesAt(r, j, p)
    ensures Stamps(r.states[j], p, r.states[j + 1])
  {
    FailedBuildLeavesNoReadableStamp(r, i);
    UnheldStampStays(r, i + 1, k);
    HolderWithoutArtifactRebuilds(r, k, j, p);
  }
}

/** `ensure_cached` itself, executed by one call while no other call is active. */
module BuildCacheCall {
  import opened Runs
  import opened Outcomes
  import opened BuildCacheProtocol

  /** What the caller's `build(destination)` does. */
  datatype BuildReport = ProducesTree | ProducesNothing | RaisesAtOnce | RaisesHalfWay

  class CacheDirectory {
    var stamp: Stamp
    var tree: Tree
    var lock: Option<nat>

    constructor (stamp: Stamp, tree: Tree)
      ensures this.stamp == stamp && this.tree == tree && lock == None
    {
      this.stamp, this.tree, lock := stamp, tree, None;
    }

    /** This directory as the state of a one-call system. */
    ghost function Now(fingerprint: Fingerprint, stage: Stage): (s: State)
      reads this
    {
      State(stamp, tree, lock, [Call(fingerprint, stage)])
    }

    /** Unstamp, clear, build and stamp again; the lock stays held. */
    method Rebuild(fingerprint: Fingerprint, build: BuildReport, ghost before: Run<State>)
      returns (built: bool, ghost run: Run<State>)
      requires IsRun(before, Step) && Last(before) == Now(fingerprint, RemovingStamp)
      modifies this`stamp, this`tree
      ensures built <==> build == ProducesTree
      ensures built ==> stamp == Carries(fingerprint) && tree == Complete(fingerprint)
      ensures !built ==> stamp == NoStamp && tree == Missing
      ensures IsRun(run, Step) && run.states[0] == before.states[0]
      ensures Last(run) == Now(fingerprint, if built then ReleasingToReturn else ReleasingToRaise)
    {
      run := Invalidate(fingerprint, before);
      if build == ProducesTree {
        run := BuildTree(fingerprint, run);
        run := WriteStamp(fingerprint, run);
        built := true;
      } else {
        run := FailToBuild(fingerprint, build, run);
        built := false;
      }
    }

    method Invalidate(fingerprint: Fingerprint, ghost before: Run<State>) returns (ghost run: Run<State>)
      requires IsRun(before, Step) && Last(before) == Now(fingerprint, RemovingStamp)
      modifies this`stamp, this`tree
      ensures stamp == NoStamp && tree == Missing
      ensures IsRun(run, Step) && run.states[0] == before.states[0] && Last(run) == Now(fingerprint, StartingBuild)
    {
      stamp := NoStamp;
      run := Extended(before, Step, Now(fingerprint, ClearingTree));
      tree := if tree == Missing then Missing else Partial;
      run := Extended(run, Step, Now(fingerprint, TreeHalfCleared));
      tree := Missing;
      run := Extended(run, Step, Now(fingerprint, StartingBuild));
    }

    method BuildTree(fingerprint: Fingerprint, ghost before: Run<State>) returns (ghost run: Run<State>)
      requires IsRun(before, Step) && Last(before) == Now(fingerprint, StartingBuild)
      modifies this`tree
      ensures tree == Complete(fingerprint)
      ensures IsRun(run, Step) && run.states[0] == before.states[0] && Last(run) == Now(fingerprint, OpeningStamp)
    {
      tree := Partial;
      run := Extended(before, Step, Now(fingerprint, BuildRunning));
      tree := Complete(fingerprint);
      run := Extended(run, Step, Now(fingerprint, BuildReturned));
      run := Extended(run, Step, Now(fingerprint, OpeningStamp));
    }

    method FailToBuild(fingerprint: Fingerprint, build: BuildReport, ghost before: Run<State>)
      returns (ghost run: Run<State>)
      requires build != ProducesTree && tree == Missing
      requires IsRun(before, Step) && Last(before) == Now(fingerprint, StartingBuild)
      modifies this`tree
      ensures tree == Missing
      ensures IsRun(run, Step) && run.states[0] == before.states[0] && Last(run) == Now(fingerprint, ReleasingToRaise)
    {
      if build == ProducesNothing {
        run := Extended(before, Step, Now(fingerprint, BuildReturned));
        run := Extended(run, Step, Now(fingerprint, ReleasingToRaise));
      } else {
        run := before;
        if build == RaisesHalfWay {
          tree := Partial;
          run := Extended(run, Step, Now(fingerprint, BuildRunning));
        }
        run := Extended(run, Step, Now(fingerprint, DiscardingFailedBuild));
        run := Discard(fingerprint, run);
      }
    }

    method WriteStamp(fingerprint: Fingerprint, ghost before: Run<State>) returns (ghost run: Run<State>)
      requires IsRun(before, Step) && Last(before) == Now(fingerprint, OpeningStamp)
      modifies this`stamp
      ensures stamp == Carries(fingerprint)
      ensures IsRun(run, Step) && run.states[0] == before.states[0] && Last(run) == Now(fingerprint, ReleasingToReturn)
    {
      stamp := Unreadable;
      run := Extended(before, Step, Now(fingerprint, WritingStamp));
      stamp := Carries(fingerprint);
      run := Extended(run, Step, Now(fingerprint, ReleasingToReturn));
    }

    method Discard(fingerprint: Fingerprint, ghost before: Run<State>) returns (ghost run: Run<State>)
      requires IsRun(before, Step) && Last(before) == Now(fingerprint, DiscardingFailedBuild)
      modifies this`tree
      ensures tree == Missing
      ensures IsRun(run, Step) && run.states[0] == before.states[0] && Last(run) == Now(fingerprint, ReleasingToRaise)
    {
      tree := if tree == Missing then Missing else Partial;
      run := Extended(before, Step, Now(fingerprint, FailedBuildHalfDiscarded));
      tree := Missing;
      run := Extended(run, Step, Now(fingerprint, ReleasingToRaise));
    }

    /** The re-check under the lock, and the rebuild when it fails. */
    method UnderLock(fingerprint: Fingerprint, build: BuildReport, ghost before: Run<State>)
      returns (returned: bool, ghost run: Run<State>)
      requires Trustworthy(stamp, tree) && lock == Some(0)
      requires IsRun(before, Step) && Last(before) == Now(fingerprint, LockedDirectoryCheck)
      modifies this
      ensures returned <==> old(Current(stamp, tree, fingerprint)) || build == ProducesTree
      ensures returned ==> stamp == Carries(fingerprint) && tree == Complete(fingerprint)
      ensures !returned ==> stamp == NoStamp && tree == Missing
      ensures old(Current(stamp, tree, fingerprint)) ==> tree == old(tree)
      ensures lock == None && IsRun(run, Step) && run.states[0] == before.states[0]
      ensures Last(run) == Now(fingerprint, if returned then Returned else Raised)
    {
      run := before;
      var current := false;
      if tree != Missing {
        run := Extended(run, Step, Now(fingerprint, LockedStampCheck));
        current := stamp == Carries(fingerprint);
      }
      if current {
        run := Extended(run, Step, Now(fingerprint, ReleasingToReturn));
        returned := true;
      } else {
        run := Extended(run, Step, Now(fingerprint, RemovingStamp));
        returned, run := Rebuild(fingerprint, build, run);
      }
      lock := None;
      run := Extended(run, Step, Now(fingerprint, if returned then Returned else Raised));
    }

    /**
      The whole call. It returns exactly when the artifact was there or the build produced one; then stamp
      and tree are its own, and an artifact that was there is not touched. When it raises, nothing is left behind.
      A stamp whose directory has been removed counts for nothing.
      Every path it takes is a run of the step system, so the run-level theorems cover it.
     */
    method EnsureCached(fingerprint: Fingerprint, build: BuildReport) returns (returned: bool, ghost run: Run<State>)
      requires Trustworthy(stamp, tree) && lock == None
      modifies this
      ensures returned <==> old(Current(stamp, tree, fingerprint)) || build == ProducesTree
      ensures returned ==> stamp == Carries(fingerprint) && tree == Complete(fingerprint)
      ensures !returned ==> stamp == NoStamp && tree == Missing
      ensures old(Current(stamp, tree, fingerprint)) ==> tree == old(tree)
      ensures Trustworthy(stamp, tree) && lock == None
      ensures IsRun(run, Step) && run.states[0] == old(Now(fingerprint, FastDirectoryCheck)) && Initial(run.states[0])
      ensures Last(run) == Now(fingerprint, if returned then Returned else Raised)
    {
      run := Run([Now(fingerprint, FastDirectoryCheck)], []);
      var current := false;
      if tree != Missing {
        run := Extended(run, Step, Now(fingerprint, FastStampCheck));
        current := stamp == Carries(fingerprint);
      }
      if current {
        run := Extended(run, Step, Now(fingerprint, Returned));
        returned := true;
      } else {
        run := Extended(run, Step, Now(fingerprint, WaitingForLock));
        lock := Some(0);
        run := Extended(run, Step, Now(fingerprint, LockedDirectoryCheck));
        returned, run := UnderLock(fingerprint, build, run);
      }
    }
  }
}
