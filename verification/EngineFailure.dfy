/** An error is never lost: a partition in which any goroutine has failed does not succeed. */
module EngineFailure {
  import opened ByteStrings
  import opened Sums
  import opened Traversal
  import opened Engine
  import opened EngineInvariant
  import opened EngineSteps
  import opened EngineRuns

  /** A step that ends in an error: a read, write or assembly that fails while a lease is
      held, or a wait given up because the context is done. */
  predicate Errs(part: Part, action: Action) {
    match action
    case Coordinate(proceed) => !proceed && MayErr(part.pc)
    case Take(_) => false
    case Work(k, proceed) =>
      !proceed && k < |part.jobs|
      && (part.jobs[k].Waiting? || part.jobs[k].Probing? || part.jobs[k].Rejoin? || part.jobs[k].Joining?)
    case KidWork(k, q, proceed) =>
      !proceed && k < |part.jobs| && part.jobs[k].Split? && q < |part.jobs[k].kids|
      && (part.jobs[k].kids[q].KidWait? || part.jobs[k].kids[q].KidHeld?)
  }

  /** Where a partition goroutine reads, writes or waits. */
  predicate MayErr(pc: Pc) {
    pc.OpenWait? || pc.OpenHeld? || pc.ScanWait? || pc.ScanHeld? || pc.SlotWait? || pc.FillWait? || pc.FillHeld?
    || pc.MergeWait? || pc.MergeHeld? || pc.FinishWait? || pc.FinishHeld?
  }

  ghost predicate SplitFailed(part: Part) {
    exists k :: 0 <= k < |part.jobs| && part.jobs[k].Split? && AnyFailed(part.jobs[k].kids)
  }

  /** An error has been returned, latched, or left behind by a storage partition. */
  ghost predicate Doomed(part: Part) {
    part.pc.Failed? || (BurstRuns(part) && (part.failed || SplitFailed(part)))
  }

  lemma DoomedNotDone(part: Part)
    requires Doomed(part)
    ensures !part.pc.Done?
  {
  }

  // An erring step dooms its partition.

  lemma CoordinateDooms(env: Env, part: Part)
    requires MayErr(part.pc) && Coordinating(env, part, false).Some?
    ensures Doomed(Coordinating(env, part, false).value.part)
  {
    hide Sum, SplitFailed, DropPending, Merge;
  }

  lemma WorkDooms(env: Env, part: Part, k: nat)
    requires Errs(part, Work(k, false)) && Working(env, part, k, false).Some?
    ensures Doomed(Working(env, part, k, false).value.part)
  {
    hide Sum, SplitFailed;
  }

  lemma KidDooms(env: Env, part: Part, k: nat, q: nat)
    requires Errs(part, KidWork(k, q, false)) && KidWorking(env, part, k, q, false).Some?
    ensures Doomed(KidWorking(env, part, k, q, false).value.part)
  {
    hide Sum;
    var next := KidWorking(env, part, k, q, false).value.part;
    assert next.jobs[k].kids[q].KidFailed?;
    assert AnyFailed(next.jobs[k].kids);
    assert BurstRuns(next);
  }

  lemma ErrorDooms(env: Env, part: Part, action: Action)
    requires Errs(part, action) && Move(env, part, action).Some?
    ensures Doomed(Move(env, part, action).value.part)
  {
    hide Doomed, Coordinating, Working, KidWorking, Taking, MayErr;
    match action
    case Coordinate(_) => CoordinateDooms(env, part);
    case Take(_) =>
    case Work(k, _) => WorkDooms(env, part, k);
    case KidWork(k, q, _) => KidDooms(env, part, k, q);
  }

  // A doomed partition stays doomed.

  lemma SplitStays(part: Part, next: Part)
    requires |part.jobs| <= |next.jobs|
    requires forall k :: 0 <= k < |part.jobs| && part.jobs[k].Split? ==> next.jobs[k] == part.jobs[k]
    ensures SplitFailed(part) ==> SplitFailed(next)
  {
    if SplitFailed(part) {
      var k :| 0 <= k < |part.jobs| && part.jobs[k].Split? && AnyFailed(part.jobs[k].kids);
      assert next.jobs[k].Split? && AnyFailed(next.jobs[k].kids);
    }
  }

  lemma SplitUnsent(part: Part)
    requires SplitFailed(part)
    ensures !Drained(part.jobs)
  {
  }

  lemma FillStays(env: Env, part: Part, proceed: bool)
    requires Doomed(part) && (part.pc.Fill? || part.pc.FillWait? || part.pc.FillHeld?)
    requires Filling(env, part, proceed).Some?
    ensures Doomed(Filling(env, part, proceed).value.part)
  {
    hide Sum, SplitFailed;
    SplitStays(part, Filling(env, part, proceed).value.part);
  }

  lemma HandStays(env: Env, part: Part)
    requires Doomed(part) && Handing(env, part).Some?
    ensures Doomed(Handing(env, part).value.part)
  {
    hide Sum, SplitFailed;
    SplitStays(part, Handing(env, part).value.part);
  }

  lemma MergeStays(env: Env, part: Part, proceed: bool)
    requires Doomed(part) && Merging(env, part, proceed).Some?
    ensures Doomed(Merging(env, part, proceed).value.part)
  {
    hide Sum, SplitFailed, Drained, CodeCounts, LeafCounts, Add;
    if SplitFailed(part) {
      SplitUnsent(part);
    }
    if part.pc.MergeWait? || part.pc.MergeHeld? {
      SplitStays(part, Merging(env, part, proceed).value.part);
    }
  }

  lemma TakeStays(env: Env, part: Part, k: nat)
    requires Doomed(part) && Taking(env, part, k).Some?
    ensures Doomed(Taking(env, part, k).value.part)
  {
    hide Sum, SplitFailed;
    SplitStays(part, Taking(env, part, k).value.part);
  }

  lemma WorkStays(env: Env, part: Part, k: nat, proceed: bool)
    requires Doomed(part) && Working(env, part, k, proceed).Some?
    ensures Doomed(Working(env, part, k, proceed).value.part)
  {
    hide Sum, SplitFailed, Settled, AnyFailed, KidCounts, JobCounts, ReferenceCounts;
    var next := Working(env, part, k, proceed).value.part;
    assert BurstRuns(part) && BurstRuns(next);
    if !next.failed {
      SplitMoves(part, next, k);
    }
  }

  lemma SplitMoves(part: Part, next: Part, k: nat)
    requires k < |part.jobs| == |next.jobs|
    requires forall j :: 0 <= j < |part.jobs| && j != k ==> next.jobs[j] == part.jobs[j]
    requires part.jobs[k].Split? ==> !AnyFailed(part.jobs[k].kids)
    ensures SplitFailed(part) ==> SplitFailed(next)
  {
    hide AnyFailed;
    if SplitFailed(part) {
      var j :| 0 <= j < |part.jobs| && part.jobs[j].Split? && AnyFailed(part.jobs[j].kids);
      assert next.jobs[j] == part.jobs[j];
    }
  }

  lemma KidStays(env: Env, part: Part, k: nat, q: nat, proceed: bool)
    requires Doomed(part) && KidWorking(env, part, k, q, proceed).Some?
    ensures Doomed(KidWorking(env, part, k, q, proceed).value.part)
  {
    hide Sum, StorageCounts, PartitionSlots;
    var next := KidWorking(env, part, k, q, proceed).value.part;
    assert BurstRuns(part) && BurstRuns(next) && next.failed == part.failed;
    if SplitFailed(part) {
      var j :| 0 <= j < |part.jobs| && part.jobs[j].Split? && AnyFailed(part.jobs[j].kids);
      var f :| 0 <= f < |part.jobs[j].kids| && part.jobs[j].kids[f].KidFailed?;
      assert next.jobs[j].Split? && next.jobs[j].kids[f].KidFailed?;
      assert AnyFailed(next.jobs[j].kids);
    }
  }

  lemma DoomStays(env: Env, part: Part, action: Action)
    requires Doomed(part) && Move(env, part, action).Some?
    ensures Doomed(Move(env, part, action).value.part)
  {
    hide SplitFailed, Filling, Handing, Merging, Taking, Working, KidWorking, Opening, Scanning;
    match action
    case Take(k) => TakeStays(env, part, k);
    case Work(k, proceed) => WorkStays(env, part, k, proceed);
    case KidWork(k, q, proceed) => KidStays(env, part, k, q, proceed);
    case Coordinate(proceed) =>
      match part.pc
      case Fill => FillStays(env, part, proceed);
      case FillWait => FillStays(env, part, proceed);
      case FillHeld => FillStays(env, part, proceed);
      case Hand => HandStays(env, part);
      case Receive => MergeStays(env, part, proceed);
      case MergeWait => MergeStays(env, part, proceed);
      case MergeHeld => MergeStays(env, part, proceed);
      case Failed => NoMove(env, part, proceed);
      case _ =>
  }

  lemma StepDooms(c: Config, s: State, s': State, p: nat)
    requires Step(c, s, s') && p < |s.parts| && Doomed(s.parts[p])
    ensures |s'.parts| == |s.parts| && Doomed(s'.parts[p])
  {
    hide Doomed, Move;
    if !Cancel(s, s') {
      var q, action :| PartStep(c, s, s', q, action);
      if q == p {
        DoomStays(EnvOf(c, s), s.parts[p], action);
      }
    }
  }

  // Runs.

  /** Step i of a run is an error in partition p. */
  ghost predicate ErrorAt(c: Config, states: seq<State>, i: nat, p: nat, action: Action) {
    && i + 1 < |states| && p < |states[i].parts|
    && PartStep(c, states[i], states[i + 1], p, action) && Errs(states[i].parts[p], action)
  }

  /** After an error in a partition, in whichever of its goroutines, no later state of the
      run shows the partition done. */
  lemma {:induction false} ErrorsAreKept(c: Config, states: seq<State>, i: nat, p: nat, action: Action, j: nat)
    requires Run(c, states) && ErrorAt(c, states, i, p, action) && i < j < |states|
    ensures p < |states[j].parts| && Doomed(states[j].parts[p]) && !states[j].parts[p].pc.Done?
    decreases j
  {
    hide Doomed, Move, Errs, Step;
    if j == i + 1 {
      ErrorDooms(EnvOf(c, states[i]), states[i].parts[p], action);
    } else {
      ErrorsAreKept(c, states, i, p, action, j - 1);
      assert Step(c, states[j - 1], states[j - 1 + 1]);
      StepDooms(c, states[j - 1], states[j], p);
    }
    DoomedNotDone(states[j].parts[p]);
  }
}
