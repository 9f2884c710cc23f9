/** How work ends early: a waiter needs no resource to give up, and an exhausted account
    iterator is not read again. */
module EngineEnd {
  import opened ByteStrings
  import opened Sums
  import opened Traversal
  import opened Engine

  // Giving up.

  /** A goroutine that waits for a lease or for its burst's first slot. */
  predicate Waits(part: Part, action: Action) {
    match action
    case Coordinate(_) =>
      part.pc.OpenWait? || part.pc.ScanWait? || part.pc.SlotWait? || part.pc.FillWait? || part.pc.FinishWait?
      || (part.pc.MergeWait? && NextPending(part))
    case Take(_) => false
    case Work(k, _) =>
      BurstRuns(part) && k < |part.jobs| && part.base + k < |part.accounts|
      && (part.jobs[k].Waiting? || part.jobs[k].Rejoin?)
    case KidWork(k, q, _) =>
      BurstRuns(part) && k < |part.jobs| && part.base + k < |part.accounts|
      && part.jobs[k].Split? && q < |part.jobs[k].kids| && part.jobs[k].kids[q].KidWait?
  }

  predicate GivesUp(action: Action) {
    match action
    case Coordinate(proceed) => !proceed
    case Take(_) => false
    case Work(_, proceed) => !proceed
    case KidWork(_, _, proceed) => !proceed
  }

  /** Whatever leases and slots are taken, a cancelled waiter can stop waiting, takes nothing,
      and gives back no more than the slots of its own results; a storage partition can also
      stop once a sibling has failed. */
  lemma WaitersGiveUp(env: Env, part: Part, action: Action)
    requires Waits(part, action) && GivesUp(action)
    ensures env.cancelled ==> Move(env, part, action).Some?
    ensures action.KidWork? && AnyFailed(part.jobs[action.k].kids) ==> Move(env, part, action).Some?
    ensures Move(env, part, action).Some? ==>
              var effect := Move(env, part, action).value;
              && effect.tokens == 0 && effect.seen == env.seen
              && effect.slots == if !action.Coordinate? then 0
                                 else if part.pc.FillWait? then -1
                                 else if part.pc.MergeWait? then 0 - Sum(part.jobs, JobPending)
                                 else 0
  {
    hide Sum;
  }

  // The end of the accounts.

  /** Step i of a run reads past the last account of partition p, inside a burst or not. */
  ghost predicate EndAt(c: Config, states: seq<State>, i: nat, p: nat) {
    && i + 1 < |states| && p < |states[i].parts|
    && (states[i].parts[p].pc.FillHeld? || states[i].parts[p].pc.ScanHeld?)
    && |states[i].parts[p].flags| >= |states[i].parts[p].accounts|
    && PartStep(c, states[i], states[i + 1], p, Coordinate(true))
  }

  /** A partition that has seen the end and only merges and finishes. */
  predicate Ended(part: Part) {
    || part.pc.FinishWait? || part.pc.FinishHeld? || part.pc.Done? || part.pc.Failed? || part.pc.Unmerged?
    || (part.eof && (part.pc.Receive? || part.pc.MergeWait? || part.pc.MergeHeld?))
  }

  lemma EndedStays(env: Env, part: Part, action: Action)
    requires Ended(part) && Move(env, part, action).Some?
    ensures Ended(Move(env, part, action).value.part)
  {
    hide Sum, Drained, DropPending, Settled, AnyFailed, KidCounts, JobCounts, ReferenceCounts, StorageCounts,
         PartitionSlots, CodeCounts, LeafCounts, Add;
    match action
    case Coordinate(proceed) => CoordinatorEnded(env, part, proceed);
    case Take(k) =>
    case Work(k, proceed) =>
    case KidWork(k, q, proceed) =>
  }

  lemma CoordinatorEnded(env: Env, part: Part, proceed: bool)
    requires Ended(part) && Coordinating(env, part, proceed).Some?
    ensures Ended(Coordinating(env, part, proceed).value.part)
  {
    hide Sum, Drained, DropPending, CodeCounts, LeafCounts, Add;
  }

  lemma EndEnds(env: Env, part: Part)
    requires part.pc.FillHeld? || part.pc.ScanHeld?
    requires |part.flags| >= |part.accounts| && Coordinating(env, part, true).Some?
    ensures Ended(Coordinating(env, part, true).value.part)
  {
    hide Sum;
  }

  lemma StepEnded(c: Config, s: State, s': State, p: nat)
    requires Step(c, s, s') && p < |s.parts| && Ended(s.parts[p])
    ensures |s'.parts| == |s.parts| && Ended(s'.parts[p])
  {
    hide Ended, Move;
    if !Cancel(s, s') {
      var q, action :| PartStep(c, s, s', q, action);
      if q == p {
        EndedStays(EnvOf(c, s), s.parts[p], action);
      }
    }
  }

  lemma {:induction false} EndedAfter(c: Config, states: seq<State>, i: nat, p: nat, j: nat)
    requires Run(c, states) && EndAt(c, states, i, p) && i < j < |states|
    ensures p < |states[j].parts| && Ended(states[j].parts[p])
    decreases j
  {
    hide Ended, Move, Step;
    if j == i + 1 {
      Dispatch(EnvOf(c, states[i]), states[i].parts[p]);
      EndEnds(EnvOf(c, states[i]), states[i].parts[p]);
    } else {
      EndedAfter(c, states, i, p, j - 1);
      assert Step(c, states[j - 1], states[j - 1 + 1]);
      StepEnded(c, states[j - 1], states[j], p);
    }
  }

  lemma Dispatch(env: Env, part: Part)
    ensures Move(env, part, Coordinate(true)) == Coordinating(env, part, true)
  {
    hide Coordinating;
  }

  /** After the end of a partition's accounts no later state of the run is at a place that
      scans, starts a burst or reads another account. */
  lemma ReadsEndOnce(c: Config, states: seq<State>, i: nat, p: nat, j: nat)
    requires Run(c, states) && EndAt(c, states, i, p) && i < j < |states|
    ensures p < |states[j].parts|
    ensures var pc := states[j].parts[p].pc;
            !pc.OpenWait? && !pc.OpenHeld? && !pc.ScanWait? && !pc.ScanHeld? && !pc.SlotWait?
            && !pc.Fill? && !pc.FillWait? && !pc.FillHeld? && !pc.Hand?
  {
    hide Run, EndAt;
    EndedAfter(c, states, i, p, j);
  }
}
