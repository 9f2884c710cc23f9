/** No reachable state of the engine is stuck: a goroutine that holds a lease can
    always work, and when none does everyone who waits for one can have it. */
module EngineProgress {
  import opened ByteStrings
  import opened Sums
  import opened Traversal
  import opened Engine
  import opened EngineInvariant
  import opened EngineSteps
  import opened EngineRuns

  predicate Finished(part: Part) { part.pc.Done? || part.pc.Failed? }

  ghost predicate AllFinished(s: State) {
    forall p :: 0 <= p < |s.parts| ==> Finished(s.parts[p])
  }

  /** A step that does not end in an error. */
  predicate Willing(action: Action) { action.Take? || action.proceed }

  ghost predicate CanMove(env: Env, part: Part) {
    exists action :: Willing(action) && Move(env, part, action).Some?
  }

  lemma Moves(env: Env, part: Part, action: Action)
    requires Willing(action) && Move(env, part, action).Some?
    ensures CanMove(env, part)
  {
  }

  lemma JobsMeanBurst(size: Hash -> nat, part: Part, k: nat)
    requires PartInv(size, part) && k < |part.jobs| && !part.jobs[k].Retired?
    ensures BurstRuns(part) && JobsGood(part)
  {
    hide Output, JobGood, Order;
  }

  // The channel has room for every result.

  lemma {:induction false} QueuedAreHeld(jobs: seq<Job>)
    ensures Sum(jobs, JobQueued) <= Sum(jobs, JobSlot)
  {
    SumBelow(jobs, jobs, JobQueued, JobSlot);
  }

  lemma UnsentLeavesRoom(jobs: seq<Job>, k: nat)
    requires k < |jobs| && Unsent(jobs[k])
    ensures ChannelLength(jobs) < Sum(jobs, JobSlot)
  {
    var sent := jobs[k := Queued(true, ZERO)];
    SumUpdate(jobs, k, Queued(true, ZERO), JobQueued);
    SumUpdate(jobs, k, Queued(true, ZERO), JobSlot);
    QueuedAreHeld(sent);
  }

  /** A job about to send, or an account about to be handed over, finds the
      channel below its capacity: sends never block. */
  lemma SendsNeverBlock(c: Config, s: State, p: nat)
    requires Inv(c, s) && p < |s.parts|
    ensures ChannelLength(s.parts[p].jobs) <= 2 * c.workers
    ensures s.parts[p].pc.Hand? ==> ChannelLength(s.parts[p].jobs) < 2 * c.workers
    ensures forall k :: 0 <= k < |s.parts[p].jobs| && Unsent(s.parts[p].jobs[k]) ==>
                          ChannelLength(s.parts[p].jobs) < 2 * c.workers
  {
    hide Sum, PartsInv, ClaimedOnce;
    var jobs := s.parts[p].jobs;
    SumTerm(s.parts, p, Slots);
    QueuedAreHeld(jobs);
    forall k | 0 <= k < |jobs| && Unsent(jobs[k])
      ensures ChannelLength(jobs) < 2 * c.workers
    {
      UnsentLeavesRoom(jobs, k);
    }
  }

  // Lease holders.

  lemma KidMoves(env: Env, part: Part, k: nat)
    requires PartInv(env.size, part) && k < |part.jobs| && part.jobs[k].Split?
    requires LeaseFree(env) || Sum(part.jobs[k].kids, KidLease) > 0
    ensures CanMove(env, part)
  {
    hide PartInv, JobsGood, Sum, CanMove;
    JobsMeanBurst(env.size, part, k);
    OneJobGood(part, k);
    assert part.base + |part.jobs| <= |part.accounts| by { JobsBounded(part); }
    var kids := part.jobs[k].kids;
    SumZero(kids, KidLease);
    if Sum(kids, KidLease) > 0 {
      var q :| 0 <= q < |kids| && KidLease(kids[q]) != 0;
      Moves(env, part, KidWork(k, q, true));
    } else if Settled(kids) {
      Moves(env, part, Work(k, true));
    } else {
      var q :| 0 <= q < |kids| && !(kids[q].KidDone? || kids[q].KidFailed?);
      Moves(env, part, KidWork(k, q, true));
    }
  }

  lemma JobsBounded(part: Part)
    requires JobsGood(part)
    ensures part.base + |part.jobs| <= |part.accounts|
  {
  }

  /** A partition that holds a lease somewhere can take a step. */
  lemma HolderMoves(env: Env, part: Part)
    requires PartInv(env.size, part) && Leases(part) > 0
    ensures CanMove(env, part)
  {
    hide Sum, CanMove, Output, JobGood, Order, NoneReceived;
    if PcLease(part.pc) > 0 {
      OutputBounds(env.size, part);
      Moves(env, part, Coordinate(true));
    } else {
      SumZero(part.jobs, JobLease);
      var k :| 0 <= k < |part.jobs| && JobLease(part.jobs[k]) != 0;
      LeaseJobMoves(env, part, k);
    }
  }

  lemma LeaseJobMoves(env: Env, part: Part, k: nat)
    requires PartInv(env.size, part) && k < |part.jobs| && JobLease(part.jobs[k]) != 0
    ensures CanMove(env, part)
  {
    hide PartInv, Sum, CanMove, JobsGood;
    JobsMeanBurst(env.size, part, k);
    JobsBounded(part);
    if part.jobs[k].Split? {
      KidMoves(env, part, k);
    } else {
      Moves(env, part, Work(k, true));
    }
  }

  // Everyone else, when a lease is free.

  lemma UnsentMoves(env: Env, part: Part, k: nat)
    requires PartInv(env.size, part) && LeaseFree(env) && k < |part.jobs| && Unsent(part.jobs[k])
    requires ChannelLength(part.jobs) < 2 * env.workers
    ensures CanMove(env, part)
  {
    hide PartInv, Sum, CanMove, JobsGood;
    JobsMeanBurst(env.size, part, k);
    JobsBounded(part);
    if part.jobs[k].Split? {
      KidMoves(env, part, k);
    } else {
      Moves(env, part, Work(k, true));
    }
  }

  lemma ReceiverMoves(env: Env, part: Part)
    requires PartInv(env.size, part) && LeaseFree(env) && part.pc.Receive?
    requires forall k :: 0 <= k < |part.jobs| && Unsent(part.jobs[k]) ==> ChannelLength(part.jobs) < 2 * env.workers
    ensures CanMove(env, part)
  {
    hide PartInv, Sum, CanMove;
    if Drained(part.jobs) {
      Moves(env, part, Coordinate(true));
    } else {
      var k :| 0 <= k < |part.jobs| && (Unsent(part.jobs[k]) || part.jobs[k].Queued?);
      if Unsent(part.jobs[k]) {
        UnsentMoves(env, part, k);
      } else {
        Moves(env, part, Take(k));
      }
    }
  }

  /** With a lease free, a partition that is not finished and not waiting for its
      burst's first slot can take a step. */
  lemma FreeMoves(env: Env, part: Part)
    requires PartInv(env.size, part) && LeaseFree(env) && !Finished(part) && !part.pc.SlotWait?
    requires part.pc.Hand? ==> ChannelLength(part.jobs) < 2 * env.workers
    requires forall k :: 0 <= k < |part.jobs| && Unsent(part.jobs[k]) ==> ChannelLength(part.jobs) < 2 * env.workers
    ensures CanMove(env, part)
  {
    hide Sum, CanMove, Output, JobsGood, Order, NoneReceived;
    OutputBounds(env.size, part);
    if part.pc.Receive? {
      ReceiverMoves(env, part);
    } else {
      if part.pc.MergeWait? {
        PendingIsGood(part, part.merged - part.base);
      }
      Moves(env, part, Coordinate(true));
    }
  }

  lemma WaiterHoldsNothing(size: Hash -> nat, part: Part)
    requires PartInv(size, part) && (Finished(part) || part.pc.SlotWait?)
    ensures Slots(part) == 0 && Leases(part) == 0
  {
    hide Output, Sum;
    NoJobs();
    if part.pc.Failed? {
      AllRetired(part.jobs);
    }
  }

  // The theorem.

  lemma AnyoneMoves(c: Config, s: State) returns (p: nat)
    requires Inv(c, s) && !AllFinished(s)
    ensures p < |s.parts| && CanMove(EnvOf(c, s), s.parts[p])
  {
    hide PartInv, Sum, Slots, Leases, CanMove, ClaimedOnce;
    var env := EnvOf(c, s);
    if s.tokens > 0 {
      SumZero(s.parts, Leases);
      p :| 0 <= p < |s.parts| && Leases(s.parts[p]) != 0;
      HolderMoves(env, s.parts[p]);
    } else if q :| 0 <= q < |s.parts| && !Finished(s.parts[q]) && !s.parts[q].pc.SlotWait? {
      p := q;
      SendsNeverBlock(c, s, p);
      FreeMoves(env, s.parts[p]);
    } else {
      p :| 0 <= p < |s.parts| && !Finished(s.parts[p]);
      forall q | 0 <= q < |s.parts|
        ensures Slots(s.parts[q]) == 0
      {
        WaiterHoldsNothing(c.size, s.parts[q]);
      }
      SumZero(s.parts, Slots);
      FirstSlotMoves(env, s.parts[p]);
    }
  }

  lemma FirstSlotMoves(env: Env, part: Part)
    requires PartInv(env.size, part) && part.pc.SlotWait? && SlotFree(env)
    ensures CanMove(env, part)
  {
    hide Output, CanMove;
    Moves(env, part, Coordinate(true));
  }

  /** Deadlock freedom: in every reachable state with unfinished work some
      goroutine can take a step, and can take it without an error. */
  lemma NeverStuck(c: Config, s: State)
    requires Inv(c, s) && !AllFinished(s)
    ensures exists s', p, action :: Willing(action) && PartStep(c, s, s', p, action)
  {
    hide Inv, PartInv, Move, Sum;
    var p := AnyoneMoves(c, s);
    var action :| Willing(action) && Move(EnvOf(c, s), s.parts[p], action).Some?;
    var s' := Successor(c, s, p, action);
    assert Willing(action) && PartStep(c, s, s', p, action);
  }

  lemma Successor(c: Config, s: State, p: nat, action: Action) returns (s': State)
    requires Inv(c, s) && p < |s.parts| && Move(EnvOf(c, s), s.parts[p], action).Some?
    ensures PartStep(c, s, s', p, action)
  {
    hide PartInv, Move, Slots, Leases, Rank, Sum, ClaimedOnce, ClaimStep;
    var env := EnvOf(c, s);
    MoveSound(env, s.parts[p], action);
    var e := Move(env, s.parts[p], action).value;
    SumTerm(s.parts, p, Slots);
    SumTerm(s.parts, p, Leases);
    s' := State(s.parts[p := e.part], s.window + e.slots, s.tokens + e.tokens, e.seen, s.cancelled || e.cancel);
  }

  /** A finished system has returned every slot and every lease, on success,
      failure and cancellation alike. */
  lemma FinishedReturnsAll(c: Config, s: State)
    requires Inv(c, s) && AllFinished(s)
    ensures s.window == 0 && s.tokens == 0
  {
    hide PartInv, Sum, Slots, Leases, ClaimedOnce;
    forall p | 0 <= p < |s.parts|
      ensures Slots(s.parts[p]) == 0 && Leases(s.parts[p]) == 0
    {
      WaiterHoldsNothing(c.size, s.parts[p]);
    }
    SumZero(s.parts, Slots);
    SumZero(s.parts, Leases);
  }

  function JobRunning(job: Job): nat { if Unsent(job) then 1 else 0 }

  /** The slots a burst's jobs hold are its running jobs, its queued results and its pending results. */
  lemma {:induction false} SlotsByPhase(jobs: seq<Job>)
    ensures Sum(jobs, JobSlot) == Sum(jobs, JobRunning) + Sum(jobs, JobQueued) + Sum(jobs, JobPending)
  {
    if jobs != [] {
      SlotsByPhase(jobs[..|jobs| - 1]);
    }
  }

  /** No reachable state reports unmerged results. */
  lemma NeverUnmerged(c: Config, s: State, p: nat)
    requires Inv(c, s) && p < |s.parts|
    ensures !s.parts[p].pc.Unmerged?
  {
    hide Sum, Output, ClaimedOnce, Conserved;
    assert PartInv(c.size, s.parts[p]);
  }
}
