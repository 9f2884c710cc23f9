/** Every step of a partition, of a job and of a storage partition is sound:
    it keeps the invariant and accounts for each slot and lease it moves. */
module EngineSteps {
  import opened ByteStrings
  import opened Sums
  import opened Traversal
  import opened Engine
  import opened EngineInvariant

  lemma OpeningSound(env: Env, part: Part, proceed: bool)
    requires PartInv(env.size, part) && Opening(env, part, proceed).Some?
    ensures Sound(env, part, Opening(env, part, proceed).value)
  {
    hide Add, Sum, Output;
    NoJobs();
    OutputIgnores(env.size, part, Opening(env, part, proceed).value.part);
  }

  /** The output condition looks at nothing but the accounts, flags and merged data. */
  lemma OutputIgnores(size: Hash -> nat, part: Part, next: Part)
    requires Output(size, part)
    requires next.accounts == part.accounts && next.flags == part.flags && next.merged == part.merged
    requires next.counts == part.counts && next.leaves == part.leaves && next.codes == part.codes
    ensures Output(size, next)
  {
  }

  lemma SyncCounts(a: Account)
    requires a.slots == []
    ensures ReferenceCounts(a) == JobCounts(a)
  {
    hide Add;
    AddRegroup(ReferenceCounts(a), ZERO, ZERO, ZERO);
  }

  lemma ScanningSound(env: Env, part: Part, proceed: bool)
    requires PartInv(env.size, part) && Scanning(env, part, proceed).Some?
    ensures Sound(env, part, Scanning(env, part, proceed).value)
  {
    hide Add, Sum, Output, Codes, FlagCounts, BaseCounts, Keys, JobCounts, ReferenceCounts, CodeCounts, LeafCounts;
    NoJobs();
    var e := Scanning(env, part, proceed).value;
    assert part.merged <= |part.flags| <= |part.accounts| by { OutputBounds(env.size, part); }
    if part.pc.ScanHeld? && proceed && |part.flags| < |part.accounts| {
      var a := part.accounts[|part.flags|];
      var flag := Claims(a, env.seen);
      var next := part.(flags := part.flags + [flag]);
      OutputStable(env.size, part, flag);
      if Async(a, env.seen) {
        OutputIgnores(env.size, next, e.part);
      } else {
        SyncCounts(a);
        MergeExtends(env, next, ReferenceCounts(a));
        OutputIgnores(env.size, Merge(env, next, ReferenceCounts(a)), e.part);
      }
    } else {
      OutputIgnores(env.size, part, e.part);
    }
  }

  lemma OutputBounds(size: Hash -> nat, part: Part)
    requires Output(size, part)
    ensures part.merged <= |part.flags| <= |part.accounts|
  {
  }

  /** A burst that stops reading starts merging, with nothing received yet. */
  lemma ReadingEnds(part: Part, next: Part)
    requires Reading(part, 0) && (part.failed ==> next.failed)
    requires next.accounts == part.accounts && next.flags == part.flags && next.base == part.base
    requires next.jobs == part.jobs && next.merged == part.merged
    ensures Reading(next, 0) && Collecting(next) && !NextPending(next)
  {
    hide JobGood;
    if next.failed {
      JobsGoodLatched(part);
    }
  }

  /** Blocking on the burst's first slot. */
  lemma FirstSlotSound(env: Env, part: Part, proceed: bool)
    requires PartInv(env.size, part) && Filling(env, part, proceed).Some? && part.pc.SlotWait?
    ensures Sound(env, part, Filling(env, part, proceed).value)
  {
    hide Add, Sum, Output, JobGood;
    NoJobs();
    OutputBounds(env.size, part);
    OutputIgnores(env.size, part, Filling(env, part, proceed).value.part);
    FreshJobGood(part.accounts[|part.flags| - 1], part.failed);
  }

  /** Trying for another slot and waiting for the lease to read with. */
  lemma FillingWaitSound(env: Env, part: Part, proceed: bool)
    requires PartInv(env.size, part) && Filling(env, part, proceed).Some? && (part.pc.Fill? || part.pc.FillWait?)
    ensures Sound(env, part, Filling(env, part, proceed).value)
  {
    hide Add, Sum, Output, Reading, Collecting;
    var e := Filling(env, part, proceed).value;
    OutputIgnores(env.size, part, e.part);
    ReadingEnds(part, e.part);
  }

  /** Reading one more account into the burst. */
  lemma FillingReadSound(env: Env, part: Part, proceed: bool)
    requires PartInv(env.size, part) && Filling(env, part, proceed).Some? && part.pc.FillHeld?
    ensures Sound(env, part, Filling(env, part, proceed).value)
  {
    hide Add, Sum, Output, Reading, Collecting;
    OutputBounds(env.size, part);
    var e := Filling(env, part, proceed).value;
    if proceed && |part.flags| < |part.accounts| {
      var flag := Claims(part.accounts[|part.flags|], env.seen);
      OutputStable(env.size, part, flag);
      OutputIgnores(env.size, part.(flags := part.flags + [flag]), e.part);
      JobAppended(part.jobs, Waiting);
      ReadingGrows(part, e.part);
    } else {
      OutputIgnores(env.size, part, e.part);
      ReadingEnds(part, e.part);
    }
  }

  lemma ReadingGrows(part: Part, next: Part)
    requires Reading(part, 0) && |part.flags| < |part.accounts| && |next.flags| == |part.flags| + 1
    requires next.accounts == part.accounts && next.failed == part.failed && next.base == part.base
    requires next.merged == part.merged
    ensures next.jobs == part.jobs + [Waiting] ==> Reading(next, 0)
    ensures next.jobs == part.jobs ==> Reading(next, 1)
  {
    hide JobGood;
    FreshJobGood(part.accounts[|part.flags|], part.failed);
  }

  lemma JobsGoodLatched(part: Part)
    requires JobsGood(part)
    ensures JobsGood(part.(failed := true))
  {
    hide JobGood;
    forall k | 0 <= k < |part.jobs|
      ensures JobGood(part.accounts[part.base + k], true, part.jobs[k])
    {
      JobGoodLatched(part.accounts[part.base + k], part.failed, part.jobs[k]);
    }
  }

  lemma FreshJobGood(a: Account, failed: bool)
    ensures JobGood(a, failed, Waiting)
  {
  }

  lemma JobGoodLatched(a: Account, failed: bool, job: Job)
    ensures JobGood(a, failed, job) ==> JobGood(a, true, job)
  {
  }

  lemma HandingSound(env: Env, part: Part)
    requires PartInv(env.size, part) && Handing(env, part).Some?
    ensures Sound(env, part, Handing(env, part).value)
  {
    hide Add, Sum, Output, JobCounts, ReferenceCounts;
    var e := Handing(env, part).value;
    var a := part.accounts[|part.flags| - 1];
    OutputIgnores(env.size, part, e.part);
    SyncCounts(a);
    JobAppended(part.jobs, Queued(true, ReferenceCounts(a)));
  }

  // The merge loop.

  /** A drained channel leaves nothing behind: after a failure every slot has been
      given back, without one every account of the burst has been merged. So the
      "unmerged results" error cannot occur. */
  lemma DrainedRetired(part: Part)
    requires part.pc.Receive? && Shape(part) && Drained(part.jobs)
    ensures forall k :: 0 <= k < |part.jobs| ==> part.jobs[k].Retired?
    ensures !part.failed ==> part.merged == |part.flags|
    ensures Sum(part.jobs, JobPending) == 0
  {
    hide JobGood, Sum;
    var next := part.merged - part.base;
    assert next < |part.jobs| ==> !Unsent(part.jobs[next]) && !part.jobs[next].Queued?;
    assert part.failed || part.merged == part.base + |part.jobs|;
    forall k | 0 <= k < |part.jobs|
      ensures part.jobs[k].Retired?
    {
      assert !Unsent(part.jobs[k]) && !part.jobs[k].Queued?;
    }
    AllRetired(part.jobs);
  }

  lemma MergingEndSound(env: Env, part: Part, proceed: bool)
    requires PartInv(env.size, part) && part.pc.Receive? && Merging(env, part, proceed).Some?
    ensures Sound(env, part, Merging(env, part, proceed).value)
  {
    hide Add, Sum, Output, JobGood, Order;
    DrainedRetired(part);
    AllRetired(part.jobs);
    NoJobs();
    OutputIgnores(env.size, part, Merging(env, part, proceed).value.part);
  }

  lemma DroppedGood(part: Part)
    requires JobsGood(part) && Order(part)
    ensures var next := part.(failed := true, jobs := DropPending(part.jobs));
            JobsGood(next) && Order(next) && forall k :: 0 <= k < |next.jobs| ==> !next.jobs[k].Pending?
  {
    hide JobGood;
    var next := part.(failed := true, jobs := DropPending(part.jobs));
    forall k | 0 <= k < |next.jobs|
      ensures JobGood(next.accounts[next.base + k], true, next.jobs[k])
      ensures !next.jobs[k].Pending?
      ensures part.jobs[k].Retired? ==> next.jobs[k].Retired?
    {
      DroppedJobGood(part.accounts[part.base + k], part.failed, part.jobs[k]);
    }
  }

  lemma DroppedJobGood(a: Account, failed: bool, job: Job)
    requires JobGood(a, failed, job)
    ensures JobGood(a, true, Dropped(job))
  {
  }

  lemma AbandonSound(env: Env, part: Part)
    requires PartInv(env.size, part) && (part.pc.MergeWait? || part.pc.MergeHeld?)
    ensures Sound(env, part, Abandon(env, part, if part.pc.MergeHeld? then -1 else 0))
  {
    hide Add, Sum, Output, JobsGood, Order;
    var e := Abandon(env, part, if part.pc.MergeHeld? then -1 else 0);
    OutputIgnores(env.size, part, e.part);
    PendingDropped(part.jobs);
    DroppedGood(part);
    JobsGoodIgnores(part.(failed := true, jobs := DropPending(part.jobs)), e.part);
  }

  /** The job conditions do not look at the program counter, the counts or the output. */
  lemma JobsGoodIgnores(part: Part, next: Part)
    requires JobsGood(part) && Order(part)
    requires next.accounts == part.accounts && next.failed == part.failed && next.base == part.base
    requires next.jobs == part.jobs && next.merged == part.merged
    ensures JobsGood(next) && Order(next)
  {
  }

  lemma MergedGood(part: Part, next: Part)
    requires JobsGood(part) && Order(part) && NextPending(part)
    requires next.accounts == part.accounts && next.failed == part.failed && next.base == part.base
    requires next.jobs == part.jobs[part.merged - part.base := Retired] && next.merged == part.merged + 1
    ensures JobsGood(next) && Order(next)
  {
    hide JobGood;
    var k := part.merged - part.base;
    RetiredGood(part.accounts[part.merged], part.failed);
    if part.failed {
      var j :| 0 <= j < |part.jobs| && ErrorUnderway(part.jobs[j]);
      assert j != k && ErrorUnderway(next.jobs[j]);
    }
  }

  lemma RetiredGood(a: Account, failed: bool)
    ensures JobGood(a, failed, Retired)
  {
  }

  lemma MergingSound(env: Env, part: Part, proceed: bool)
    requires PartInv(env.size, part) && (part.pc.MergeWait? || part.pc.MergeHeld?) && Merging(env, part, proceed).Some?
    ensures Sound(env, part, Merging(env, part, proceed).value)
  {
    hide Add, Sum, Output, JobsGood, Order, Sound;
    var k := part.merged - part.base;
    PendingIsGood(part, k);
    if !proceed {
      AbandonSound(env, part);
    } else if part.pc.MergeWait? {
      MergeLeaseSound(env, part);
    } else {
      MergeOneSound(env, part);
    }
  }

  lemma PendingIsGood(part: Part, k: nat)
    requires JobsGood(part) && k < |part.jobs| && part.jobs[k].Pending?
    ensures part.jobs[k].ok && part.jobs[k].counts == JobCounts(part.accounts[part.base + k])
  {
    assert JobGood(part.accounts[part.base + k], part.failed, part.jobs[k]);
  }

  lemma MergeLeaseSound(env: Env, part: Part)
    requires PartInv(env.size, part) && part.pc.MergeWait? && LeaseFree(env)
    ensures Sound(env, part, Idle(env, part.(pc := MergeHeld), 0, 1))
  {
    hide Add, Sum, Output, JobsGood, Order;
    OutputIgnores(env.size, part, part.(pc := MergeHeld));
    JobsGoodIgnores(part, part.(pc := MergeHeld));
  }

  lemma MergeOneSound(env: Env, part: Part)
    requires PartInv(env.size, part) && part.pc.MergeHeld? && Merging(env, part, true).Some?
    ensures Sound(env, part, Merging(env, part, true).value)
  {
    hide Add, Sum, Output, JobsGood, Order, JobCounts, CodeCounts, LeafCounts;
    var k := part.merged - part.base;
    var e := Merging(env, part, true).value;
    PendingIsGood(part, k);
    OutputBounds(env.size, part);
    MergeExtends(env, part, part.jobs[k].counts);
    OutputIgnores(env.size, Merge(env, part, part.jobs[k].counts), e.part);
    MergedGood(part, e.part);
    JobReplaced(part.jobs, k, Retired);
  }

  lemma TakingSound(env: Env, part: Part, k: nat)
    requires PartInv(env.size, part) && Taking(env, part, k).Some?
    ensures Sound(env, part, Taking(env, part, k).value)
  {
    hide Add, Sum, Output, JobsGood, Order, DropPending;
    var e := Taking(env, part, k).value;
    OutputIgnores(env.size, part, e.part);
    if part.failed {
      PendingDropped(part.jobs);
      assert DropPending(part.jobs)[k] == part.jobs[k] by { assert Dropped(part.jobs[k]) == part.jobs[k]; }
      JobReplaced(DropPending(part.jobs), k, Retired);
      TakenAfterFailure(part, e.part, k);
    } else {
      JobReplaced(part.jobs, k, Pending(part.jobs[k].ok, part.jobs[k].counts));
      TakenGood(part, e.part, k);
    }
  }

  lemma TakenAfterFailure(part: Part, next: Part, k: nat)
    requires JobsGood(part) && Order(part) && part.failed && k < |part.jobs| && part.jobs[k].Queued?
    requires next.accounts == part.accounts && next.failed && next.base == part.base && next.merged == part.merged
    requires next.jobs == DropPending(part.jobs)[k := Retired]
    ensures JobsGood(next) && Order(next)
  {
    hide JobGood;
    DroppedGood(part);
    RetiredGood(part.accounts[part.base + k], true);
  }

  lemma TakenGood(part: Part, next: Part, k: nat)
    requires JobsGood(part) && Order(part) && !part.failed && k < |part.jobs| && part.jobs[k].Queued?
    requires next.accounts == part.accounts && !next.failed && next.base == part.base && next.merged == part.merged
    requires next.jobs == part.jobs[k := Pending(part.jobs[k].ok, part.jobs[k].counts)]
    ensures JobsGood(next) && Order(next)
  {
    hide JobCounts;
    assert JobGood(part.accounts[part.base + k], part.failed, part.jobs[k]);
  }

  // Jobs.

  /** What replacing job k, still on its way to the channel, has to satisfy. */
  ghost predicate JobMoves(part: Part, k: nat, job: Job, fails: bool, tokens: int)
    requires k < |part.jobs| && part.base + k < |part.accounts|
  {
    && Unsent(part.jobs[k]) && (Unsent(job) || job.Queued?)
    && JobGood(part.accounts[part.base + k], part.failed || fails, job)
    && JobLease(job) == JobLease(part.jobs[k]) + tokens
    && JobRank(job) < JobRank(part.jobs[k])
    && (fails || ErrorUnderway(part.jobs[k]) ==> ErrorUnderway(job))
  }

  lemma JobMovedGood(part: Part, next: Part, k: nat, job: Job, fails: bool, tokens: int)
    requires BurstRuns(part) && JobsGood(part) && k < |part.jobs|
    requires JobMoves(part, k, job, fails, tokens)
    requires next == PutJob(part, k, job).(failed := part.failed || fails)
    ensures JobsGood(next)
    ensures Order(part) ==> Order(next)
    ensures NoneReceived(part) ==> NoneReceived(next)
  {
    hide JobGood, JobLease, JobRank;
    forall j | 0 <= j < |next.jobs|
      ensures JobGood(next.accounts[next.base + j], next.failed, next.jobs[j])
    {
      if j != k {
        JobGoodLatched(part.accounts[part.base + j], part.failed, part.jobs[j]);
      }
    }
    if Order(part) && next.failed {
      if fails {
        assert ErrorUnderway(next.jobs[k]);
      } else if j :| 0 <= j < |part.jobs| && ErrorUnderway(part.jobs[j]) {
        assert ErrorUnderway(next.jobs[j]);
      } else {
        assert forall j :: 0 <= j < |part.jobs| ==> !part.jobs[j].Pending?;
      }
    }
  }

  lemma JobMovedSound(env: Env, part: Part, k: nat, job: Job, fails: bool, tokens: int)
    requires PartInv(env.size, part) && BurstRuns(part) && JobsGood(part) && k < |part.jobs|
    requires JobMoves(part, k, job, fails, tokens) && (tokens > 0 ==> tokens == 1 && LeaseFree(env))
    ensures Sound(env, part, Effect(PutJob(part, k, job).(failed := part.failed || fails), 0, tokens, env.seen, fails))
  {
    hide Add, Sum, Output, JobsGood, Order, NoneReceived, JobGood, JobLease, JobRank;
    var next := PutJob(part, k, job).(failed := part.failed || fails);
    OutputIgnores(env.size, part, next);
    JobReplaced(part.jobs, k, job);
    JobMovedGood(part, next, k, job, fails, tokens);
    assert NextPending(next) == NextPending(part);
  }

  lemma {:induction false} KidsTotal(a: Account, kids: seq<Kid>, n: nat)
    requires KidsGood(a, kids) && Settled(kids) && !AnyFailed(kids) && n <= |kids|
    ensures KidCounts(kids, n) == PartitionedCounts(a.slots, n)
  {
    hide Add, StorageCounts, PartitionSlots;
    if n > 0 {
      KidsTotal(a, kids, n - 1);
      assert KidGood(a, n - 1, kids[n - 1]) && !kids[n - 1].KidFailed?;
    }
  }

  /** A storage trie counts the same on either side of the 1024-slot threshold. */
  lemma JoinedCounts(a: Account, kids: seq<Kid>)
    requires KidsGood(a, kids) && Settled(kids) && !AnyFailed(kids)
    ensures Add(ReferenceCounts(a), KidCounts(kids, |kids|)) == JobCounts(a)
  {
    hide Add, StorageCounts, KidCounts, PartitionedCounts;
    KidsTotal(a, kids, |kids|);
    PartitionedIsWhole(a.slots);
  }

  lemma NewKids(a: Account)
    ensures var kids := seq(PARTITIONS, _ => KidWait);
            KidsGood(a, kids) && Sum(kids, KidLease) == 0 && Sum(kids, KidRank) <= 32
  {
    var kids := seq(PARTITIONS, _ => KidWait);
    SumZero(kids, KidLease);
    KidsRank(kids);
  }

  lemma {:induction false} KidsRank(kids: seq<Kid>)
    ensures Sum(kids, KidRank) <= 2 * |kids|
  {
    if kids != [] {
      KidsRank(kids[..|kids| - 1]);
    }
  }

  lemma SettledHoldNothing(kids: seq<Kid>)
    requires Settled(kids)
    ensures Sum(kids, KidLease) == 0
  {
    SumZero(kids, KidLease);
  }

  /** Jobs exist only inside a burst. */
  lemma BurstJobs(size: Hash -> nat, part: Part)
    requires PartInv(size, part) && BurstRuns(part)
    ensures JobsGood(part)
  {
    hide Output, JobGood, Order;
  }

  /** The step replaces job k and nothing else, and the replacement is in order. */
  ghost predicate WorkMoves(env: Env, part: Part, k: nat, e: Effect) {
    && k < |part.jobs| && part.base + k < |part.accounts| && k < |e.part.jobs|
    && e == Effect(PutJob(part, k, e.part.jobs[k]).(failed := part.failed || e.cancel), 0, e.tokens, env.seen, e.cancel)
    && JobMoves(part, k, e.part.jobs[k], e.cancel, e.tokens)
    && (e.tokens > 0 ==> e.tokens == 1 && LeaseFree(env))
  }

  lemma EarlyWorkMoves(env: Env, part: Part, k: nat, proceed: bool)
    requires Working(env, part, k, proceed).Some? && (part.jobs[k].Waiting? || part.jobs[k].Probing?)
    requires JobGood(part.accounts[part.base + k], part.failed, part.jobs[k])
    ensures WorkMoves(env, part, k, Working(env, part, k, proceed).value)
  {
    hide Add, Sum, JobCounts;
    NewKids(part.accounts[part.base + k]);
  }

  lemma SplitWorkMoves(env: Env, part: Part, k: nat, proceed: bool)
    requires Working(env, part, k, proceed).Some? && (part.jobs[k].Split? || part.jobs[k].Rejoin?)
    requires JobGood(part.accounts[part.base + k], part.failed, part.jobs[k])
    ensures WorkMoves(env, part, k, Working(env, part, k, proceed).value)
  {
    hide Add, Sum, KidsGood, JobCounts;
    if part.jobs[k].Split? {
      SettledHoldNothing(part.jobs[k].kids);
    }
  }

  lemma LateWorkMoves(env: Env, part: Part, k: nat, proceed: bool)
    requires Working(env, part, k, proceed).Some? && (part.jobs[k].Joining? || part.jobs[k].Sending?)
    requires JobGood(part.accounts[part.base + k], part.failed, part.jobs[k])
    ensures WorkMoves(env, part, k, Working(env, part, k, proceed).value)
  {
    hide Add, Sum, KidsGood, JobCounts, ReferenceCounts, KidCounts;
    if part.jobs[k].Joining? {
      JoinedCounts(part.accounts[part.base + k], part.jobs[k].kids);
    }
  }

  lemma WorkingSound(env: Env, part: Part, k: nat, proceed: bool)
    requires PartInv(env.size, part) && Working(env, part, k, proceed).Some?
    ensures Sound(env, part, Working(env, part, k, proceed).value)
  {
    hide Sound, PartInv, JobsGood, JobGood, JobMoves;
    BurstJobs(env.size, part);
    OneJobGood(part, k);
    var e := Working(env, part, k, proceed).value;
    match part.jobs[k] {
      case Waiting => EarlyWorkMoves(env, part, k, proceed);
      case Probing => EarlyWorkMoves(env, part, k, proceed);
      case Split(_) => SplitWorkMoves(env, part, k, proceed);
      case Rejoin(_) => SplitWorkMoves(env, part, k, proceed);
      case _ => LateWorkMoves(env, part, k, proceed);
    }
    JobMovedSound(env, part, k, e.part.jobs[k], e.cancel, e.tokens);
  }

  lemma OneJobGood(part: Part, k: nat)
    requires JobsGood(part) && k < |part.jobs|
    ensures JobGood(part.accounts[part.base + k], part.failed, part.jobs[k])
  {
  }

  lemma KidReplaced(a: Account, kids: seq<Kid>, q: nat, kid: Kid)
    requires KidsGood(a, kids) && q < |kids| && KidGood(a, q, kid)
    ensures KidsGood(a, kids[q := kid])
    ensures Sum(kids[q := kid], KidLease) + KidLease(kids[q]) == Sum(kids, KidLease) + KidLease(kid)
    ensures Sum(kids[q := kid], KidRank) + KidRank(kids[q]) == Sum(kids, KidRank) + KidRank(kid)
  {
    SumUpdate(kids, q, kid, KidLease);
    SumUpdate(kids, q, kid, KidRank);
  }

  lemma KidWorkingSound(env: Env, part: Part, k: nat, q: nat, proceed: bool)
    requires PartInv(env.size, part) && KidWorking(env, part, k, q, proceed).Some?
    ensures Sound(env, part, KidWorking(env, part, k, q, proceed).value)
  {
    hide Add, Sum, Sound, PartInv, JobsGood, StorageCounts, PartitionSlots;
    BurstJobs(env.size, part);
    assert JobGood(part.accounts[part.base + k], part.failed, part.jobs[k]) by { OneJobGood(part, k); }
    var e := KidWorking(env, part, k, q, proceed).value;
    KidReplaced(part.accounts[part.base + k], part.jobs[k].kids, q, e.part.jobs[k].kids[q]);
    JobMovedSound(env, part, k, e.part.jobs[k], false, e.tokens);
    assert e.part == PutJob(part, k, e.part.jobs[k]).(failed := part.failed);
  }

  /** Every step of every goroutine is sound. */
  lemma MoveSound(env: Env, part: Part, action: Action)
    requires PartInv(env.size, part) && Move(env, part, action).Some?
    ensures Sound(env, part, Move(env, part, action).value)
  {
    hide Sound, PartInv, Working, KidWorking, Taking, Merging, Handing, Filling, Scanning, Opening;
    match action
    case Take(k) => TakingSound(env, part, k);
    case Work(k, proceed) => WorkingSound(env, part, k, proceed);
    case KidWork(k, q, proceed) => KidWorkingSound(env, part, k, q, proceed);
    case Coordinate(proceed) =>
      match part.pc
      case OpenWait => OpeningSound(env, part, proceed);
      case OpenHeld => OpeningSound(env, part, proceed);
      case FinishWait => OpeningSound(env, part, proceed);
      case FinishHeld => OpeningSound(env, part, proceed);
      case ScanWait => ScanningSound(env, part, proceed);
      case ScanHeld => ScanningSound(env, part, proceed);
      case SlotWait => FirstSlotSound(env, part, proceed);
      case Fill => FillingWaitSound(env, part, proceed);
      case FillWait => FillingWaitSound(env, part, proceed);
      case FillHeld => FillingReadSound(env, part, proceed);
      case Hand => HandingSound(env, part);
      case Receive => MergingEndSound(env, part, proceed);
      case MergeWait => MergingSound(env, part, proceed);
      case MergeHeld => MergingSound(env, part, proceed);
      case _ => NoMove(env, part, proceed);
  }

  lemma NoMove(env: Env, part: Part, proceed: bool)
    requires part.pc.Done? || part.pc.Failed? || part.pc.Unmerged?
    ensures Merging(env, part, proceed).None?
  {
  }
}
