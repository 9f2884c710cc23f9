/** What every step of the engine keeps. */
module EngineInvariant {
  import opened ByteStrings
  import opened Sums
  import opened Traversal
  import opened Engine

  // Merged output.

  function Keys(accounts: seq<Account>, n: nat): seq<Hash>
    requires n <= |accounts|
  {
    if n == 0 then [] else Keys(accounts, n - 1) + [accounts[n - 1].key]
  }

  /** The codes written by the first n accounts: those of the flagged ones. */
  function Codes(accounts: seq<Account>, flags: seq<bool>, n: nat): seq<Hash>
    requires n <= |accounts| && n <= |flags|
  {
    if n == 0 then []
    else if flags[n - 1] && accounts[n - 1].code.Some? then Codes(accounts, flags, n - 1) + [accounts[n - 1].code.value]
    else Codes(accounts, flags, n - 1)
  }

  function FlagCounts(size: Hash -> nat, accounts: seq<Account>, flags: seq<bool>, n: nat): Counts
    requires n <= |accounts| && n <= |flags|
  {
    if n == 0 then ZERO
    else if flags[n - 1] && accounts[n - 1].code.Some?
    then Add(FlagCounts(size, accounts, flags, n - 1), CodeCounts(size(accounts[n - 1].code.value)))
    else FlagCounts(size, accounts, flags, n - 1)
  }

  ghost predicate Output(size: Hash -> nat, part: Part) {
    && part.merged <= |part.flags| <= |part.accounts|
    && part.leaves == Keys(part.accounts, part.merged)
    && part.codes == Codes(part.accounts, part.flags, part.merged)
    && part.counts == Add(BaseCounts(part.accounts, part.merged),
                          FlagCounts(size, part.accounts, part.flags, part.merged))
  }

  // Jobs.

  ghost predicate KidGood(a: Account, q: nat, kid: Kid) {
    kid.KidDone? ==> kid.counts == StorageCounts(PartitionSlots(a.slots, q))
  }

  ghost predicate KidsGood(a: Account, kids: seq<Kid>) {
    |kids| == PARTITIONS && forall q :: 0 <= q < |kids| ==> KidGood(a, q, kids[q])
  }

  ghost predicate JobGood(a: Account, failed: bool, job: Job) {
    match job
    case Split(kids) => KidsGood(a, kids)
    case Rejoin(kids) => KidsGood(a, kids) && Settled(kids) && !AnyFailed(kids)
    case Joining(kids) => KidsGood(a, kids) && Settled(kids) && !AnyFailed(kids)
    case Sending(ok, counts) => if ok then counts == JobCounts(a) else failed
    case Queued(ok, counts) => if ok then counts == JobCounts(a) else failed
    case Pending(ok, counts) => ok && counts == JobCounts(a)
    case _ => true
  }

  ghost predicate JobsGood(part: Part) {
    && part.base + |part.jobs| <= |part.accounts|
    && forall k :: 0 <= k < |part.jobs| ==> JobGood(part.accounts[part.base + k], part.failed, part.jobs[k])
  }

  /** An error result that the merge loop has not received yet. */
  predicate ErrorUnderway(job: Job) { (job.Sending? || job.Queued?) && !job.ok }

  ghost predicate Order(part: Part) {
    && part.base <= part.merged <= part.base + |part.jobs|
    && (forall k :: 0 <= k < part.merged - part.base ==> part.jobs[k].Retired?)
    && (!part.failed ==> forall k :: part.merged - part.base <= k < |part.jobs| ==> !part.jobs[k].Retired?)
    && (part.failed ==> (forall k :: 0 <= k < |part.jobs| ==> !part.jobs[k].Pending?)
                        || (exists k :: 0 <= k < |part.jobs| && ErrorUnderway(part.jobs[k])))
  }

  ghost predicate NoneReceived(part: Part) {
    forall k :: 0 <= k < |part.jobs| ==> !part.jobs[k].Pending? && !part.jobs[k].Retired?
  }

  ghost predicate Shape(part: Part) {
    match part.pc
    case SlotWait => part.jobs == [] && !part.failed && 0 < |part.flags| && part.merged == |part.flags| - 1
    case Fill => Reading(part, 0)
    case FillWait => Reading(part, 0)
    case FillHeld => Reading(part, 0)
    case Hand => Reading(part, 1) && part.accounts[|part.flags| - 1].slots == []
    case Receive => Collecting(part) && (!part.failed ==> !NextPending(part))
    case MergeWait => Collecting(part) && NextPending(part)
    case MergeHeld => Collecting(part) && NextPending(part)
    case Done => Quiet(part) && |part.flags| == |part.accounts|
    case FinishWait => Quiet(part) && |part.flags| == |part.accounts|
    case FinishHeld => Quiet(part) && |part.flags| == |part.accounts|
    case Failed => forall k :: 0 <= k < |part.jobs| ==> part.jobs[k].Retired?
    case Unmerged => false
    case _ => Quiet(part)
  }

  ghost predicate Quiet(part: Part) { part.jobs == [] && !part.failed && part.merged == |part.flags| }

  ghost predicate Reading(part: Part, handing: nat) {
    && part.jobs != [] && part.base == part.merged
    && part.base + |part.jobs| + handing == |part.flags| <= |part.accounts|
    && JobsGood(part) && NoneReceived(part)
  }

  ghost predicate Collecting(part: Part) {
    && part.jobs != [] && part.base + |part.jobs| == |part.flags| <= |part.accounts|
    && JobsGood(part) && Order(part)
  }

  ghost predicate PartInv(size: Hash -> nat, part: Part) {
    Output(size, part) && Shape(part) && (part.eof ==> |part.flags| == |part.accounts|)
  }

  // A rank that every step lowers.

  function KidRank(kid: Kid): nat { if kid.KidWait? then 2 else if kid.KidHeld? then 1 else 0 }

  ghost function JobRank(job: Job): nat {
    match job
    case Waiting => 48
    case Probing => 47
    case Split(kids) => 14 + Sum(kids, KidRank)
    case Rejoin(_) => 13
    case Joining(_) => 12
    case Sending(_, _) => 11
    case Queued(_, _) => 10
    case Pending(_, _) => 6
    case Retired => 0
  }

  function PcRank(pc: Pc): nat {
    match pc
    case OpenWait => 11
    case OpenHeld => 10
    case ScanWait => 9
    case ScanHeld => 8
    case SlotWait => 120
    case Fill => 16
    case FillWait => 15
    case FillHeld => 14
    case Hand => 40
    case Receive => 10
    case MergeWait => 12
    case MergeHeld => 11
    case FinishWait => 5
    case FinishHeld => 4
    case _ => 0
  }

  ghost function Rank(part: Part): nat {
    Sum(part.jobs, JobRank) + PcRank(part.pc) +
    if |part.flags| < |part.accounts| then 200 * (|part.accounts| - |part.flags|) else 0
  }

  // What a step has to show.

  ghost predicate ClaimStep(env: Env, part: Part, e: Effect) {
    || (e.part.flags == part.flags && e.seen == env.seen)
    || (|part.flags| < |part.accounts|
        && e.part.flags == part.flags + [Claims(part.accounts[|part.flags|], env.seen)]
        && e.seen == Claimed(part.accounts[|part.flags|], env.seen))
  }

  /** Slots and leases are taken one at a time and only when free, and the
      partition accounts for exactly those the step takes and gives back. */
  ghost predicate Balanced(env: Env, part: Part, e: Effect) {
    && Slots(e.part) == Slots(part) + e.slots
    && Leases(e.part) == Leases(part) + e.tokens
    && (e.slots > 0 ==> e.slots == 1 && SlotFree(env))
    && (e.tokens > 0 ==> e.tokens == 1 && LeaseFree(env))
  }

  ghost predicate Sound(env: Env, part: Part, e: Effect) {
    && PartInv(env.size, e.part)
    && e.part.accounts == part.accounts
    && Balanced(env, part, e)
    && Rank(e.part) < Rank(part)
    && (e.part.failed || e.part.pc.Failed? ==> e.cancel || part.failed || env.cancelled)
    && ClaimStep(env, part, e)
  }

  // Sums over jobs.

  lemma JobReplaced(jobs: seq<Job>, k: nat, job: Job)
    requires k < |jobs|
    ensures Sum(jobs[k := job], JobSlot) + JobSlot(jobs[k]) == Sum(jobs, JobSlot) + JobSlot(job)
    ensures Sum(jobs[k := job], JobLease) + JobLease(jobs[k]) == Sum(jobs, JobLease) + JobLease(job)
    ensures Sum(jobs[k := job], JobRank) + JobRank(jobs[k]) == Sum(jobs, JobRank) + JobRank(job)
  {
    SumUpdate(jobs, k, job, JobSlot);
    SumUpdate(jobs, k, job, JobLease);
    SumUpdate(jobs, k, job, JobRank);
  }

  lemma JobAppended(jobs: seq<Job>, job: Job)
    ensures Sum(jobs + [job], JobSlot) == Sum(jobs, JobSlot) + JobSlot(job)
    ensures Sum(jobs + [job], JobLease) == Sum(jobs, JobLease) + JobLease(job)
    ensures Sum(jobs + [job], JobRank) == Sum(jobs, JobRank) + JobRank(job)
  {
    SumAppend(jobs, job, JobSlot);
    SumAppend(jobs, job, JobLease);
    SumAppend(jobs, job, JobRank);
  }

  lemma {:induction false} PendingDropped(jobs: seq<Job>)
    ensures Sum(DropPending(jobs), JobSlot) + Sum(jobs, JobPending) == Sum(jobs, JobSlot)
    ensures Sum(DropPending(jobs), JobLease) == Sum(jobs, JobLease)
    ensures Sum(DropPending(jobs), JobRank) <= Sum(jobs, JobRank)
  {
    if jobs != [] {
      var n := |jobs| - 1;
      PendingDropped(jobs[..n]);
      assert DropPending(jobs)[..n] == DropPending(jobs[..n]);
    }
  }

  lemma NoJobs()
    ensures Sum<Job>([], JobSlot) == 0 && Sum<Job>([], JobLease) == 0 && Sum<Job>([], JobRank) == 0
    ensures Sum<Job>([Waiting], JobSlot) == 1 && Sum<Job>([Waiting], JobLease) == 0
            && Sum<Job>([Waiting], JobRank) == 48
  {
    JobAppended([], Waiting);
    assert [] + [Waiting] == [Waiting];
  }

  lemma AllRetired(jobs: seq<Job>)
    requires forall k :: 0 <= k < |jobs| ==> jobs[k].Retired?
    ensures Sum(jobs, JobSlot) == 0 && Sum(jobs, JobLease) == 0 && Sum(jobs, JobPending) == 0
  {
    SumZero(jobs, JobSlot);
    SumZero(jobs, JobLease);
    SumZero(jobs, JobPending);
  }

  // Output.

  lemma {:induction false} CodesStable(accounts: seq<Account>, flags: seq<bool>, more: seq<bool>, n: nat,
                          size: Hash -> nat)
    requires n <= |accounts| && n <= |flags|
    ensures Codes(accounts, flags + more, n) == Codes(accounts, flags, n)
    ensures FlagCounts(size, accounts, flags + more, n) == FlagCounts(size, accounts, flags, n)
  {
    hide Add, CodeCounts;
    if n > 0 {
      CodesStable(accounts, flags, more, n - 1, size);
    }
  }

  lemma OutputStable(size: Hash -> nat, part: Part, flag: bool)
    requires Output(size, part) && |part.flags| < |part.accounts|
    ensures Output(size, part.(flags := part.flags + [flag]))
  {
    CodesStable(part.accounts, part.flags, [flag], part.merged, size);
  }

  /** Merging the next account with its job's counts extends the output by exactly that account. */
  lemma MergeExtends(env: Env, part: Part, counts: Counts)
    requires Output(env.size, part) && part.merged < |part.flags|
    requires counts == JobCounts(part.accounts[part.merged])
    ensures Output(env.size, Merge(env, part, counts))
  {
    hide Add, CodeCounts, LeafCounts, JobCounts;
    var a := part.accounts[part.merged];
    var writes := part.flags[part.merged] && a.code.Some?;
    var code := if writes then CodeCounts(env.size(a.code.value)) else ZERO;
    var base := BaseCounts(part.accounts, part.merged);
    var flagged := FlagCounts(env.size, part.accounts, part.flags, part.merged);
    AddRegroup(LeafCounts(a), counts, code, ZERO);
    AddRegroup(base, flagged, Add(LeafCounts(a), counts), code);
    AddRegroup(flagged, ZERO, ZERO, ZERO);
  }
}
