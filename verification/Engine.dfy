/** The partitioned traversal engine as a step relation over all interleavings:
    internal/migration/partition_accounts.go, partition_execution.go and
    partition_storage.go.

    Sixteen partition goroutines scan their accounts. An account with storage or
    newly claimed code starts a burst: up to the free part of a shared window of
    account slots, accounts are handed to job goroutines, whose results come back
    in any order and are merged in account order. A job with more than 1024 slots
    gives its lease back and runs sixteen storage partitions. Every step that
    touches a database holds one of the worker leases. */
module Engine {
  import opened ByteStrings
  import opened Sums
  import opened Traversal

  const PARTITIONS: nat := 16

  // State.

  /** A storage partition task: waiting for a lease, working, or settled. */
  datatype Kid = KidWait | KidHeld | KidDone(counts: Counts) | KidFailed

  /** One account of a burst, from submission to the release of its window slot. */
  datatype Job =
    | Waiting                              // wants a lease
    | Probing                              // holds a lease
    | Split(kids: seq<Kid>)                // no lease; sixteen storage partitions run
    | Rejoin(kids: seq<Kid>)               // wants a lease again
    | Joining(kids: seq<Kid>)              // holds a lease, assembles the storage trie
    | Sending(ok: bool, counts: Counts)    // result on its way into the channel
    | Queued(ok: bool, counts: Counts)     // result in the channel
    | Pending(ok: bool, counts: Counts)    // received, not merged
    | Retired                              // merged or dropped; slot released

  /** Where a partition goroutine is. */
  datatype Pc =
    | OpenWait | OpenHeld                  // opening the account iterator
    | ScanWait | ScanHeld                  // the account loop
    | SlotWait                             // blocking on the first slot of a burst
    | Fill | FillWait | FillHeld | Hand    // the burst's read loop
    | Receive | MergeWait | MergeHeld      // the ordered merge
    | FinishWait | FinishHeld              // closing the partition
    | Done | Failed | Unmerged             // returned; Unmerged is the "unmerged results" error

  datatype Part = Part(
    accounts: seq<Account>,                // the partition's leaves, fixed
    pc: Pc,
    eof: bool,                             // the iterator is exhausted
    failed: bool,                          // the burst's failure latch
    flags: seq<bool>,                      // writeCode of every account prepared so far
    base: nat,                             // first account of the current burst
    jobs: seq<Job>,                        // the burst's accounts base, base + 1, ...
    merged: nat,                           // accounts merged so far
    counts: Counts,
    leaves: seq<Hash>,                     // keys given to the account trie, in order
    codes: seq<Hash>)                      // codes written, in order

  datatype State = State(parts: seq<Part>, window: nat, tokens: nat, seen: set<Hash>, cancelled: bool)

  /** What one step does besides changing its partition. */
  datatype Effect = Effect(part: Part, slots: int, tokens: int, seen: set<Hash>, cancel: bool)

  /** What a goroutine sees of the shared state. */
  datatype Env = Env(workers: nat, size: Hash -> nat, window: nat, tokens: nat, seen: set<Hash>, cancelled: bool)

  /** Who moves. proceed is false when the step ends in an error: a work step may
      always fail, a waiting step only when its context is cancelled. */
  datatype Action =
    | Coordinate(proceed: bool)
    | Take(k: nat)                         // the merge loop receives the result of job k
    | Work(k: nat, proceed: bool)
    | KidWork(k: nat, q: nat, proceed: bool)

  predicate LeaseFree(env: Env) { env.tokens < env.workers }
  predicate SlotFree(env: Env) { env.window < 2 * env.workers }

  // Counting.

  function JobSlot(job: Job): nat { if job.Retired? then 0 else 1 }
  function JobQueued(job: Job): nat { if job.Queued? then 1 else 0 }
  function JobPending(job: Job): nat { if job.Pending? then 1 else 0 }
  function KidLease(kid: Kid): nat { if kid.KidHeld? then 1 else 0 }
  ghost function JobLease(job: Job): nat {
    match job
    case Probing => 1
    case Joining(_) => 1
    case Split(kids) => Sum(kids, KidLease)
    case _ => 0
  }

  function PcSlot(pc: Pc): nat { if pc.FillWait? || pc.FillHeld? || pc.Hand? then 1 else 0 }
  function PcLease(pc: Pc): nat {
    if pc.OpenHeld? || pc.ScanHeld? || pc.FillHeld? || pc.MergeHeld? || pc.FinishHeld? then 1 else 0
  }

  /** Window slots this partition has taken and not given back. */
  ghost function Slots(part: Part): nat { Sum(part.jobs, JobSlot) + PcSlot(part.pc) }

  /** Leases held by this partition's goroutines. */
  ghost function Leases(part: Part): nat { Sum(part.jobs, JobLease) + PcLease(part.pc) }

  ghost function ChannelLength(jobs: seq<Job>): nat { Sum(jobs, JobQueued) }

  // Steps.

  /** prepareMigrateAccount: the account's code hash is claimed by whoever adds it first. */
  function Claims(a: Account, seen: set<Hash>): bool { a.code.Some? && a.code.value !in seen }
  function Claimed(a: Account, seen: set<Hash>): set<Hash> { if Claims(a, seen) then seen + {a.code.value} else seen }
  predicate Async(a: Account, seen: set<Hash>) { a.slots != [] || Claims(a, seen) }

  function Idle(env: Env, part: Part, slots: int, tokens: int): Effect { Effect(part, slots, tokens, env.seen, false) }
  function Fail(env: Env, part: Part, slots: int, tokens: int): Effect { Effect(part, slots, tokens, env.seen, true) }

  /** mergeMigrateAccountDataHeld for the account after the merged ones. */
  function Merge(env: Env, part: Part, counts: Counts): Part
    requires part.merged < |part.accounts| && part.merged < |part.flags|
  {
    var a := part.accounts[part.merged];
    var writes := part.flags[part.merged] && a.code.Some?;
    var code := if writes then CodeCounts(env.size(a.code.value)) else ZERO;
    part.(merged := part.merged + 1,
          leaves := part.leaves + [a.key],
          codes := if writes then part.codes + [a.code.value] else part.codes,
          counts := Add(part.counts, Add(LeafCounts(a), Add(counts, code))))
  }

  predicate Unsent(job: Job) {
    job.Waiting? || job.Probing? || job.Split? || job.Rejoin? || job.Joining? || job.Sending?
  }

  /** The results channel is closed and empty. */
  predicate Drained(jobs: seq<Job>) {
    forall k :: 0 <= k < |jobs| ==> !Unsent(jobs[k]) && !jobs[k].Queued?
  }

  function Dropped(job: Job): Job { if job.Pending? then Retired else job }

  /** Releasing every pending result. */
  function DropPending(jobs: seq<Job>): (r: seq<Job>)
    ensures |r| == |jobs|
    ensures forall k :: 0 <= k < |jobs| ==> r[k] == Dropped(jobs[k])
  {
    seq(|jobs|, k requires 0 <= k < |jobs| => Dropped(jobs[k]))
  }

  /** Whether the next account in order is among the pending results. */
  predicate NextPending(part: Part) {
    part.base <= part.merged < part.base + |part.jobs| && part.jobs[part.merged - part.base].Pending?
  }

  function AfterMerge(part: Part): Part { part.(pc := if NextPending(part) then MergeWait else Receive) }

  function Opening(env: Env, part: Part, proceed: bool): Option<Effect> {
    match part.pc
    case OpenWait =>
      if proceed then if LeaseFree(env) then Some(Idle(env, part.(pc := OpenHeld), 0, 1)) else None
      else if env.cancelled then Some(Fail(env, part.(pc := Failed), 0, 0)) else None
    case OpenHeld =>
      if proceed then Some(Idle(env, part.(pc := ScanWait), 0, -1)) else Some(Fail(env, part.(pc := Failed), 0, -1))
    case FinishWait =>
      if proceed then if LeaseFree(env) then Some(Idle(env, part.(pc := FinishHeld), 0, 1)) else None
      else if env.cancelled then Some(Fail(env, part.(pc := Failed), 0, 0)) else None
    case FinishHeld =>
      if proceed then Some(Idle(env, part.(pc := Done), 0, -1)) else Some(Fail(env, part.(pc := Failed), 0, -1))
    case _ => None
  }

  /** The account loop of migrateAccountPartition. */
  function Scanning(env: Env, part: Part, proceed: bool): Option<Effect> {
    match part.pc
    case ScanWait =>
      if proceed then if LeaseFree(env) then Some(Idle(env, part.(pc := ScanHeld), 0, 1)) else None
      else if env.cancelled then Some(Fail(env, part.(pc := Failed), 0, 0)) else None
    case ScanHeld =>
      if !proceed then Some(Fail(env, part.(pc := Failed), 0, -1))
      else if |part.flags| >= |part.accounts| then Some(Idle(env, part.(pc := FinishWait), 0, -1))
      else
        var a := part.accounts[|part.flags|];
        var next := part.(flags := part.flags + [Claims(a, env.seen)]);
        if Async(a, env.seen) then Some(Effect(next.(pc := SlotWait), 0, -1, Claimed(a, env.seen), false))
        else if next.merged >= |next.accounts| || next.merged >= |next.flags| then None
        else
          var merged := Merge(env, next, ReferenceCounts(a));
          if env.window > 0 then Some(Idle(env, merged.(pc := ScanWait), 0, -1))
          else Some(Idle(env, merged, 0, 0))
    case _ => None
  }

  /** The read loop of runMigrateAccountBurst. */
  function Filling(env: Env, part: Part, proceed: bool): Option<Effect> {
    match part.pc
    case SlotWait =>
      if proceed then
        if SlotFree(env) && |part.flags| > 0
        then Some(Idle(env, part.(pc := Fill, base := |part.flags| - 1, jobs := [Waiting]), 1, 0)) else None
      else if env.cancelled then Some(Fail(env, part.(pc := Failed), 0, 0)) else None
    case Fill =>
      if SlotFree(env) then Some(Idle(env, part.(pc := FillWait), 1, 0))
          else Some(Idle(env, part.(pc := Receive), 0, 0))
    case FillWait =>
      if proceed then if LeaseFree(env) then Some(Idle(env, part.(pc := FillHeld), 0, 1)) else None
      else if env.cancelled then Some(Fail(env, part.(pc := Receive, failed := true), -1, 0)) else None
    case FillHeld =>
      if !proceed then Some(Fail(env, part.(pc := Receive, failed := true), -1, -1))
      else if |part.flags| >= |part.accounts| then Some(Idle(env, part.(pc := Receive, eof := true), -1, -1))
      else
        var a := part.accounts[|part.flags|];
        var next := part.(flags := part.flags + [Claims(a, env.seen)]);
        if Async(a, env.seen)
        then Some(Effect(next.(pc := Fill, jobs := part.jobs + [Waiting]), 0, -1, Claimed(a, env.seen), false))
        else Some(Idle(env, next.(pc := Hand), 0, -1))
    case _ => None
  }

  /** results <- ready, for an account that needs no job. */
  ghost function Handing(env: Env, part: Part): Option<Effect> {
    if part.pc.Hand? && 0 < |part.flags| <= |part.accounts| && ChannelLength(part.jobs) < 2 * env.workers
    then
      var ready := Queued(true, ReferenceCounts(part.accounts[|part.flags| - 1]));
      Some(Idle(env, part.(pc := Fill, jobs := part.jobs + [ready]), 0, 0))
    else None
  }

  /** Dropping everything still pending after a merge failed. */
  ghost function Abandon(env: Env, part: Part, tokens: int): Effect {
    Fail(env, part.(pc := Receive, failed := true, jobs := DropPending(part.jobs)), 0 - Sum(part.jobs, JobPending),
        tokens)
  }

  /** mergeMigrateAccounts, apart from receiving. A failure is latched before the run's
      context is cancelled, so a burst that ends in between may still see no error. */
  ghost function Merging(env: Env, part: Part, proceed: bool): Option<Effect> {
    match part.pc
    case Receive =>
      if !Drained(part.jobs) then None
      else if part.failed then Some(Fail(env, part.(pc := Failed), 0, 0))
      else if Sum(part.jobs, JobPending) != 0 then Some(Fail(env, part.(pc := Unmerged), 0, 0))
      else if env.cancelled && !proceed then Some(Fail(env, part.(pc := Failed), 0, 0))
      else Some(Idle(env, part.(pc := if part.eof then FinishWait else ScanWait, jobs := []), 0, 0))
    case MergeWait =>
      if !NextPending(part) then None
      else
        var job := part.jobs[part.merged - part.base];
        if !job.ok then Some(Abandon(env, part, 0))
        else if proceed then if LeaseFree(env) then Some(Idle(env, part.(pc := MergeHeld), 0, 1)) else None
        else if env.cancelled then Some(Abandon(env, part, 0)) else None
    case MergeHeld =>
      if !NextPending(part) || part.merged >= |part.accounts| || part.merged >= |part.flags| then None
      else if !proceed then Some(Abandon(env, part, -1))
      else
        var k := part.merged - part.base;
        var next := Merge(env, part, part.jobs[k].counts).(jobs := part.jobs[k := Retired]);
        Some(Idle(env, AfterMerge(next), -1, -1))
    case _ => None
  }

  /** The merge loop receives one result; after a failure it only gives slots back. */
  ghost function Taking(env: Env, part: Part, k: nat): Option<Effect> {
    if !part.pc.Receive? || k >= |part.jobs| || !part.jobs[k].Queued? then None
    else
      var job := part.jobs[k];
      if part.failed then
        Some(Idle(env, part.(jobs := DropPending(part.jobs)[k := Retired]), -1 - Sum(part.jobs, JobPending), 0))
      else Some(Idle(env, AfterMerge(part.(jobs := part.jobs[k := Pending(job.ok, job.counts)])), 0, 0))
  }

  predicate BurstRuns(part: Part) {
    part.pc.Fill? || part.pc.FillWait? || part.pc.FillHeld? || part.pc.Hand?
    || part.pc.Receive? || part.pc.MergeWait? || part.pc.MergeHeld?
  }

  function PutJob(part: Part, k: nat, job: Job): Part
    requires k < |part.jobs|
  {
    part.(jobs := part.jobs[k := job])
  }

  /** A job that ends in an error latches it before its result is sent. */
  function JobFails(env: Env, part: Part, k: nat, tokens: int): Effect
    requires k < |part.jobs|
  {
    Fail(env, PutJob(part, k, Sending(false, ZERO)).(failed := true), 0, tokens)
  }

  predicate Settled(kids: seq<Kid>) { forall q :: 0 <= q < |kids| ==> kids[q].KidDone? || kids[q].KidFailed? }
  predicate AnyFailed(kids: seq<Kid>) { exists q :: 0 <= q < |kids| && kids[q].KidFailed? }

  function KidCounts(kids: seq<Kid>, n: nat): Counts
    requires n <= |kids|
  {
    if n == 0 then ZERO
    else Add(KidCounts(kids, n - 1), if kids[n - 1].KidDone? then kids[n - 1].counts else ZERO)
  }

  /** processMigrateAccount for job k, up to its result entering the channel. */
  ghost function Working(env: Env, part: Part, k: nat, proceed: bool): Option<Effect> {
    if !BurstRuns(part) || k >= |part.jobs| || part.base + k >= |part.accounts| then None
    else
      var a := part.accounts[part.base + k];
      match part.jobs[k]
      case Waiting =>
        if proceed then if LeaseFree(env) then Some(Idle(env, PutJob(part, k, Probing), 0, 1)) else None
        else if env.cancelled then Some(JobFails(env, part, k, 0)) else None
      case Probing =>
        if !proceed then Some(JobFails(env, part, k, -1))
        else if |a.slots| > PARTITION_THRESHOLD
        then Some(Idle(env, PutJob(part, k, Split(seq(PARTITIONS, _ => KidWait))), 0, -1))
        else Some(Idle(env, PutJob(part, k, Sending(true, JobCounts(a))), 0, -1))
      case Split(kids) =>
        if !Settled(kids) then None
        else if AnyFailed(kids) then Some(JobFails(env, part, k, 0))
        else Some(Idle(env, PutJob(part, k, Rejoin(kids)), 0, 0))
      case Rejoin(kids) =>
        if proceed then if LeaseFree(env) then Some(Idle(env, PutJob(part, k, Joining(kids)), 0, 1)) else None
        else if env.cancelled then Some(JobFails(env, part, k, 0)) else None
      case Joining(kids) =>
        if !proceed then Some(JobFails(env, part, k, -1))
        else
          var counts := Add(ReferenceCounts(a), KidCounts(kids, |kids|));
          Some(Idle(env, PutJob(part, k, Sending(true, counts)), 0, -1))
      case Sending(ok, counts) =>
        if ChannelLength(part.jobs) < 2 * env.workers
        then Some(Idle(env, PutJob(part, k, Queued(ok, counts)), 0, 0)) else None
      case _ => None
  }

  /** Storage partition q of job k; a failed sibling cancels those still waiting. */
  function KidWorking(env: Env, part: Part, k: nat, q: nat, proceed: bool): Option<Effect> {
    if !BurstRuns(part) || k >= |part.jobs| || part.base + k >= |part.accounts| then None
    else if !part.jobs[k].Split? || q >= |part.jobs[k].kids| then None
    else
      var kids := part.jobs[k].kids;
      match kids[q]
      case KidWait =>
        if proceed then
          if LeaseFree(env) then Some(Idle(env, PutJob(part, k, Split(kids[q := KidHeld])), 0, 1)) else None
        else if env.cancelled || AnyFailed(kids)
        then Some(Idle(env, PutJob(part, k, Split(kids[q := KidFailed])), 0, 0)) else None
      case KidHeld =>
        if proceed then
          var slots := PartitionSlots(part.accounts[part.base + k].slots, q);
          Some(Idle(env, PutJob(part, k, Split(kids[q := KidDone(StorageCounts(slots))])), 0, -1))
        else Some(Idle(env, PutJob(part, k, Split(kids[q := KidFailed])), 0, -1))
      case _ => None
  }

  ghost function Coordinating(env: Env, part: Part, proceed: bool): Option<Effect> {
    match part.pc
    case OpenWait => Opening(env, part, proceed)
    case OpenHeld => Opening(env, part, proceed)
    case FinishWait => Opening(env, part, proceed)
    case FinishHeld => Opening(env, part, proceed)
    case ScanWait => Scanning(env, part, proceed)
    case ScanHeld => Scanning(env, part, proceed)
    case SlotWait => Filling(env, part, proceed)
    case Fill => Filling(env, part, proceed)
    case FillWait => Filling(env, part, proceed)
    case FillHeld => Filling(env, part, proceed)
    case Hand => Handing(env, part)
    case _ => Merging(env, part, proceed)
  }

  ghost function Move(env: Env, part: Part, action: Action): Option<Effect> {
    match action
    case Coordinate(proceed) => Coordinating(env, part, proceed)
    case Take(k) => Taking(env, part, k)
    case Work(k, proceed) => Working(env, part, k, proceed)
    case KidWork(k, q, proceed) => KidWorking(env, part, k, q, proceed)
  }

  // Whole-system steps and runs.

  datatype Config = Config(inputs: seq<seq<Account>>, workers: nat, size: Hash -> nat)

  /** At least two workers, sixteen partitions. */
  ghost predicate ValidConfig(c: Config) {
    |c.inputs| == PARTITIONS && c.workers >= 2
  }

  function EnvOf(c: Config, s: State): Env { Env(c.workers, c.size, s.window, s.tokens, s.seen, s.cancelled) }

  function NewPart(accounts: seq<Account>): Part {
    Part(accounts, OpenWait, false, false, [], 0, [], 0, ZERO, [], [])
  }

  ghost predicate Init(c: Config, s: State) {
    && |s.parts| == |c.inputs|
    && (forall p :: 0 <= p < |s.parts| ==> s.parts[p] == NewPart(c.inputs[p]))
    && s.window == 0 && s.tokens == 0 && s.seen == {} && !s.cancelled
  }

  ghost predicate PartStep(c: Config, s: State, s': State, p: nat, action: Action) {
    && p < |s.parts|
    && var effect := Move(EnvOf(c, s), s.parts[p], action);
    && effect.Some?
    && s'.parts == s.parts[p := effect.value.part]
    && s'.window == s.window + effect.value.slots
    && s'.tokens == s.tokens + effect.value.tokens
    && s'.seen == effect.value.seen
    && s'.cancelled == (s.cancelled || effect.value.cancel)
  }

  /** Cancellation from outside may arrive at any moment. */
  ghost predicate Cancel(s: State, s': State) { !s.cancelled && s' == s.(cancelled := true) }

  ghost predicate Step(c: Config, s: State, s': State) {
    Cancel(s, s') || exists p, action :: PartStep(c, s, s', p, action)
  }

  ghost predicate Run(c: Config, states: seq<State>) {
    && states != []
    && Init(c, states[0])
    && forall i :: 0 <= i < |states| - 1 ==> Step(c, states[i], states[i + 1])
  }
}
