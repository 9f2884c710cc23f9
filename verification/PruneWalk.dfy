/** The ordered difference of a source database and a keep set, classified by
    concurrent workers behind a ring buffer: internal/migration/prune_pipeline.go. */
module PruneWalk {
  import opened ByteStrings
  import opened KeyValue
  import opened Sums

  datatype Role = Unclassified | Protect | Retain | Delete | Unknown

  datatype Entry = Entry(key: Bytes, value: Bytes, role: Role)

  const PARALLEL_HASH_BYTES: nat := 4096

  function Size(e: Entry): nat { |e.key| + |e.value| }

  /** What classifyPruneRecord makes of an entry. */
  function Classify(H: Hasher, e: Entry): Entry {
    if e.role == Unclassified then e.(role := if H(e.value) == e.key then Delete else Unknown) else e
  }

  /** Foreign keys are refused unless the entry is retained or deleted. */
  predicate Rejects(H: Hasher, foreign: (Bytes, Bytes) -> bool, e: Entry) {
    var role := Classify(H, e).role;
    role != Delete && role != Retain && foreign(e.key, e.value)
  }

  function Classified(H: Hasher, entries: seq<Entry>): (r: seq<Entry>)
    ensures |r| == |entries|
    ensures forall n :: 0 <= n < |r| ==> r[n] == Classify(H, entries[n])
  {
    seq(|entries|, n requires 0 <= n < |entries| => Classify(H, entries[n]))
  }

  // The simple definition.

  /** The role of a source record, by membership in the keep set. */
  function RoleOf(H: Hasher, keep: seq<Record>, r: Record): Role {
    if HasKey(keep, r.key) then Retain
    else if |r.key| == 32 then if H(r.value) == r.key then Delete else Unknown
    else Protect
  }

  function Expected(H: Hasher, keep: seq<Record>, source: seq<Record>): (r: seq<Entry>)
    ensures |r| == |source|
    ensures forall n :: 0 <= n < |r| ==> r[n] == Entry(source[n].key, source[n].value, RoleOf(H, keep, source[n]))
  {
    seq(|source|, n requires 0 <= n < |source| => Entry(source[n].key, source[n].value, RoleOf(H, keep, source[n])))
  }

  /** The keep set is part of the source, values included. */
  ghost predicate Contained(keep: seq<Record>, source: seq<Record>) {
    forall i :: 0 <= i < |keep| ==> keep[i] in source
  }

  ghost predicate NoForeign(H: Hasher, foreign: (Bytes, Bytes) -> bool, keep: seq<Record>, source: seq<Record>) {
    forall n :: 0 <= n < |source| ==> !Rejects(H, foreign, Expected(H, keep, source)[n])
  }

  // The pipeline.

  /** A ring slot: Todo until a worker has classified it, then Ready, Rejected as
      foreign, or Interrupted because the context was cancelled first. */
  datatype Status = Todo | Ready | Rejected | Interrupted

  datatype Slot = Slot(entry: Entry, status: Status)

  /** Position of the j-th pending slot in a ring of n slots. */
  function Ring(first: nat, j: nat, n: nat): (r: nat)
    requires first < n && j <= n
    ensures j < n ==> r < n
  {
    if first + j < n then first + j else first + j - n
  }

  lemma RingModulo(first: nat, j: nat, n: nat)
    requires first < n && j < n
    ensures (first + j) % n == Ring(first, j, n)
  {
    if first + j >= n {
      assert first + j == 1 * n + (first + j - n);
    }
  }

  ghost predicate SlotHolds(H: Hasher, foreign: (Bytes, Bytes) -> bool, slot: Slot, e: Entry, cancelled: bool) {
    match slot.status
    case Todo => slot.entry == e
    case Ready => slot.entry == Classify(H, e) && !Rejects(H, foreign, e)
    case _ => slot.entry.key == e.key && slot.entry.value == e.value && cancelled
  }

  /** The ring's pending slots hold the waiting entries, oldest first. */
  ghost predicate RingHolds(H: Hasher, foreign: (Bytes, Bytes) -> bool, ring: seq<Slot>, first: nat,
                            waiting: seq<Entry>, cancelled: bool)
  {
    && first < |ring| && |waiting| <= |ring|
    && forall j :: 0 <= j < |waiting| ==> SlotHolds(H, foreign, ring[Ring(first, j, |ring|)], waiting[j], cancelled)
  }

  lemma RingShift(first: nat, j: nat, n: nat)
    requires first < n && j < n
    ensures (first + 1) % n < n && Ring((first + 1) % n, j, n) == Ring(first, j + 1, n)
  {
    if first + 1 == n {
      assert (first + 1) % n == 0;
    } else {
      assert (first + 1) % n == first + 1;
    }
  }

  lemma RingPop(H: Hasher, foreign: (Bytes, Bytes) -> bool, ring: seq<Slot>, first: nat, waiting: seq<Entry>,
                cancelled: bool)
    requires RingHolds(H, foreign, ring, first, waiting, cancelled) && waiting != []
    ensures RingHolds(H, foreign, ring, (first + 1) % |ring|, waiting[1..], cancelled)
    ensures SlotHolds(H, foreign, ring[first], waiting[0], cancelled)
  {
    hide SlotHolds;
    var n := |ring|;
    assert Ring(first, 0, n) == first;
    forall j | 0 <= j < |waiting| - 1
      ensures (first + 1) % n < n && SlotHolds(H, foreign, ring[Ring((first + 1) % n, j, n)], waiting[1..][j],
              cancelled)
    {
      RingShift(first, j, n);
      assert SlotHolds(H, foreign, ring[Ring(first, j + 1, n)], waiting[j + 1], cancelled);
    }
  }

  lemma RingPush(H: Hasher, foreign: (Bytes, Bytes) -> bool, ring: seq<Slot>, first: nat, waiting: seq<Entry>,
                 cancelled: bool, e: Entry)
    requires RingHolds(H, foreign, ring, first, waiting, cancelled) && |waiting| < |ring|
    ensures var at := (first + |waiting|) % |ring|;
            at < |ring| && RingHolds(H, foreign, ring[at := Slot(e, Todo)], first, waiting + [e], cancelled)
  {
    hide SlotHolds;
    var n := |ring|;
    RingModulo(first, |waiting|, n);
    var next := ring[Ring(first, |waiting|, n) := Slot(e, Todo)];
    NewSlotHolds(H, foreign, e, cancelled);
    forall j | 0 <= j < |waiting|
      ensures SlotHolds(H, foreign, next[Ring(first, j, n)], waiting[j], cancelled)
    {
      assert Ring(first, j, n) != Ring(first, |waiting|, n);
    }
  }

  lemma NewSlotHolds(H: Hasher, foreign: (Bytes, Bytes) -> bool, e: Entry, cancelled: bool)
    ensures SlotHolds(H, foreign, Slot(e, Todo), e, cancelled)
  {
  }

  lemma RingWork(H: Hasher, foreign: (Bytes, Bytes) -> bool, ring: seq<Slot>, first: nat, waiting: seq<Entry>,
                 cancelled: bool, j: nat, slot: Slot, after: bool)
    requires RingHolds(H, foreign, ring, first, waiting, cancelled) && j < |waiting|
    requires cancelled ==> after
    requires SlotHolds(H, foreign, slot, waiting[j], after)
    ensures RingHolds(H, foreign, ring[Ring(first, j, |ring|) := slot], first, waiting, after)
  {
    hide SlotHolds;
    var n := |ring|;
    forall i | 0 <= i < |waiting|
      ensures SlotHolds(H, foreign, ring[Ring(first, j, n) := slot][Ring(first, i, n)], waiting[i], after)
    {
      if i != j {
        assert Ring(first, i, n) != Ring(first, j, n);
        StillHolds(H, foreign, ring[Ring(first, i, n)], waiting[i], cancelled, after);
      }
    }
  }

  lemma StillHolds(H: Hasher, foreign: (Bytes, Bytes) -> bool, slot: Slot, e: Entry, cancelled: bool, after: bool)
    requires SlotHolds(H, foreign, slot, e, cancelled) && (cancelled ==> after)
    ensures SlotHolds(H, foreign, slot, e, after)
  {
  }

  lemma RingCancelled(H: Hasher, foreign: (Bytes, Bytes) -> bool, ring: seq<Slot>, first: nat, waiting: seq<Entry>,
                      cancelled: bool)
    requires RingHolds(H, foreign, ring, first, waiting, cancelled)
    ensures RingHolds(H, foreign, ring, first, waiting, true)
  {
    forall j | 0 <= j < |waiting|
      ensures SlotHolds(H, foreign, ring[Ring(first, j, |ring|)], waiting[j], true)
    {
      StillHolds(H, foreign, ring[Ring(first, j, |ring|)], waiting[j], cancelled, true);
    }
  }

  lemma DrainedSize(entries: seq<Entry>, n: nat)
    requires n < |entries|
    ensures Sum(entries[n..], Size) == Size(entries[n]) + Sum(entries[n + 1..], Size)
    ensures entries[n..][1..] == entries[n + 1..] && entries[n..][0] == entries[n]
  {
    SumFront(entries[n..], Size);
  }

  lemma ClassifiedAppend(H: Hasher, entries: seq<Entry>, n: nat)
    requires n < |entries|
    ensures Classified(H, entries[..n + 1]) == Classified(H, entries[..n]) + [Classify(H, entries[n])]
  {
    assert entries[..n + 1] == entries[..n] + [entries[n]];
  }

  class Pipeline {
    const H: Hasher
    const foreign: (Bytes, Bytes) -> bool
    const limit: nat
    const slots: array<Slot>
    /** Whether the callback may fail or the caller may cancel. */
    const interruptible: bool

    var first: nat
    var pending: nat
    var bytes: nat
    var cancelled: bool
    /** What the callback has been given, in order. */
    var delivered: seq<Entry>
    /** Every entry pushed so far. */
    ghost var accepted: seq<Entry>

    /** Nothing so far is a reason to fail. */
    ghost predicate Blameless()
      reads this`accepted
    {
      !interruptible && forall n :: 0 <= n < |accepted| ==> !Rejects(H, foreign, accepted[n])
    }

    /** What was delivered is a prefix of what was accepted, each entry classified and fine. */
    ghost predicate Ordered()
      reads this`delivered, this`accepted
    {
      && |delivered| <= |accepted|
      && delivered == Classified(H, accepted[..|delivered|])
      && (forall n :: 0 <= n < |delivered| ==> !Rejects(H, foreign, accepted[n]))
    }

    /** At most the ring's slots and `limit` bytes are buffered, and they are the
        accepted entries that have not been delivered. */
    ghost predicate Valid()
      reads this, slots
    {
      && Ordered()
      && |delivered| + pending == |accepted|
      && RingHolds(H, foreign, slots[..], first, accepted[|delivered|..], cancelled)
      && bytes == Sum(accepted[|delivered|..], Size) <= limit
      && (Blameless() ==> !cancelled)
    }

    /** What holds after a failed operation: the walk stops. */
    ghost predicate Stopped()
      reads this`delivered, this`accepted
    {
      !Blameless() && Ordered()
    }

    constructor (H: Hasher, foreign: (Bytes, Bytes) -> bool, workers: nat, limit: nat, interruptible: bool)
      requires workers > 0
      ensures Valid() && fresh(slots) && slots.Length == 2 * workers
      ensures this.H == H && this.foreign == foreign && this.limit == limit && this.interruptible == interruptible
      ensures delivered == [] && accepted == [] && pending == 0
    {
      this.H, this.foreign, this.limit, this.interruptible := H, foreign, limit, interruptible;
      slots := new Slot[2 * workers](_ => Slot(Entry([], [], Protect), Todo));
      first, pending, bytes, cancelled, delivered, accepted := 0, 0, 0, false, [], [];
    }

    /** One worker classifies one pending slot. */
    method WorkOn(j: nat)
      requires Valid() && j < pending
      modifies slots, this`cancelled
      ensures Valid() && (old(cancelled) ==> cancelled)
      ensures slots[Ring(first, j, slots.Length)].status != Todo
    {
      hide Sum, Ordered;
      var at := (first + j) % slots.Length;
      RingModulo(first, j, slots.Length);
      ghost var ring, waiting := slots[..], accepted[|delivered|..];
      assert SlotHolds(H, foreign, ring[Ring(first, j, |ring|)], waiting[j], cancelled);
      if slots[at].status == Todo {
        if cancelled {
          slots[at] := slots[at].(status := Interrupted);
        } else {
          var entry := Classify(H, slots[at].entry);
          if Rejects(H, foreign, slots[at].entry) {
            slots[at] := Slot(entry, Rejected);
            cancelled := true;
          } else {
            slots[at] := Slot(entry, Ready);
          }
        }
        RingWork(H, foreign, ring, first, waiting, old(cancelled), j, slots[at], cancelled);
        assert slots[..] == ring[at := slots[at]];
      }
    }

    /** Any number of workers take any number of steps, in any order, and the
        caller may cancel. */
    method RunWorkers()
      requires Valid()
      modifies slots, this`cancelled
      ensures Valid() && (old(cancelled) ==> cancelled)
    {
      hide Sum, Ordered;
      var steps: nat := *;
      while steps > 0
        invariant Valid() && (old(cancelled) ==> cancelled)
      {
        var j: nat := *;
        if j < pending {
          WorkOn(j);
        } else if interruptible {
          RingCancelled(H, foreign, slots[..], first, accepted[|delivered|..], cancelled);
          cancelled := true;
        }
        steps := steps - 1;
      }
    }

    /** Hands an entry to the callback, unless the context is done or the callback fails. */
    method Consume(entry: Entry) returns (ok: bool)
      modifies this`delivered, this`cancelled
      ensures ok ==> delivered == old(delivered) + [entry] && !cancelled && !old(cancelled)
      ensures !ok ==> delivered == old(delivered) && cancelled
      ensures !interruptible && !old(cancelled) ==> ok
    {
      if cancelled {
        return false;
      }
      var fails: bool := *;
      if interruptible && fails {
        cancelled := true;
        return false;
      }
      delivered := delivered + [entry];
      return true;
    }

    /** drainOne: waits for the oldest slot, whatever the workers do meanwhile. */
    method DrainOne() returns (ok: bool)
      requires Valid() && pending > 0
      modifies this`first, this`pending, this`bytes, this`cancelled, this`delivered, slots
      ensures if ok then Valid() && pending == old(pending) - 1 else Stopped()
    {
      hide Sum;
      RunWorkers();
      WorkOn(0);
      ghost var n := |delivered|;
      var slot := slots[first];
      DrainedSize(accepted, n);
      ClassifiedAppend(H, accepted, n);
      RingPop(H, foreign, slots[..], first, accepted[n..], cancelled);
      ok := slot.status == Ready;
      if ok {
        ok := Consume(slot.entry);
      }
      bytes := bytes - (|slot.entry.key| + |slot.entry.value|);
      first := (first + 1) % slots.Length;
      pending := pending - 1;
    }

    /** drain: delivers everything pending, then looks at the context. */
    method Drain() returns (ok: bool)
      requires Valid()
      modifies this`first, this`pending, this`bytes, this`cancelled, this`delivered, slots
      ensures if ok then Valid() && pending == 0 else Stopped()
    {
      while pending > 0
        invariant Valid()
      {
        ok := DrainOne();
        if !ok {
          return;
        }
      }
      ok := !cancelled;
    }

    /** Classifies and delivers a record on the coordinator, past an empty ring. */
    method ConsumeDirect(key: Bytes, value: Bytes, role: Role) returns (ok: bool)
      requires Valid() && pending == 0
      modifies this`accepted, this`cancelled, this`delivered
      ensures accepted == old(accepted) + [Entry(key, value, role)]
      ensures if ok then Valid() && pending == 0 else Stopped()
    {
      hide Sum;
      var e := Entry(key, value, role);
      ghost var n := |delivered|;
      accepted := accepted + [e];
      assert accepted[..n] == old(accepted)[..n];
      ClassifiedAppend(H, accepted, n);
      if cancelled || Rejects(H, foreign, e) {
        assert Rejects(H, foreign, accepted[n]) || cancelled;
        return false;
      }
      ok := Consume(Classify(H, e));
      assert accepted[|delivered|..] == old(accepted)[n..] || !ok;
    }

    /** push: small records go straight through an empty ring, oversize ones after
        draining it; the rest wait for room and are queued for the workers. */
    method Push(key: Bytes, value: Bytes, role: Role) returns (ok: bool)
      requires Valid()
      modifies this, slots
      ensures old(accepted) <= accepted <= old(accepted) + [Entry(key, value, role)]
      ensures if ok then Valid() && accepted == old(accepted) + [Entry(key, value, role)] else Stopped()
    {
      if cancelled {
        return false;
      }
      var e := Entry(key, value, role);
      var parallel := role == Unclassified && |value| >= PARALLEL_HASH_BYTES;
      if Size(e) > limit || (!parallel && pending == 0) {
        ok := Drain();
        if ok {
          ok := ConsumeDirect(key, value, role);
        }
        return;
      }
      while pending == slots.Length || bytes + Size(e) > limit
        invariant Valid() && accepted == old(accepted)
        decreases pending
      {
        RoomWhenEmpty();
        ok := DrainOne();
        if !ok {
          return;
        }
      }
      Enqueue(e);
      return true;
    }

    /** An empty ring has room for any record within the limit, so the wait for
        room never drains an empty slot. */
    lemma RoomWhenEmpty()
      requires Valid()
      ensures pending == 0 ==> bytes == 0 < slots.Length
    {
    }

    method Enqueue(e: Entry)
      requires Valid() && pending < slots.Length && bytes + Size(e) <= limit
      modifies this`accepted, this`pending, this`bytes, slots
      ensures Valid() && accepted == old(accepted) + [e] && pending == old(pending) + 1
    {
      hide Sum;
      ghost var ring, n := slots[..], |delivered|;
      var at := (first + pending) % slots.Length;
      RingPush(H, foreign, ring, first, accepted[n..], cancelled, e);
      SumAppend(accepted[n..], e, Size);
      accepted := accepted + [e];
      assert accepted[..n] == old(accepted)[..n] && accepted[n..] == old(accepted)[n..] + [e];
      slots[at] := Slot(e, Todo);
      assert slots[..] == ring[at := Slot(e, Todo)];
      pending := pending + 1;
      bytes := bytes + Size(e);
    }
  }

  // The merge with the keep set.

  /** The role the cursor hands to the pipeline. */
  function PushRole(keep: seq<Record>, r: Record): Role {
    if HasKey(keep, r.key) then Retain else if |r.key| == 32 then Unclassified else Protect
  }

  function Pushed(keep: seq<Record>, source: seq<Record>, n: nat): (r: seq<Entry>)
    requires n <= |source|
    ensures |r| == n
    ensures forall i :: 0 <= i < n ==> r[i] == Entry(source[i].key, source[i].value, PushRole(keep, source[i]))
  {
    seq(n, i requires 0 <= i < n => Entry(source[i].key, source[i].value, PushRole(keep, source[i])))
  }

  lemma PushedClassified(H: Hasher, foreign: (Bytes, Bytes) -> bool, keep: seq<Record>, source: seq<Record>, n: nat)
    requires n <= |source|
    ensures Classified(H, Pushed(keep, source, n)) == Expected(H, keep, source)[..n]
    ensures forall i :: 0 <= i < n ==>
              Rejects(H, foreign, Pushed(keep, source, n)[i]) == Rejects(H, foreign, Expected(H, keep, source)[i])
  {
  }

  /** pruneMergeCursor: walks the keep set beside the source without looking keys up. */
  class MergeCursor {
    const keep: seq<Record>
    var at: nat
    /** The source records it has been asked about. */
    ghost var passed: seq<Record>

    /** Everything before the cursor has been met, everything from it on lies ahead. */
    ghost predicate Valid()
      reads this
    {
      && Sorted(keep) && at <= |keep|
      && (forall j :: 0 <= j < at ==> keep[j] in passed)
      && (forall j, n :: at <= j < |keep| && 0 <= n < |passed| ==> Less(passed[n].key, keep[j].key))
    }

    constructor (keep: seq<Record>)
      requires Sorted(keep)
      ensures Valid() && this.keep == keep && passed == []
    {
      this.keep := keep;
      at, passed := 0, [];
    }

    /** role: for the next source record in order, the role by keep membership, or
        an error when the record proves that the keep set is not contained. */
    method RoleFor(key: Bytes, value: Bytes, ghost source: seq<Record>) returns (ok: bool, role: Role)
      requires Valid() && Sorted(source) && |passed| < |source| && passed == source[..|passed|]
      requires source[|passed|] == Record(key, value)
      modifies this
      ensures if ok then Valid() && passed == old(passed) + [Record(key, value)]
              && role == PushRole(keep, Record(key, value))
              else !Contained(keep, source)
    {
      ghost var n := |passed|;
      role := Protect;
      if at < |keep| && Less(keep[at].key, key) {
        KeyMissing(keep[at], source, n);
        assert keep[at] !in source;
        return false, role;
      }
      if at < |keep| && key == keep[at].key {
        if keep[at].value != value {
          ValueDiffers(keep[at], source, n);
          assert keep[at] !in source;
          return false, role;
        }
        role := Retain;
        at := at + 1;
        passed := passed + [Record(key, value)];
        return true, role;
      }
      KeyAhead(keep, at, passed, source);
      role := if |key| == 32 then Unclassified else Protect;
      passed := passed + [Record(key, value)];
      return true, role;
    }
  }

  lemma KeyMissing(r: Record, source: seq<Record>, n: nat)
    requires Sorted(source) && n <= |source|
    requires forall i :: 0 <= i < n ==> Less(source[i].key, r.key)
    requires n < |source| ==> Less(r.key, source[n].key)
    ensures r !in source
  {
    forall i | 0 <= i < |source|
      ensures source[i] != r
    {
      LessTrichotomy(r.key, r.key);
      if i > n {
        LessTransitive(r.key, source[n].key, source[i].key);
      }
    }
  }

  lemma ValueDiffers(r: Record, source: seq<Record>, n: nat)
    requires Sorted(source) && n < |source| && source[n].key == r.key && source[n].value != r.value
    ensures r !in source
  {
    forall i | 0 <= i < |source|
      ensures source[i] != r
    {
      LessTrichotomy(r.key, r.key);
    }
  }

  lemma KeyAhead(keep: seq<Record>, at: nat, passed: seq<Record>, source: seq<Record>)
    requires Sorted(keep) && Sorted(source) && at <= |keep| && |passed| < |source| && passed == source[..|passed|]
    requires forall j :: 0 <= j < at ==> keep[j] in passed
    requires at < |keep| ==> !Less(keep[at].key, source[|passed|].key) && source[|passed|].key != keep[at].key
    ensures !HasKey(keep, source[|passed|].key)
    ensures forall j :: at <= j < |keep| ==> Less(source[|passed|].key, keep[j].key)
  {
    var key := source[|passed|].key;
    LessTrichotomy(key, key);
    if at < |keep| {
      LessTrichotomy(key, keep[at].key);
    }
    forall j | 0 <= j < |keep|
      ensures keep[j].key != key
      ensures j >= at ==> Less(key, keep[j].key)
    {
      if j > at {
        LessTransitive(key, keep[at].key, keep[j].key);
      }
    }
  }

  /** walkPruneDifference, under every worker schedule. The callback gets a prefix
      of the source in order, each record once and with its role by the simple
      definition. The walk succeeds only if the keep set is contained in the
      source and no foreign key is present, and then everything was delivered;
      without cancellation and callback errors it succeeds exactly then. */
  method WalkPruneDifference(H: Hasher, foreign: (Bytes, Bytes) -> bool, source: seq<Record>, keep: seq<Record>,
                             workers: nat, limit: nat, interruptible: bool)
    returns (ok: bool, delivered: seq<Entry>)
    requires Sorted(source) && Sorted(keep) && workers > 0
    ensures delivered <= Expected(H, keep, source)
    ensures ok ==> delivered == Expected(H, keep, source)
    ensures ok ==> Contained(keep, source) && NoForeign(H, foreign, keep, source)
    ensures !interruptible && Contained(keep, source) && NoForeign(H, foreign, keep, source) ==> ok
  {
    hide RingHolds, Sum, Rejects, Less, Sorted, PushRole, Classify, RoleOf, Pipeline.Stopped;
    var cursor := new MergeCursor(keep);
    var pipeline := new Pipeline(H, foreign, workers, limit, interruptible);
    ghost var expected := Expected(H, keep, source);
    for i := 0 to |source|
      invariant cursor.Valid() && cursor.keep == keep && cursor.passed == source[..i]
      invariant pipeline.Valid() && pipeline.accepted == Pushed(keep, source, i)
      invariant pipeline.H == H && pipeline.foreign == foreign && pipeline.interruptible == interruptible
      invariant fresh(cursor) && fresh(pipeline) && fresh(pipeline.slots)
    {
      var fine, role := cursor.RoleFor(source[i].key, source[i].value, source);
      if !fine {
        PrefixDelivered(pipeline, keep, source, i);
        return false, pipeline.delivered;
      }
      assert source[..i + 1] == source[..i] + [source[i]];
      assert Pushed(keep, source, i + 1) == Pushed(keep, source, i) + [Entry(source[i].key, source[i].value, role)];
      fine := pipeline.Push(source[i].key, source[i].value, role);
      if !fine {
        StoppedPrefix(pipeline, keep, source, i + 1);
        return false, pipeline.delivered;
      }
    }
    assert source[..|source|] == source;
    if cursor.at < |keep| {
      KeyMissing(keep[cursor.at], source, |source|);
      PrefixDelivered(pipeline, keep, source, |source|);
      return false, pipeline.delivered;
    }
    ok := pipeline.Drain();
    delivered := pipeline.delivered;
    if !ok {
      StoppedPrefix(pipeline, keep, source, |source|);
    } else {
      PrefixDelivered(pipeline, keep, source, |source|);
    }
  }

  lemma PrefixDelivered(pipeline: Pipeline, keep: seq<Record>, source: seq<Record>, n: nat)
    requires n <= |source| && pipeline.Ordered() && pipeline.accepted == Pushed(keep, source, n)
    ensures pipeline.delivered == Expected(pipeline.H, keep, source)[..|pipeline.delivered|]
    ensures forall i :: 0 <= i < |pipeline.delivered| ==>
              !Rejects(pipeline.H, pipeline.foreign, Expected(pipeline.H, keep, source)[i])
  {
    PushedClassified(pipeline.H, pipeline.foreign, keep, source, n);
  }

  /** A stopped pipeline delivered a prefix, and had a reason to stop. */
  lemma StoppedPrefix(pipeline: Pipeline, keep: seq<Record>, source: seq<Record>, n: nat)
    requires n <= |source| && pipeline.Stopped() && pipeline.accepted <= Pushed(keep, source, n)
    ensures pipeline.delivered <= Expected(pipeline.H, keep, source)
    ensures pipeline.interruptible || !NoForeign(pipeline.H, pipeline.foreign, keep, source)
  {
    PushedClassified(pipeline.H, pipeline.foreign, keep, source, n);
    var m := |pipeline.accepted|;
    assert pipeline.accepted == Pushed(keep, source, m);
    PrefixDelivered(pipeline, keep, source, m);
  }
}
