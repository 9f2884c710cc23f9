/** Bounded concurrent inspection of balance jobs, applied in submission order:
    internal/migration/ovm_balance_pipeline.go and ovm_balance_order.go. */
module OvmBatch {
  import opened ByteStrings
  import opened AccountCodec
  import opened OvmBalances
  import opened OvmTransform
  import opened Sums

  /** Why a run of jobs may fail: a holder's account cannot be inspected, or the balances overflow. */
  ghost predicate Failing(e: Setup) { !AllInspectable(e, Slots(e)) || Total(e) >= WORD }

  ghost function SlotsOf(queue: seq<Job>): set<Bytes> { set i | 0 <= i < |queue| :: queue[i].slot }

  /** Jobs for distinct balance slots. */
  ghost predicate Distinct(queue: seq<Job>) {
    forall i, j :: 0 <= i < j < |queue| ==> queue[i].slot != queue[j].slot
  }

  ghost predicate Known(e: Setup, queue: seq<Job>) {
    forall i :: 0 <= i < |queue| ==> queue[i].slot in Slots(e)
  }

  /** Until something fails, a job is as submitted until its inspection ends, and then as inspected. */
  ghost predicate Progressed(e: Setup, queue: seq<Job>, finished: set<nat>)
    requires Known(e, queue)
  {
    forall i: nat :: i < |queue| ==>
      if i in finished then Inspect(e, JobAt(e, queue[i].slot)) == Some(queue[i])
          else queue[i] == JobAt(e, queue[i].slot)
  }

  class Batch {
    const t: Transformer
    const workers: nat
    var queue: seq<Job>
    /** The jobs whose inspection has ended. */
    var finished: set<nat>
    var failed: bool

    ghost predicate Valid()
      reads this, t
    {
      && t.Valid() && t.done <= Slots(t.e)
      && workers > 0 && |queue| <= 2 * workers
      && Known(t.e, queue) && Distinct(queue) && SlotsOf(queue) !! t.done
      && (failed ==> Failing(t.e))
      && (!failed ==> Progressed(t.e, queue, finished))
      && (forall i :: i in finished ==> i < |queue|)
    }

    constructor (t: Transformer, workers: nat)
      requires t.Valid() && t.done == {} && workers > 0
      ensures Valid() && this.t == t && this.workers == workers && queue == [] && !failed
    {
      this.t, this.workers := t, workers;
      queue, finished, failed := [], {}, false;
    }

    /** One worker ends the inspection of job i; once the context is cancelled it may end without one. */
    method Work(i: nat)
      requires Valid() && i < |queue| && i !in finished
      modifies this`queue, this`finished, this`failed
      ensures Valid() && finished == old(finished) + {i} && |queue| == |old(queue)|
      ensures SlotsOf(queue) == SlotsOf(old(queue))
    {
      hide Inspect, Failing, JobAt, Slots, SlotsOf, Distinct, Known, Progressed, Transformer.Valid;
      var skip: bool := *;
      if !(failed && skip) {
        var r := Inspect(t.e, queue[i]);
        EndInspection(t.e, queue, finished, i, failed);
        if r.None? {
          failed := true;
        } else {
          queue := queue[i := r.value];
        }
      }
      finished := finished + {i};
    }

    /** Workers run for a while. */
    method Progress()
      requires Valid()
      modifies this`queue, this`finished, this`failed
      ensures Valid() && |queue| == |old(queue)| && SlotsOf(queue) == SlotsOf(old(queue))
    {
      hide Valid, SlotsOf;
      var steps: nat := *;
      while steps > 0
        invariant Valid() && |queue| == |old(queue)| && SlotsOf(queue) == SlotsOf(old(queue))
      {
        var i: nat := *;
        if i < |queue| && i !in finished {
          Work(i);
        }
        steps := steps - 1;
      }
    }

    /** jobs.Wait: every inspection ends, in some order. */
    method Wait()
      requires Valid()
      modifies this`queue, this`finished, this`failed
      ensures Valid() && |queue| == |old(queue)| && SlotsOf(queue) == SlotsOf(old(queue))
      ensures forall i: nat :: i < |queue| ==> i in finished
    {
      hide Valid, SlotsOf;
      while exists i: nat :: i < |queue| && i !in finished
        invariant Valid() && |queue| == |old(queue)| && SlotsOf(queue) == SlotsOf(old(queue))
        decreases Indices(|queue|) - finished
      {
        var i: nat :| i < |queue| && i !in finished;
        assert i in Indices(|queue|);
        Work(i);
      }
    }

    /** drain: the queued jobs are applied in submission order, or the whole run fails. */
    method Drain() returns (ok: bool)
      requires Valid()
      modifies this, t
      ensures ok ==> Valid() && queue == [] && !failed && t.done == old(t.done) + SlotsOf(old(queue))
      ensures !ok ==> Failing(t.e)
    {
      hide Failing, SlotsOf, Slots, JobAt, Inspect, After, WellFormed, Balances, AllInspectable;
      Wait();
      if failed {
        return false;
      }
      NoSlots();
      for i := 0 to |queue|
        invariant t.Valid() && t.done <= Slots(t.e)
        invariant t.done == old(t.done) + SlotsOf(queue[..i])
        modifies t
      {
        NextSlot(queue, i, old(t.done));
        assert queue[i].slot in Slots(t.e);
        WithinTotal(t.e, t.done, queue[i]);
        var applied := t.ApplyBalance(queue[i]);
        if !applied {
          return false;
        }
      }
      assert queue[..|queue|] == queue;
      queue, finished := [], {};
      ok := true;
    }

    /** submit: a full queue is drained first; the batch never holds more than 2 * workers jobs. */
    method Submit(address: Bytes, slot: Bytes, value: nat) returns (ok: bool)
      requires Valid() && slot in Slots(t.e) && slot !in t.done + SlotsOf(queue)
      requires NewJob(t.e, address, slot, value) == JobAt(t.e, slot)
      modifies this, t
      ensures ok ==> Valid() && t.done + SlotsOf(queue) == old(t.done + SlotsOf(queue)) + {slot}
      ensures !ok ==> Failing(t.e)
    {
      hide Failing, SlotsOf, Slots, JobAt, Inspect, NewJob, Distinct, Known, Progressed, Transformer.Valid;
      Progress();
      if failed {
        return false;
      }
      if |queue| == 2 * workers {
        ok := Drain();
        if !ok {
          return;
        }
        NoSlots();
      }
      NewJobSlot(t.e, address, slot, value);
      AppendJob(t.e, queue, finished, NewJob(t.e, address, slot, value));
      queue := queue + [NewJob(t.e, address, slot, value)];
      ok := true;
    }
  }

  lemma NoSlots()
    ensures SlotsOf([]) == {}
  {
  }

  lemma NewJobSlot(e: Setup, address: Bytes, slot: Bytes, value: nat)
    ensures NewJob(e, address, slot, value).slot == slot
  {
  }

  lemma CannotInspect(e: Setup, k: Bytes)
    requires k in Slots(e) && Inspect(e, JobAt(e, k)).None?
    ensures Failing(e)
  {
    hide Inspect, Slots, JobAt, Total;
  }

  lemma InspectKeepsSlot(e: Setup, job: Job)
    requires Inspect(e, job).Some?
    ensures Inspect(e, job).value.slot == job.slot
  {
  }

  /** What the end of one inspection keeps. */
  lemma EndInspection(e: Setup, queue: seq<Job>, finished: set<nat>, i: nat, failed: bool)
    requires i < |queue| && i !in finished && Known(e, queue) && Distinct(queue)
    requires !failed ==> Progressed(e, queue, finished)
    ensures var r := Inspect(e, queue[i]);
            if r.None? then !failed ==> Failing(e)
            else
              var next := queue[i := r.value];
              && Known(e, next) && Distinct(next) && SlotsOf(next) == SlotsOf(queue)
              && (!failed ==> Progressed(e, next, finished + {i}))
  {
    hide Inspect, Failing, JobAt, Slots, SlotsOf;
    var r := Inspect(e, queue[i]);
    if r.None? {
      if !failed {
        CannotInspect(e, queue[i].slot);
      }
    } else {
      InspectKeepsSlot(e, queue[i]);
      SameSlots(queue, i, r.value);
    }
  }

  lemma SameSlots(queue: seq<Job>, i: nat, job: Job)
    requires i < |queue| && job.slot == queue[i].slot
    ensures SlotsOf(queue[i := job]) == SlotsOf(queue)
  {
    var next := queue[i := job];
    assert forall j :: 0 <= j < |queue| ==> next[j].slot == queue[j].slot;
  }

  lemma NextSlot(queue: seq<Job>, i: nat, before: set<Bytes>)
    requires i < |queue| && Distinct(queue) && SlotsOf(queue) !! before
    ensures queue[i].slot !in before + SlotsOf(queue[..i])
    ensures SlotsOf(queue[..i + 1]) == SlotsOf(queue[..i]) + {queue[i].slot}
    ensures SlotsOf(queue[..0]) == {}
  {
    assert queue[i].slot in SlotsOf(queue);
    assert queue[..i + 1] == queue[..i] + [queue[i]];
    forall k | k in SlotsOf(queue[..i + 1])
      ensures k in SlotsOf(queue[..i]) + {queue[i].slot}
    {
      var j :| 0 <= j <= i && queue[..i + 1][j].slot == k;
      if j < i {
        assert queue[..i][j].slot == k;
      }
    }
    forall k | k in SlotsOf(queue[..i]) + {queue[i].slot}
      ensures k in SlotsOf(queue[..i + 1])
    {
      if k != queue[i].slot {
        var j :| 0 <= j < i && queue[..i][j].slot == k;
        assert queue[..i + 1][j].slot == k;
      } else {
        assert queue[..i + 1][i].slot == k;
      }
    }
  }

  /** Applying one more holder never takes the sum past the sum over all holders. */
  lemma WithinTotal(e: Setup, s: set<Bytes>, job: Job)
    requires s <= Slots(e) && job.slot in Slots(e) && job.slot !in s && WellFormed(e)
    requires Inspect(e, JobAt(e, job.slot)) == Some(job)
    ensures Balances(e, s) && NextJob(e, s, job)
    ensures After(e, s).total + job.value >= WORD ==> Failing(e)
  {
    hide Slots, Inspect, AllInspectable, WellFormed, JobAt;
    AfterSums(e, s);
    JobIs(e, job);
    SetSumAdd(s, job.slot, ValueOf(e));
    SetSumSubset(s + {job.slot}, Slots(e), ValueOf(e));
  }

  lemma AppendJob(e: Setup, queue: seq<Job>, finished: set<nat>, job: Job)
    requires Known(e, queue) && Distinct(queue) && Progressed(e, queue, finished)
    requires job.slot in Slots(e) && job == JobAt(e, job.slot) && job.slot !in SlotsOf(queue)
    requires forall i :: i in finished ==> i < |queue|
    ensures Known(e, queue + [job]) && Distinct(queue + [job]) && Progressed(e, queue + [job], finished)
    ensures SlotsOf(queue + [job]) == SlotsOf(queue) + {job.slot}
  {
    hide Slots, Inspect, JobAt;
    var next := queue + [job];
    forall i | 0 <= i < |queue|
      ensures queue[i].slot in SlotsOf(queue) && next[i] == queue[i]
    {
    }
    forall k
      ensures k in SlotsOf(next) <==> k in SlotsOf(queue) + {job.slot}
    {
      if k in SlotsOf(queue) {
        var i :| 0 <= i < |queue| && queue[i].slot == k;
        assert next[i].slot == k;
      } else if k == job.slot {
        assert next[|queue|].slot == k;
      }
    }
  }
}
