/** Batched deletion, the inventory that checks it, and one whole prune run. */
module PruneRun {
  import opened ByteStrings
  import opened KeyValue
  import opened PruneKeep
  import opened PruneWalk
  import opened Prune

  datatype KvCount = KvCount(keys: nat, bytes: nat)

  const NONE := KvCount(0, 0)

  function Tally(c: KvCount, key: Bytes, value: Bytes): KvCount {
    KvCount(c.keys + 1, c.bytes + |key| + |value|)
  }

  function Together(a: KvCount, b: KvCount): KvCount { KvCount(a.keys + b.keys, a.bytes + b.bytes) }

  const BATCH_KEYS: nat := 16384
  const BATCH_BYTES: nat := 0x10_0000

  /** The encoded size of a LevelDB batch deleting n 32-byte keys. */
  function BatchBytes(n: nat): nat { 12 + 34 * n }

  // Deleted keys.

  /** The keys of the first n entries whose role is Delete. */
  function DeleteKeys(entries: seq<Entry>, n: nat): set<Bytes>
    requires n <= |entries|
  {
    if n == 0 then {}
    else if entries[n - 1].role == Delete then DeleteKeys(entries, n - 1) + {entries[n - 1].key}
    else DeleteKeys(entries, n - 1)
  }

  function DeleteTally(entries: seq<Entry>, n: nat): KvCount
    requires n <= |entries|
  {
    if n == 0 then NONE
    else if entries[n - 1].role == Delete then Tally(DeleteTally(entries, n - 1), entries[n - 1].key,
        entries[n - 1].value)
    else DeleteTally(entries, n - 1)
  }

  ghost predicate SortedEntries(entries: seq<Entry>) {
    forall i, j :: 0 <= i < j < |entries| ==> Less(entries[i].key, entries[j].key)
  }

  lemma {:induction false} DeleteKeysHold(entries: seq<Entry>, n: nat, k: Bytes)
    requires n <= |entries|
    ensures k in DeleteKeys(entries, n) <==> exists i :: 0 <= i < n && entries[i].role == Delete && entries[i].key == k
  {
    if n > 0 {
      DeleteKeysHold(entries, n - 1, k);
    }
  }

  /** Each deleted record is counted once. */
  lemma {:induction false} DeleteTallyCounts(entries: seq<Entry>, n: nat)
    requires n <= |entries| && SortedEntries(entries)
    ensures DeleteTally(entries, n).keys == |DeleteKeys(entries, n)|
  {
    if n > 0 {
      DeleteTallyCounts(entries, n - 1);
      var k := entries[n - 1].key;
      DeleteKeysHold(entries, n - 1, k);
      if k in DeleteKeys(entries, n - 1) {
        var i :| 0 <= i < n - 1 && entries[i].role == Delete && entries[i].key == k;
        LessTrichotomy(k, k);
      }
    }
  }

  lemma {:induction false} DeleteKeysPrefix(entries: seq<Entry>, whole: seq<Entry>, n: nat)
    requires entries <= whole && n <= |entries|
    ensures DeleteKeys(entries, n) == DeleteKeys(whole, n) && DeleteTally(entries, n) == DeleteTally(whole, n)
  {
    if n > 0 {
      DeleteKeysPrefix(entries, whole, n - 1);
    }
  }

  lemma TogetherNone(c: KvCount)
    ensures Together(c, NONE) == c
  {
  }

  lemma DeleteNothing(entries: seq<Entry>)
    ensures DeleteKeys(entries, 0) == {} && DeleteTally(entries, 0) == NONE
  {
  }

  lemma DeleteStep(entries: seq<Entry>, n: nat)
    requires n < |entries|
    ensures var e := entries[n];
            && DeleteKeys(entries, n + 1) == DeleteKeys(entries, n) + (if e.role == Delete then {e.key} else {})
            && DeleteTally(entries, n + 1)
               == if e.role == Delete then Tally(DeleteTally(entries, n), e.key, e.value) else DeleteTally(entries, n)
  {
  }

  lemma {:induction false} DeleteKeysGrow(entries: seq<Entry>, n: nat, m: nat)
    requires n <= m <= |entries|
    ensures DeleteKeys(entries, n) <= DeleteKeys(entries, m)
  {
    if n < m {
      DeleteKeysGrow(entries, n, m - 1);
    }
  }

  /** The keys the walk deletes are the candidates of the set definition. */
  lemma DeletesAreCandidates(env: Env, source: seq<Record>, keep: seq<Record>)
    requires Sorted(source) && Sorted(keep)
    ensures DeleteKeys(Expected(env.H, keep, source), |source|) == Candidates(env, AsMap(source), AsMap(keep))
  {
    hide AsMap, Sorted;
    var entries := Expected(env.H, keep, source);
    var db, kept := AsMap(source), AsMap(keep);
    var candidates := Candidates(env, db, kept);
    forall k
      ensures k in DeleteKeys(entries, |source|) <==> k in candidates
    {
      DeleteKeysHold(entries, |source|, k);
      if k in DeleteKeys(entries, |source|) {
        var i :| 0 <= i < |source| && entries[i].role == Delete && entries[i].key == k;
        AsMapHolds(source, source[i]);
        AsMapHolds(keep, source[i]);
      }
      if k in candidates {
        var r := Record.Record(k, db[k]);
        AsMapHolds(source, r);
        AsMapHolds(keep, r);
        var i :| 0 <= i < |source| && source[i] == r;
        assert entries[i].role == Delete;
      }
    }
  }

  lemma {:induction false} SelectTwice(records: seq<Record>, a: set<Bytes>, b: set<Bytes>)
    ensures Select(Select(records, a, false), b, false) == Select(records, a + b, false)
  {
    if records != [] {
      var n := |records| - 1;
      SelectTwice(records[..n], a, b);
      var front, last := Select(records[..n], a, false), records[n];
      if last.key !in a {
        assert (front + [last])[..|front|] == front;
      }
    }
  }

  lemma {:induction false} SelectNone(records: seq<Record>)
    ensures Select(records, {}, false) == records
  {
    if records != [] {
      SelectNone(records[..|records| - 1]);
      assert records == records[..|records| - 1] + [records[|records| - 1]];
    }
  }

  /** The deletion batch, the database it is committed to, and the counters. */
  class Deleter {
    /** Whether a write may fail or the machine may stop. */
    const interruptible: bool
    ghost const source: seq<Record>
    var left: seq<Record>
    var batch: set<Bytes>
    var pending: KvCount
    var deleted: KvCount
    /** The keys of all committed batches. */
    ghost var gone: set<Bytes>

    ghost predicate Valid()
      reads this
    {
      left == Select(source, gone, false)
    }

    constructor (source: seq<Record>, interruptible: bool)
      ensures Valid() && this.source == source && this.interruptible == interruptible
      ensures gone == {} && batch == {} && pending == NONE && deleted == NONE
    {
      this.source, this.interruptible := source, interruptible;
      left, batch, pending, deleted, gone := source, {}, NONE, NONE, {};
      new;
      SelectNone(source);
    }

    /** flush: commits the batch as a whole or not at all; a crash may come before
        or after the commit. */
    method Flush() returns (ok: bool)
      requires Valid()
      modifies this
      ensures Valid() && (ok || interruptible)
      ensures if ok then gone == old(gone + batch) && batch == {} && pending == NONE
              && deleted == old(Together(deleted, pending))
              else gone == old(gone) || gone == old(gone + batch)
    {
      var crash: bool, committed: bool := *, *;
      ok := !(interruptible && crash);
      if !ok && !committed {
        return;
      }
      SelectTwice(source, gone, batch);
      left := Select(left, batch, false);
      gone := gone + batch;
      if ok {
        deleted, batch, pending := Together(deleted, pending), {}, NONE;
      }
    }

    /** The walk's callback for one record. */
    method Visit(e: Entry) returns (ok: bool)
      requires Valid() && pending.keys < BATCH_KEYS
      modifies this
      ensures Valid() && (ok || interruptible)
      ensures var now := old(gone + batch) + (if e.role == Delete then {e.key} else {});
              if ok then gone + batch == now && pending.keys < BATCH_KEYS else gone <= now
      ensures ok ==> Together(deleted, pending)
                     == (if e.role == Delete then Tally(old(Together(deleted, pending)), e.key, e.value)
                         else old(Together(deleted, pending)))
    {
      ok := true;
      if e.role == Delete {
        batch := batch + {e.key};
        pending := Tally(pending, e.key, e.value);
        if pending.keys >= BATCH_KEYS || BatchBytes(pending.keys) >= BATCH_BYTES {
          ok := Flush();
        }
      }
    }

    /** The callback over what the walk delivers, and the last flush if it succeeded. */
    method VisitAll(delivered: seq<Entry>, walked: bool, ghost all: seq<Entry>) returns (ok: bool)
      requires Valid() && gone == batch == {} && pending == deleted == NONE
      requires delivered <= all && (walked ==> delivered == all)
      modifies this
      ensures Valid() && gone <= DeleteKeys(all, |all|)
      ensures ok ==> walked && gone == DeleteKeys(all, |all|) && deleted == DeleteTally(all, |all|)
      ensures walked && !interruptible ==> ok
      ensures left == Select(source, gone, false)
    {
      hide Select, DeleteKeys, DeleteTally, Together, Tally;
      DeleteNothing(all);
      TogetherNone(NONE);
      for i := 0 to |delivered|
        invariant Valid() && pending.keys < BATCH_KEYS
        invariant gone + batch == DeleteKeys(all, i)
        invariant Together(deleted, pending) == DeleteTally(all, i)
      {
        DeleteKeysGrow(all, i + 1, |all|);
        DeleteStep(all, i);
        assert delivered[i] == all[i];
        ok := Visit(delivered[i]);
        if !ok {
          return;
        }
      }
      DeleteKeysGrow(all, |delivered|, |all|);
      ok := walked;
      if ok {
        ok := Flush();
      }
    }
  }

  /** deletePruneDifference: the walk's callback collects deletions and commits them
      in bounded batches. Wherever it stops, only batches of candidates are gone;
      when it returns without error all of them are, and each was counted once. */
  method DeletePruneDifference(env: Env, foreign: (Bytes, Bytes) -> bool, source: seq<Record>, keep: seq<Record>,
                               workers: nat, limit: nat, interruptible: bool)
    returns (ok: bool, deleted: KvCount, left: seq<Record>, ghost gone: set<Bytes>)
    requires Sorted(source) && Sorted(keep) && workers > 0
    ensures gone <= Candidates(env, AsMap(source), AsMap(keep)) && left == Select(source, gone, false)
    ensures ok ==> gone == Candidates(env, AsMap(source), AsMap(keep)) && deleted.keys == |gone|
    ensures !interruptible && Contained(keep, source) && NoForeign(env.H, foreign, keep, source) ==> ok
  {
    hide *;
    ghost var all := Expected(env.H, keep, source);
    DeletesAreCandidates(env, source, keep);
    ExpectedSorted(env.H, keep, source);
    DeleteTallyCounts(all, |source|);
    var walked, delivered := WalkPruneDifference(env.H, foreign, source, keep, workers, limit, interruptible);
    var deleter := new Deleter(source, interruptible);
    ok := deleter.VisitAll(delivered, walked, all);
    return ok, deleter.deleted, deleter.left, deleter.gone;
  }

  lemma ExpectedSorted(H: Hasher, keep: seq<Record>, source: seq<Record>)
    requires Sorted(source)
    ensures SortedEntries(Expected(H, keep, source))
  {
  }
}
