/** The whole balance conversion, transformOVMState in internal/migration/ovm_transform.go:
    what it accepts and the state it leaves. */
module OvmConversion {
  import opened ByteStrings
  import opened KeyValue
  import opened AccountCodec
  import opened OvmCursor
  import opened OvmBalances
  import opened OvmTransform
  import opened OvmBatch
  import opened PatchedTrie
  import Audit = OvmAudit

  // The queue of balance jobs, ordered by account hash.

  /** queueBalance's fixed-size record. */
  function QueueRecord(address: Bytes, slot: Bytes, value: nat): Bytes { address + slot + Fixed(value, 32) }

  function RecordAt(e: Setup, k: Bytes): Bytes
    requires k in e.balances
  {
    QueueRecord(e.balances[k], k, Value(e, k))
  }

  lemma ValueBound(e: Setup, k: Bytes)
    ensures Value(e, k) < WORD
  {
    hide ValidStorage, FromBigEndian, Power256;
    if k in e.storage && e.storage[k] != [] && DecodeValue(e.storage[k]).Some? {
      StorageCanonical(e.storage[k]);
    }
  }

  /** Reading a record back. */
  lemma RecordReads(e: Setup, k: Bytes)
    requires WellFormed(e) && k in e.balances
    ensures var r := RecordAt(e, k);
            && |k| == 32 && |r| == 84 && r[..20] == e.balances[k] && r[20..52] == k
                && FromBigEndian(r[52..]) == Value(e, k)
  {
    hide Value, SlotOf, Fixed, FromBigEndian, Power256;
    ValueBound(e, k);
    FixedInverse(Value(e, k), 32);
    var a, v := e.balances[k], Fixed(Value(e, k), 32);
    assert a + k + v == a + (k + v);
    assert (a + k + v)[20..52] == k;
    assert (a + k + v)[52..] == v;
  }

  /** The queue holds exactly the jobs of the slots in s, each under its account's hash. */
  ghost predicate Queued(e: Setup, s: set<Bytes>, q: Database)
    requires Balances(e, s)
  {
    && (forall k :: k in s ==> e.H(e.balances[k]) in q)
    && (forall h :: h in q ==>
          && |q[h]| == 84 && q[h][20..52] in s && h == e.H(e.balances[q[h][20..52]])
          && q[h] == RecordAt(e, q[h][20..52]))
  }

  lemma QueueOne(e: Setup, s: set<Bytes>, q: Database, k: Bytes)
    requires WellFormed(e) && Balances(e, s) && k in e.balances && k !in s && Queued(e, s, q)
    ensures Queued(e, s + {k}, q[e.H(e.balances[k]) := RecordAt(e, k)])
  {
    hide RecordAt, SlotOf;
    RecordReads(e, k);
  }

  /** classifyStorage's loop: the holders' jobs, unless some leaf cannot be read or owned. */
  method QueueBalances(e: Setup) returns (q: Option<Database>)
    requires WellFormed(e)
    ensures q.Some? <==> Readable(e)
    ensures q.Some? ==> Queued(e, Slots(e), q.value)
  {
    hide AsMap, Sorted, RecordAt, WellFormed, DecodeValue, ClassOf, HasKey, Queued, Slots, Readable, LeavesGood, Less,
         QueueRecord;
    var leaves := Iterate(e.storage);
    var b := Iterate(e.balances);
    var a := Iterate(e.allowances);
    var k := Iterate(e.known);
    var keys := seq(|leaves|, i requires 0 <= i < |leaves| => leaves[i].key);
    KeysSorted(leaves);
    var classes := ClassifyStorage(keys, b, a, k);
    var jobs: Database := map[];
    ghost var seen: set<Bytes> := {};
    NothingQueued(e, leaves);
    for i := 0 to |leaves|
      invariant Balances(e, seen) && Queued(e, seen, jobs)
      invariant forall x :: x in seen <==> x in Slots(e) && HasKey(leaves[..i], x)
      invariant LeavesGood(e, leaves, i)
    {
      var leaf := leaves[i];
      LeafOf(e.storage, leaves, i);
      assert classes[i] == ClassAt(e, leaf.key);
      var value := DecodeValue(leaf.value);
      LeafGood(e, leaves, i);
      if value.None? || |leaf.key| != 32 || classes[i].Unowned? {
        return None;
      }
      if classes[i].Balance? {
        SlotClass(e, leaf.key);
        QueueOne(e, seen, jobs, leaf.key);
        RecordIs(e, leaf.key, value.value);
        jobs := jobs[e.H(classes[i].address) := QueueRecord(classes[i].address, leaf.key, value.value)];
        seen := seen + {leaf.key};
      } else {
        NotSlot(e, leaf.key);
      }
    }
    AllSeen(e, leaves, seen);
    q := Some(jobs);
  }

  /** The first n leaves can be read and are owned. */
  ghost predicate LeavesGood(e: Setup, leaves: seq<Record>, n: nat)
    requires n <= |leaves|
  {
    forall j :: 0 <= j < n ==>
      |leaves[j].key| == 32 && DecodeValue(leaves[j].value).Some? && !ClassAt(e, leaves[j].key).Unowned?
  }

  lemma LeafGood(e: Setup, leaves: seq<Record>, n: nat)
    requires n < |leaves| && leaves[n].key in e.storage && e.storage[leaves[n].key] == leaves[n].value
             && LeavesGood(e, leaves, n)
    ensures if |leaves[n].key| == 32 && DecodeValue(leaves[n].value).Some? && !ClassAt(e, leaves[n].key).Unowned?
            then LeavesGood(e, leaves, n + 1) else !Readable(e)
  {
    hide DecodeValue, ClassAt;
  }

  lemma NothingQueued(e: Setup, leaves: seq<Record>)
    ensures Queued(e, {}, map[]) && LeavesGood(e, leaves, 0) && forall x :: !HasKey(leaves[..0], x)
  {
  }

  lemma KeysSorted(leaves: seq<Record>)
    requires Sorted(leaves)
    ensures forall i, j :: 0 <= i < j < |leaves| ==> Less(leaves[i].key, leaves[j].key)
  {
  }

  lemma LeafOf(db: Database, leaves: seq<Record>, i: nat)
    requires Sorted(leaves) && AsMap(leaves) == db && i < |leaves|
    ensures leaves[i].key in db && db[leaves[i].key] == leaves[i].value
    ensures forall x :: HasKey(leaves[..i + 1], x) <==> HasKey(leaves[..i], x) || x == leaves[i].key
    ensures !HasKey(leaves[..i], leaves[i].key)
  {
    hide AsMap, Sorted;
    AsMapHolds(leaves, leaves[i]);
    DistinctKeys(leaves);
    forall x
      ensures HasKey(leaves[..i + 1], x) <==> HasKey(leaves[..i], x) || x == leaves[i].key
    {
      if HasKey(leaves[..i], x) {
        var j :| 0 <= j < i && leaves[..i][j].key == x;
        assert leaves[..i + 1][j].key == x;
      }
      if x == leaves[i].key {
        assert leaves[..i + 1][i].key == x;
      }
      if HasKey(leaves[..i + 1], x) && x != leaves[i].key {
        var j :| 0 <= j < i + 1 && leaves[..i + 1][j].key == x;
        assert leaves[..i][j].key == x;
      }
    }
  }

  lemma SlotClass(e: Setup, k: Bytes)
    requires k in e.storage && ClassAt(e, k).Balance?
    ensures k in Slots(e) && ClassAt(e, k).address == e.balances[k]
  {
  }

  lemma NotSlot(e: Setup, k: Bytes)
    requires !ClassAt(e, k).Balance?
    ensures k !in Slots(e)
  {
  }

  lemma RecordIs(e: Setup, k: Bytes, value: nat)
    requires k in e.balances && k in e.storage && DecodeValue(e.storage[k]) == Some(value)
    ensures RecordAt(e, k) == QueueRecord(e.balances[k], k, value)
  {
  }

  lemma AllSeen(e: Setup, leaves: seq<Record>, seen: set<Bytes>)
    requires Sorted(leaves) && AsMap(leaves) == e.storage
    requires forall x :: x in seen <==> x in Slots(e) && HasKey(leaves[..|leaves|], x)
    requires LeavesGood(e, leaves, |leaves|)
    ensures seen == Slots(e) && Readable(e)
  {
    hide AsMap, Sorted, DecodeValue, ClassAt;
    assert leaves[..|leaves|] == leaves;
    forall k | k in e.storage
      ensures HasKey(leaves, k) && |k| == 32 && DecodeValue(e.storage[k]).Some? && !ClassAt(e, k).Unowned?
    {
      AsMapHolds(leaves, Record.Record(k, e.storage[k]));
    }
  }

  // The jobs, in account order.

  lemma NextRecord(e: Setup, q: Database, records: seq<Record>, i: nat, seen: set<Bytes>)
    requires WellFormed(e) && Queued(e, Slots(e), q) && Sorted(records) && AsMap(records) == q && i < |records|
    requires seen <= Slots(e)
    requires forall k :: k in Slots(e) ==> (k in seen <==> HasKey(records[..i], e.H(e.balances[k])))
    ensures |records[i].value| == 84
    ensures var v := records[i].value;
            var slot := v[20..52];
            && slot in Slots(e) && slot !in seen && records[i].key == e.H(v[..20])
            && NewJob(e, v[..20], slot, FromBigEndian(v[52..])) == JobAt(e, slot)
            && (forall k :: k in Slots(e) ==> (k in seen + {slot} <==> HasKey(records[..i + 1], e.H(e.balances[k]))))
  {
    hide AsMap, Sorted, HasKey, Slots, RecordAt, SlotOf, FromBigEndian, Value;
    LeafOf(q, records, i);
    var slot := records[i].value[20..52];
    RecordReads(e, slot);
  }

  /** inspectOrderedBalances: every holder is applied exactly once, or the run fails. */
  method InspectOrderedBalances(b: Batch, q: Database) returns (ok: bool)
    requires b.Valid() && b.queue == [] && b.t.done == {} && Queued(b.t.e, Slots(b.t.e), q)
    modifies b, b.t
    ensures ok ==> b.t.Valid() && b.t.done == Slots(b.t.e)
    ensures !ok ==> Failing(b.t.e)
  {
    hide AsMap, Sorted, HasKey, Slots, Queued, Failing, SlotsOf, Batch.Valid, NewJob, JobAt, FromBigEndian, WellFormed,
         Balances;
    WellFormedBatch(b);
    var records := Iterate(q);
    NothingBefore(records);
    NoSlots();
    ghost var seen: set<Bytes> := {};
    for i := 0 to |records|
      invariant b.Valid() && seen == b.t.done + SlotsOf(b.queue) && seen <= Slots(b.t.e)
      invariant forall k :: k in Slots(b.t.e) ==> (k in seen <==> HasKey(records[..i], b.t.e.H(b.t.e.balances[k])))
    {
      NextRecord(b.t.e, q, records, i, seen);
      var v := records[i].value;
      assert records[i].key == b.t.e.H(v[..20]);
      ok := b.Submit(v[..20], v[20..52], FromBigEndian(v[52..]));
      if !ok {
        return;
      }
      seen := seen + {v[20..52]};
    }
    AllQueued(b.t.e, q, records, seen);
    ok := b.Drain();
    if ok {
      WellFormedBatch(b);
    }
  }

  lemma WellFormedBatch(b: Batch)
    requires b.Valid()
    ensures WellFormed(b.t.e) && b.t.Valid()
  {
  }

  lemma NothingBefore(records: seq<Record>)
    ensures forall h :: !HasKey(records[..0], h)
  {
  }

  lemma AllQueued(e: Setup, q: Database, records: seq<Record>, seen: set<Bytes>)
    requires Queued(e, Slots(e), q) && Sorted(records) && AsMap(records) == q && seen <= Slots(e)
    requires forall k :: k in Slots(e) ==> (k in seen <==> HasKey(records[..|records|], e.H(e.balances[k])))
    ensures seen == Slots(e)
  {
    hide AsMap, Sorted, HasKey, Slots, RecordAt;
    assert records[..|records|] == records;
    forall k | k in Slots(e)
      ensures k in seen
    {
      AsMapHolds(records, Record.Record(e.H(e.balances[k]), q[e.H(e.balances[k])]));
    }
  }

  // The whole transform.

  datatype Result = Result(storage: Database, accounts: Database, evidence: Audit.Evidence)

  function SupplyLeaf(remaining: nat): Bytes { if remaining == 0 then [] else EncodeValue(remaining) }

  ghost function ConvertedStorage(e: Setup): Database
    requires WellFormed(e)
  {
    var r := After(e, Slots(e));
    Patched(e.storage, r.storagePatches[SupplySlot(e) := SupplyLeaf(r.remaining)])
  }

  lemma RemainingFits(e: Setup)
    requires WellFormed(e)
    ensures After(e, Slots(e)).total == Total(e) == After(e, Slots(e)).migrated + After(e, Slots(e)).remaining
  {
    AfterSums(e, Slots(e));
    PartsAdd(e, Slots(e));
  }

  /** The contract's own account afterwards: its native balance is the remaining supply. */
  ghost function ConvertedOwner(e: Setup): Account
    requires WellFormed(e) && Accepted(e)
  {
    hide After, Slots;
    RemainingFits(e);
    ReadAccount(e, Owner(e)).value.(root := e.rootOf(ConvertedStorage(e)), balance := After(e, Slots(e)).remaining,
                                    codeHash := e.H(e.newCode))
  }

  ghost function Converted(e: Setup): Result
    requires WellFormed(e) && Accepted(e)
  {
    var r := After(e, Slots(e));
    Result(ConvertedStorage(e),
           Patched(e.accounts, r.accountPatches[Owner(e) := EncodeFull(ConvertedOwner(e))]),
           Audit.Evidence(Value(e, SupplySlot(e)), r.migrated, r.remaining, r.eoas, r.contracts, r.retained, r.self))
  }

  /** storageValue of the total supply slot. */
  function Supply(e: Setup): Option<nat> {
    if SupplySlot(e) in e.storage then DecodeValue(e.storage[SupplySlot(e)]) else Some(0)
  }

  lemma SupplyIs(e: Setup)
    ensures Readable(e) ==> Supply(e).Some?
    ensures Supply(e).Some? ==> Supply(e).value == Value(e, SupplySlot(e))
  {
  }

  /** transformOVMState: it succeeds exactly on the accepted inputs. The two error returns
      for a supply that does not add up are never taken: the totals always do. */
  method TransformOVMState(e: Setup, workers: nat) returns (r: Option<Result>)
    requires WellFormed(e) && workers > 0
    ensures r.Some? <==> Accepted(e)
    ensures r.Some? ==> r.value == Converted(e)
  {
    hide AsMap, Patched, Slots, Readable, AllInspectable, After, WellFormed, Queued, DecodeFull, EncodeFull,
         EncodeValue, Value, Total, Batch.Valid, Balances, NonZero, Supply, ReadAccount, RetainListOk, Power256,
         DecodeValue, Audit.MatchAccounting;
    var account := ReadAccount(e, Owner(e));
    if account.None? || account.value.codeHash == EmptyCode(e.H) {
      return None;
    }
    if !RetainListOk(e) {
      return None;
    }
    SupplyIs(e);
    var supply := Supply(e);
    if supply.None? {
      return None;
    }
    var q := QueueBalances(e);
    if q.None? {
      return None;
    }
    var t := new Transformer(e);
    EmptyDone(t);
    var b := new Batch(t, workers);
    var ok := InspectOrderedBalances(b, q.value);
    if !ok {
      return None;
    }
    TotalsAdd(t);
    if e.audit.Some? {
      if !Audit.MatchAccounting(e.audit.value, e.height, account.value.codeHash, t.slots, t.total, supply.value) {
        return None;
      }
    } else if t.total != supply.value {
      return None;
    }
    assert t.total >= t.migrated && t.total - t.migrated == t.remaining;
    var storage := Rebuild(e.storage, t.storagePatches[SupplySlot(e) := SupplyLeaf(t.remaining)]);
    var owner := account.value.(root := e.rootOf(storage), balance := t.remaining, codeHash := e.H(e.newCode));
    var accounts := Rebuild(e.accounts, t.accountPatches[Owner(e) := EncodeFull(owner)]);
    r := Some(Result(storage, accounts,
                     Audit.Evidence(supply.value, t.migrated, t.remaining, t.eoas, t.contracts, t.retained, t.self)));
  }

  lemma EmptyDone(t: Transformer)
    requires t.Valid() && t.done == {}
    ensures WellFormed(t.e)
  {
  }

  /** What the transformer holds once every holder is applied. */
  lemma TotalsAdd(t: Transformer)
    requires t.Valid() && t.done == Slots(t.e)
    ensures AllInspectable(t.e, Slots(t.e)) && WellFormed(t.e) && t.View() == After(t.e, Slots(t.e))
    ensures t.total == Total(t.e) == t.migrated + t.remaining < WORD
    ensures t.slots == |NonZero(t.e, Slots(t.e))|
  {
    hide Slots, Converting, Counted, StoragePatches, AccountPatches;
    RemainingFits(t.e);
  }
}
