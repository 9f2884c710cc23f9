/** Accounts, storage and counts, and the serial state traversal that every
    parallel run is compared with: internal/migration/state.go. */
module Traversal {
  import opened ByteStrings
  import opened Sums

  datatype Counts = Counts(accounts: nat, storageSlots: nat, codeReferences: nat,
                           codeRecords: nat, records: nat, payloadBytes: nat)

  const ZERO := Counts(0, 0, 0, 0, 0, 0)

  /** addBundleCounts. */
  function Add(a: Counts, b: Counts): Counts {
    Counts(a.accounts + b.accounts, a.storageSlots + b.storageSlots, a.codeReferences + b.codeReferences,
           a.codeRecords + b.codeRecords, a.records + b.records, a.payloadBytes + b.payloadBytes)
  }

  lemma AddRegroup(a: Counts, b: Counts, c: Counts, d: Counts)
    ensures Add(Add(a, b), Add(c, d)) == Add(Add(a, c), Add(b, d))
    ensures Add(a, ZERO) == a == Add(ZERO, a)
    ensures Add(Add(a, b), c) == Add(a, Add(b, c)) == Add(Add(a, c), b)
  {
  }

  datatype Slot = Slot(key: Hash, size: nat)

  /** An account leaf: its hash, the length of its RLP, the code it refers to
      (None for the empty code hash) and its storage trie's leaves in key order
      (none for the empty root). */
  datatype Account = Account(key: Hash, size: nat, code: Option<Hash>, slots: seq<Slot>)

  // Storage.

  function SlotCounts(slot: Slot): Counts {
    Counts(0, 1, 0, 0, 1, slot.size)
  }

  /** The counts of the first n slots. */
  function SlotsCounted(slots: seq<Slot>, n: nat): Counts
    requires n <= |slots|
  {
    if n == 0 then ZERO else Add(SlotsCounted(slots, n - 1), SlotCounts(slots[n - 1]))
  }

  function StorageCounts(slots: seq<Slot>): Counts {
    SlotsCounted(slots, |slots|)
  }

  lemma {:induction false} SlotsCountedPrefix(slots: seq<Slot>, more: seq<Slot>, n: nat)
    requires n <= |slots|
    ensures SlotsCounted(slots + more, n) == SlotsCounted(slots, n)
  {
    hide Add, SlotCounts;
    if n > 0 {
      SlotsCountedPrefix(slots, more, n - 1);
    }
  }

  lemma StorageAppend(slots: seq<Slot>, slot: Slot)
    ensures StorageCounts(slots + [slot]) == Add(StorageCounts(slots), SlotCounts(slot))
  {
    hide Add, SlotCounts;
    SlotsCountedPrefix(slots, [slot], |slots|);
  }

  /** The slots of storage partition q: those whose key starts with nibble q. */
  function PartitionSlots(slots: seq<Slot>, q: nat): seq<Slot> {
    if slots == [] then []
    else
      var rest := PartitionSlots(slots[..|slots| - 1], q);
      if slots[|slots| - 1].key[0] / 16 == q then rest + [slots[|slots| - 1]] else rest
  }

  /** The counts of partitions 0 to n - 1 together. */
  function PartitionedCounts(slots: seq<Slot>, n: nat): Counts {
    if n == 0 then ZERO else Add(PartitionedCounts(slots, n - 1), StorageCounts(PartitionSlots(slots, n - 1)))
  }

  lemma PartitionSlotsStep(slots: seq<Slot>, slot: Slot, q: nat)
    ensures StorageCounts(PartitionSlots(slots + [slot], q))
            == if slot.key[0] / 16 == q then Add(StorageCounts(PartitionSlots(slots, q)), SlotCounts(slot))
               else StorageCounts(PartitionSlots(slots, q))
  {
    hide Add, SlotCounts, StorageCounts;
    assert (slots + [slot])[..|slots|] == slots;
    StorageAppend(PartitionSlots(slots, q), slot);
  }

  lemma {:induction false} PartitionedStep(slots: seq<Slot>, slot: Slot, n: nat)
    ensures PartitionedCounts(slots + [slot], n)
            == if slot.key[0] / 16 < n then Add(PartitionedCounts(slots, n), SlotCounts(slot))
               else PartitionedCounts(slots, n)
    decreases n
  {
    hide Add, SlotCounts, StorageCounts, PartitionSlots;
    if n > 0 {
      PartitionedStep(slots, slot, n - 1);
      PartitionSlotsStep(slots, slot, n - 1);
      var before, part := PartitionedCounts(slots, n - 1), StorageCounts(PartitionSlots(slots, n - 1));
      AddRegroup(before, part, SlotCounts(slot), ZERO);
    }
  }

  lemma {:induction false} PartitionedEmpty(n: nat)
    ensures PartitionedCounts([], n) == ZERO
  {
    if n > 0 {
      PartitionedEmpty(n - 1);
    }
  }

  /** Splitting a storage trie sixteen ways neither loses nor repeats a slot. */
  lemma {:induction false} PartitionedIsWhole(slots: seq<Slot>)
    ensures PartitionedCounts(slots, 16) == StorageCounts(slots)
  {
    hide Add, SlotCounts, PartitionedCounts;
    if slots == [] {
      PartitionedEmpty(16);
    } else {
      var front, last := slots[..|slots| - 1], slots[|slots| - 1];
      assert slots == front + [last];
      PartitionedIsWhole(front);
      PartitionedStep(front, last, 16);
      StorageAppend(front, last);
    }
  }

  const PARTITION_THRESHOLD: nat := 1024

  /** probeStorage: walks up to 1024 slots, then looks whether there is one more.
      The counts are given up when the trie has to be partitioned. */
  method ProbeStorage(slots: seq<Slot>) returns (partition: bool, counts: Counts)
    ensures partition <==> |slots| > 1024
    ensures counts == if partition then ZERO else StorageCounts(slots)
  {
    counts := ZERO;
    var position := 0;
    for step := 0 to PARTITION_THRESHOLD
      invariant position == step <= |slots|
      invariant counts == SlotsCounted(slots, position)
    {
      if position == |slots| {
        return false, counts;
      }
      counts := Add(counts, SlotCounts(slots[position]));
      position := position + 1;
    }
    if position == |slots| {
      return false, counts;
    }
    return true, ZERO;
  }

  // Accounts.

  function ReferenceCounts(a: Account): Counts {
    if a.code.Some? then ZERO.(codeReferences := 1) else ZERO
  }

  /** What a job reports: its code reference and its storage. */
  function JobCounts(a: Account): Counts {
    Add(ReferenceCounts(a), StorageCounts(a.slots))
  }

  function LeafCounts(a: Account): Counts {
    Counts(1, 0, 0, 0, 1, a.size)
  }

  /** An account with its storage and reference, but not the code record. */
  function AccountCounts(a: Account): Counts {
    Add(LeafCounts(a), JobCounts(a))
  }

  function CodeCounts(size: nat): Counts {
    Counts(0, 0, 0, 1, 1, size)
  }

  function CodeOf(a: Account): set<Hash> {
    if a.code.Some? then {a.code.value} else {}
  }

  /** The distinct code hashes of the first n accounts. */
  function CodeHashes(accounts: seq<Account>, n: nat): set<Hash>
    requires n <= |accounts|
  {
    if n == 0 then {} else CodeHashes(accounts, n - 1) + CodeOf(accounts[n - 1])
  }

  /** stateTraverser.run after n accounts: processAccount, then processCode, which
      writes the code of a hash the first time it is referred to. */
  function Traverse(accounts: seq<Account>, size: Hash -> nat, n: nat): Counts
    requires n <= |accounts|
  {
    if n == 0 then ZERO
    else
      var a := accounts[n - 1];
      var first := a.code.Some? && a.code.value !in CodeHashes(accounts, n - 1);
      var code := if first then CodeCounts(size(a.code.value)) else ZERO;
      Add(Traverse(accounts, size, n - 1), Add(AccountCounts(a), code))
  }

  /** The first n accounts with their storage and references. */
  function BaseCounts(accounts: seq<Account>, n: nat): Counts
    requires n <= |accounts|
  {
    if n == 0 then ZERO else Add(BaseCounts(accounts, n - 1), AccountCounts(accounts[n - 1]))
  }

  /** The code records of a set of hashes. */
  ghost function CodeSetCounts(hashes: set<Hash>, size: Hash -> nat): Counts {
    Counts(0, 0, 0, |hashes|, |hashes|, SetSum(hashes, size))
  }

  lemma CodeSetAdd(hashes: set<Hash>, h: Hash, size: Hash -> nat)
    requires h !in hashes
    ensures CodeSetCounts(hashes + {h}, size) == Add(CodeSetCounts(hashes, size), CodeCounts(size(h)))
  {
    SetSumAdd(hashes, h, size);
  }

  lemma CodeOfAdded(a: Account, hashes: set<Hash>)
    ensures hashes + CodeOf(a) == if a.code.Some? && a.code.value !in hashes then hashes + {a.code.value} else hashes
  {
  }

  lemma EmptyCodeSet(size: Hash -> nat)
    ensures CodeSetCounts({}, size) == ZERO
  {
  }

  /** The serial total: every account, and each distinct code once, whatever the
      order in which the codes were met. */
  lemma {:induction false} TraverseTotal(accounts: seq<Account>, size: Hash -> nat, n: nat)
    requires n <= |accounts|
    ensures Traverse(accounts, size, n)
            == Add(BaseCounts(accounts, n), CodeSetCounts(CodeHashes(accounts, n), size))
  {
    hide Add, AccountCounts, CodeCounts, CodeSetCounts, CodeOf;
    if n > 0 {
      TraverseTotal(accounts, size, n - 1);
      var a, before := accounts[n - 1], CodeHashes(accounts, n - 1);
      var first := a.code.Some? && a.code.value !in before;
      var code := if first then CodeCounts(size(a.code.value)) else ZERO;
      var codes := CodeSetCounts(before, size);
      assert CodeSetCounts(CodeHashes(accounts, n), size) == Add(codes, code) by {
        CodeOfAdded(a, before);
        if first {
          CodeSetAdd(before, a.code.value, size);
        } else {
          AddRegroup(codes, ZERO, ZERO, ZERO);
        }
      }
      AddRegroup(BaseCounts(accounts, n - 1), codes, AccountCounts(a), code);
    } else {
      EmptyCodeSet(size);
      AddRegroup(ZERO, ZERO, ZERO, ZERO);
    }
  }

  // Several accounts lists after one another.

  function Concat(parts: seq<seq<Account>>, n: nat): seq<Account>
    requires n <= |parts|
  {
    if n == 0 then [] else Concat(parts, n - 1) + parts[n - 1]
  }

  lemma {:induction false} BaseConcat(a: seq<Account>, b: seq<Account>, n: nat)
    requires n <= |b|
    ensures BaseCounts(a + b, |a| + n) == Add(BaseCounts(a, |a|), BaseCounts(b, n))
  {
    hide Add, AccountCounts;
    if n > 0 {
      BaseConcat(a, b, n - 1);
      AddRegroup(BaseCounts(a, |a|), BaseCounts(b, n - 1), AccountCounts(b[n - 1]), ZERO);
    } else {
      BasePrefix(a, b, |a|);
      AddRegroup(BaseCounts(a, |a|), ZERO, ZERO, ZERO);
    }
  }

  lemma {:induction false} BasePrefix(a: seq<Account>, b: seq<Account>, n: nat)
    requires n <= |a|
    ensures BaseCounts(a + b, n) == BaseCounts(a, n)
  {
    if n > 0 {
      BasePrefix(a, b, n - 1);
    }
  }

  lemma {:induction false} HashesMember(accounts: seq<Account>, n: nat, h: Hash)
    requires n <= |accounts|
    ensures h in CodeHashes(accounts, n) <==> exists i :: 0 <= i < n && accounts[i].code == Some(h)
  {
    if n > 0 {
      HashesMember(accounts, n - 1, h);
    }
  }

  // What the counts are.

  lemma {:induction false} SlotsMean(slots: seq<Slot>, n: nat)
    requires n <= |slots|
    ensures SlotsCounted(slots, n) == Counts(0, n, 0, 0, n, Sum(slots[..n], (s: Slot) => s.size))
  {
    if n > 0 {
      SlotsMean(slots, n - 1);
      assert slots[..n][..n - 1] == slots[..n - 1];
    }
  }

  ghost function SlotNumber(): Account -> nat { (a: Account) => |a.slots| }
  ghost function CodeNumber(): Account -> nat { (a: Account) => if a.code.Some? then 1 else 0 }
  ghost function LeafBytes(): Account -> nat { (a: Account) => a.size + Sum(a.slots, (s: Slot) => s.size) }

  lemma {:induction false} BaseMeans(accounts: seq<Account>, n: nat)
    requires n <= |accounts|
    ensures var all := accounts[..n];
            BaseCounts(accounts, n) == Counts(n, Sum(all, SlotNumber()), Sum(all, CodeNumber()), 0,
                                              n + Sum(all, SlotNumber()), Sum(all, LeafBytes()))
  {
    hide SlotsCounted, Sum;
    if n > 0 {
      BaseMeans(accounts, n - 1);
      var before, a := accounts[..n - 1], accounts[n - 1];
      assert accounts[..n] == before + [a];
      SumAppend(before, a, SlotNumber());
      SumAppend(before, a, CodeNumber());
      SumAppend(before, a, LeafBytes());
      SlotsMean(a.slots, |a.slots|);
      assert a.slots[..|a.slots|] == a.slots;
    } else {
      NoAccounts(accounts[..n]);
    }
  }

  lemma NoAccounts(none: seq<Account>)
    requires none == []
    ensures Sum(none, SlotNumber()) == Sum(none, CodeNumber()) == Sum(none, LeafBytes()) == 0
  {
  }

  /** The serial totals: the accounts, their slots, the references to code, each distinct code
      once, a record for each account, slot and distinct code, and all their bytes. */
  lemma TraverseMeans(accounts: seq<Account>, size: Hash -> nat, codes: set<Hash>)
    requires forall h :: h in codes <==> exists i :: 0 <= i < |accounts| && accounts[i].code == Some(h)
    ensures var c := Traverse(accounts, size, |accounts|);
            && c.accounts == |accounts|
            && c.storageSlots == Sum(accounts, SlotNumber())
            && c.codeReferences == Sum(accounts, CodeNumber())
            && c.codeRecords == |codes|
            && c.records == c.accounts + c.storageSlots + c.codeRecords
            && c.payloadBytes == Sum(accounts, LeafBytes()) + SetSum(codes, size)
  {
    hide Traverse, BaseCounts, CodeHashes, Sum, SetSum;
    TraverseTotal(accounts, size, |accounts|);
    BaseMeans(accounts, |accounts|);
    assert accounts[..|accounts|] == accounts;
    forall h
      ensures h in CodeHashes(accounts, |accounts|) <==> h in codes
    {
      HashesMember(accounts, |accounts|, h);
    }
    assert CodeHashes(accounts, |accounts|) == codes;
  }

  /** A storage partition holds the slots whose key starts with its nibble. */
  lemma {:induction false} PartitionMembers(slots: seq<Slot>, q: nat, slot: Slot)
    ensures slot in PartitionSlots(slots, q) <==> slot in slots && slot.key[0] / 16 == q
  {
    if slots != [] {
      var n := |slots| - 1;
      PartitionMembers(slots[..n], q, slot);
      assert slots == slots[..n] + [slots[n]];
    }
  }
}
