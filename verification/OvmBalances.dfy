/** What a balance conversion is given and what it must compute: the token holders
    found in the OVM_ETH contract's storage, which of them convert, and the totals. */
module OvmBalances {
  import opened ByteStrings
  import opened KeyValue
  import opened AccountCodec
  import opened OvmCursor
  import opened Sums
  import Audit = OvmAudit

  const WORD: nat := Power256(32)

  /** The state (trie leaves of the contract's storage and of the accounts), the three
      namespaces of the evidence index, the contracts that keep their tokens (those on an
      optional retention list, and senders of nonzero transfers), and an optional audit.
      rootOf is the root hash of a trie's leaves. */
  datatype Setup = Setup(H: Hasher, ovm: Bytes, newCode: Bytes, rootOf: Database -> Hash,
                         storage: Database, accounts: Database,
                         balances: Database, allowances: Database, known: Database,
                         listed: Option<set<Bytes>>, senders: set<Bytes>, audit: Option<Audit.Summary>, height: nat)

  function Pad(b: Bytes): Bytes { seq(if |b| < 32 then 32 - |b| else 0, _ => 0) + b }

  /** ovmStorageHash(ovmBalanceSlot(address)). */
  function SlotOf(H: Hasher, address: Bytes): Hash { H(H(Pad(address) + seq(32, _ => 0))) }

  function Owner(e: Setup): Hash { e.H(e.ovm) }

  function SupplySlot(e: Setup): Hash { e.H(Fixed(2, 32)) }

  /** Every balance entry of the index was put there for its address, and the supply slot is known. */
  ghost predicate Indexed(e: Setup) {
    && (forall k :: k in e.balances ==> |e.balances[k]| == 20 && k == SlotOf(e.H, e.balances[k]))
    && SupplySlot(e) in e.known
  }

  /** Keccak has no collisions among the addresses in play. */
  ghost predicate CollisionFree(e: Setup) {
    && (forall j, k :: j in e.balances && k in e.balances && e.H(e.balances[j]) == e.H(e.balances[k]) ==>
          e.balances[j] == e.balances[k])
    && (forall k :: k in e.balances && e.H(e.balances[k]) == Owner(e) ==> e.balances[k] == e.ovm)
    && (SlotOf(e.H, e.ovm) in e.balances ==> e.balances[SlotOf(e.H, e.ovm)] == e.ovm)
  }

  ghost predicate WellFormed(e: Setup) { Indexed(e) && CollisionFree(e) }

  // Holders.

  function ClassAt(e: Setup, k: Bytes): Class { ClassOf(e.balances, e.allowances, e.known, k) }

  /** The storage slots that hold balances. */
  function Slots(e: Setup): (s: set<Bytes>)
    ensures forall k :: k in s ==> k in e.balances && k in e.storage
  {
    set k | k in e.storage && ClassAt(e, k).Balance?
  }

  function Value(e: Setup, k: Bytes): nat {
    if k in e.storage && DecodeValue(e.storage[k]).Some? then DecodeValue(e.storage[k]).value else 0
  }

  ghost function ValueOf(e: Setup): Bytes -> nat { k => Value(e, k) }

  /** ovmAccountReader.read. */
  function ReadAccount(e: Setup, h: Bytes): Option<Account> {
    ReadLeaf(e.H, e.accounts, h)
  }

  // Jobs.

  datatype Job = Job(address: Bytes, slot: Bytes, hash: Bytes, value: nat,
                     account: Option<Account>, contract: bool, retain: bool)

  function NewJob(e: Setup, address: Bytes, slot: Bytes, value: nat): Job {
    Job(address, slot, e.H(address), value, None, false, false)
  }

  /** The two lookups of inspect for a contract. */
  predicate Keeps(e: Setup, address: Bytes) {
    (e.listed.Some? && address in e.listed.value) || address in e.senders
  }

  /** ovmBalanceBatch.inspect; None is an error. */
  function Inspect(e: Setup, job: Job): Option<Job> {
    if job.address == e.ovm || job.value == 0 then Some(job)
    else
      var account := ReadAccount(e, job.hash);
      if account.None? || account.value.balance != 0 then None
      else
        var contract := account.value.codeHash != EmptyCode(e.H);
        Some(job.(account := account, contract := contract, retain := contract && Keeps(e, job.address)))
  }

  function JobAt(e: Setup, k: Bytes): Job
    requires k in e.balances
  {
    NewJob(e, e.balances[k], k, Value(e, k))
  }

  predicate Inspectable(e: Setup, k: Bytes)
    requires k in e.balances
  {
    Inspect(e, JobAt(e, k)).Some?
  }

  predicate IsContract(e: Setup, k: Bytes)
    requires k in e.balances
  {
    Inspectable(e, k) && Inspect(e, JobAt(e, k)).value.contract
  }

  /** The holders that convert: nonzero, not the contract itself, and not a retained contract. */
  predicate Converts(e: Setup, k: Bytes)
    requires k in e.balances
  {
    && e.balances[k] != e.ovm && Value(e, k) != 0
    && !(IsContract(e, k) && Keeps(e, e.balances[k]))
  }

  // Totals over a set of slots.

  ghost predicate Balances(e: Setup, s: set<Bytes>) { forall k :: k in s ==> k in e.balances }

  ghost function Converting(e: Setup, s: set<Bytes>): (r: set<Bytes>)
    requires Balances(e, s)
    ensures r <= s
  {
    set k | k in s && Converts(e, k)
  }

  ghost function Counted(e: Setup, s: set<Bytes>, converts: bool, contract: bool): set<Bytes>
    requires Balances(e, s)
  {
    set k | k in s && Value(e, k) != 0 && e.balances[k] != e.ovm && Converts(e, k) == converts
        && IsContract(e, k) == contract
  }

  function ConvertedAccount(e: Setup, k: Bytes): Bytes
    requires k in e.balances
  {
    var job := Inspect(e, JobAt(e, k));
    if job.Some? && job.value.account.Some? && Value(e, k) < WORD
    then EncodeFull(job.value.account.value.(balance := Value(e, k))) else []
  }

  ghost function AccountPatches(e: Setup, s: set<Bytes>): Database
    requires Balances(e, s) && WellFormed(e)
  {
    hide Converts, ConvertedAccount;
    map k | k in Converting(e, s) :: e.H(e.balances[k]) := ConvertedAccount(e, k)
  }

  ghost function StoragePatches(e: Setup, s: set<Bytes>): Database
    requires Balances(e, s)
  {
    map k | k in Converting(e, s) :: []
  }

  datatype Running = Running(total: nat, migrated: nat, remaining: nat, self: nat,
                             eoas: nat, contracts: nat, retained: nat, slots: nat,
                             storagePatches: Database, accountPatches: Database)

  /** The transformer's fields once the slots in s have been applied. */
  ghost function After(e: Setup, s: set<Bytes>): Running
    requires Balances(e, s) && WellFormed(e)
  {
    Running(SetSum(s, ValueOf(e)),
            SetSum(Converting(e, s), ValueOf(e)),
            SetSum(s - Converting(e, s), ValueOf(e)),
            if SlotOf(e.H, e.ovm) in s then Value(e, SlotOf(e.H, e.ovm)) else 0,
            |Counted(e, s, true, false)|, |Counted(e, s, true, true)|, |Counted(e, s, false, true)|,
            |NonZero(e, s)|, StoragePatches(e, s), AccountPatches(e, s))
  }

  ghost function NonZero(e: Setup, s: set<Bytes>): set<Bytes> { set k | k in s && Value(e, k) != 0 }

  // One more slot.

  lemma SumsAdd(e: Setup, s: set<Bytes>, k: Bytes)
    requires Balances(e, s) && k in e.balances && k !in s
    ensures SetSum(s + {k}, ValueOf(e)) == SetSum(s, ValueOf(e)) + Value(e, k)
    ensures SetSum(Converting(e, s + {k}), ValueOf(e))
            == SetSum(Converting(e, s), ValueOf(e)) + (if Converts(e, k) then Value(e, k) else 0)
    ensures SetSum(s + {k} - Converting(e, s + {k}), ValueOf(e))
            == SetSum(s - Converting(e, s), ValueOf(e)) + (if Converts(e, k) then 0 else Value(e, k))
  {
    hide Converts, Value, SetSum;
    SetSumAdd(s, k, ValueOf(e));
    ConvertingAdd(e, s, k);
    if Converts(e, k) {
      assert s + {k} - Converting(e, s + {k}) == s - Converting(e, s);
      SetSumAdd(Converting(e, s), k, ValueOf(e));
    } else {
      assert s + {k} - Converting(e, s + {k}) == s - Converting(e, s) + {k};
      SetSumAdd(s - Converting(e, s), k, ValueOf(e));
    }
  }

  lemma CountAdd(e: Setup, s: set<Bytes>, k: Bytes, converts: bool, contract: bool)
    requires Balances(e, s) && k in e.balances && k !in s
    ensures |Counted(e, s + {k}, converts, contract)| == |Counted(e, s, converts, contract)|
            + (if Value(e, k) != 0 && e.balances[k] != e.ovm && Converts(e, k) == converts
                && IsContract(e, k) == contract then 1 else 0)
  {
    hide Converts, IsContract, Value, Inspectable;
    if Value(e, k) != 0 && e.balances[k] != e.ovm && Converts(e, k) == converts && IsContract(e, k) == contract {
      assert Counted(e, s + {k}, converts, contract) == Counted(e, s, converts, contract) + {k};
    } else {
      assert Counted(e, s + {k}, converts, contract) == Counted(e, s, converts, contract);
    }
  }

  lemma NonZeroAdd(e: Setup, s: set<Bytes>, k: Bytes)
    requires k !in s
    ensures |NonZero(e, s + {k})| == |NonZero(e, s)| + (if Value(e, k) != 0 then 1 else 0)
  {
    hide Value;
    if Value(e, k) != 0 {
      assert NonZero(e, s + {k}) == NonZero(e, s) + {k};
    } else {
      assert NonZero(e, s + {k}) == NonZero(e, s);
    }
  }

  lemma ConvertingAdd(e: Setup, s: set<Bytes>, k: Bytes)
    requires Balances(e, s) && k in e.balances && k !in s
    ensures Converting(e, s + {k}) == if Converts(e, k) then Converting(e, s) + {k} else Converting(e, s)
  {
    hide Converts;
  }

  lemma PatchesAdd(e: Setup, s: set<Bytes>, k: Bytes)
    requires Balances(e, s) && WellFormed(e) && k in e.balances && k !in s
    ensures StoragePatches(e, s + {k}) == if Converts(e, k) then StoragePatches(e, s)[k := []] else StoragePatches(e, s)
    ensures AccountPatches(e, s + {k})
            == if Converts(e, k) then AccountPatches(e, s)[e.H(e.balances[k]) := ConvertedAccount(e, k)]
                else AccountPatches(e, s)
  {
    hide Converts, ConvertedAccount, Converting, SlotOf;
    ConvertingAdd(e, s, k);
    AccountPatchesAdd(e, s, k);
  }

  lemma PatchMember(e: Setup, s: set<Bytes>)
    requires Balances(e, s) && WellFormed(e)
    ensures forall h :: h in AccountPatches(e, s) ==> exists k :: k in Converting(e, s) && h == e.H(e.balances[k])
    ensures forall k :: k in Converting(e, s) ==>
              e.H(e.balances[k]) in AccountPatches(e, s)
                  && AccountPatches(e, s)[e.H(e.balances[k])] == ConvertedAccount(e, k)
  {
    hide Converts, ConvertedAccount, SlotOf;
    forall h | h in AccountPatches(e, s)
      ensures exists k :: k in Converting(e, s) && h == e.H(e.balances[k])
    {
      var k :| k in Converting(e, s) && h == e.H(e.balances[k]);
    }
  }

  lemma AccountPatchesAdd(e: Setup, s: set<Bytes>, k: Bytes)
    requires Balances(e, s) && WellFormed(e) && k in e.balances && k !in s
    ensures AccountPatches(e, s + {k})
            == if Converts(e, k) then AccountPatches(e, s)[e.H(e.balances[k]) := ConvertedAccount(e, k)]
                else AccountPatches(e, s)
  {
    hide Converts, ConvertedAccount, Converting, AccountPatches, WellFormed;
    ConvertingAdd(e, s, k);
    PatchMember(e, s);
    PatchMember(e, s + {k});
    var a, b := AccountPatches(e, s), AccountPatches(e, s + {k});
    if Converts(e, k) {
      var h := e.H(e.balances[k]);
      assert k in Converting(e, s + {k});
      forall x | x in a && x != h
        ensures x in b && a[x] == b[x]
      {
        var j :| j in Converting(e, s) && x == e.H(e.balances[j]);
        assert j in Converting(e, s + {k});
      }
      forall x | x in b && x != h
        ensures x in a
      {
        var j :| j in Converting(e, s + {k}) && x == e.H(e.balances[j]);
        assert j in Converting(e, s);
      }
      assert b == a[h := ConvertedAccount(e, k)];
    } else {
      SamePatches(e, s, s + {k});
    }
  }

  lemma SamePatches(e: Setup, s: set<Bytes>, t: set<Bytes>)
    requires Balances(e, s) && Balances(e, t) && WellFormed(e) && Converting(e, s) == Converting(e, t)
    ensures AccountPatches(e, s) == AccountPatches(e, t)
  {
    hide Converts, ConvertedAccount, Converting, AccountPatches, WellFormed;
    PatchMember(e, s);
    PatchMember(e, t);
    var a, b := AccountPatches(e, s), AccountPatches(e, t);
    forall x | x in a
      ensures x in b && a[x] == b[x]
    {
    }
    forall x | x in b
      ensures x in a
    {
    }
    assert a == b;
  }

  /** The parts of the running totals add up. */
  lemma PartsAdd(e: Setup, s: set<Bytes>)
    requires Balances(e, s)
    ensures SetSum(s, ValueOf(e)) == SetSum(Converting(e, s), ValueOf(e)) + SetSum(s - Converting(e, s), ValueOf(e))
  {
    hide Converts, Value;
    SetSumUnion(Converting(e, s), s - Converting(e, s), ValueOf(e));
    assert Converting(e, s) + (s - Converting(e, s)) == s;
  }

  /** Only the contract's own slot belongs to the contract. */
  lemma OwnSlot(e: Setup, k: Bytes)
    requires WellFormed(e) && k in e.balances
    ensures e.balances[k] == e.ovm <==> k == SlotOf(e.H, e.ovm)
  {
  }

  // What the transform accepts.

  /** validateOVMERC20RetainList: every listed address is another contract with code. */
  predicate RetainListOk(e: Setup) {
    e.listed.Some? ==> forall a :: a in e.listed.value ==>
      && |a| == 20 && a != e.ovm && ReadAccount(e, e.H(a)).Some?
      && ReadAccount(e, e.H(a)).value.codeHash != EmptyCode(e.H)
  }

  ghost predicate Readable(e: Setup) {
    forall k :: k in e.storage ==> |k| == 32 && DecodeValue(e.storage[k]).Some? && !ClassAt(e, k).Unowned?
  }

  ghost predicate AllInspectable(e: Setup, s: set<Bytes>)
    requires Balances(e, s)
  {
    forall k :: k in s ==> Inspectable(e, k)
  }

  ghost function Total(e: Setup): nat { SetSum(Slots(e), ValueOf(e)) }

  ghost predicate Balanced(e: Setup, code: Hash) {
    if e.audit.Some? then Audit.MatchAccounting(e.audit.value, e.height, code, |NonZero(e, Slots(e))|, Total(e),
        Value(e, SupplySlot(e)))
    else Total(e) == Value(e, SupplySlot(e))
  }

  /** Exactly the inputs the transform accepts. */
  ghost predicate Accepted(e: Setup) {
    && ReadAccount(e, Owner(e)).Some? && ReadAccount(e, Owner(e)).value.codeHash != EmptyCode(e.H)
    && RetainListOk(e) && Readable(e) && AllInspectable(e, Slots(e)) && Total(e) < WORD
    && Balanced(e, ReadAccount(e, Owner(e)).value.codeHash)
  }
}
