/** The balance transformer and its bounded batch of concurrent inspections:
    applyBalance, queueBalance, inspectOrderedBalances and ovmBalanceBatch. */
module OvmTransform {
  import opened ByteStrings
  import opened KeyValue
  import opened AccountCodec
  import opened OvmBalances
  import opened Sums

  function Modulo(n: nat, w: nat): (r: nat)
    requires w > 0
    ensures n < w ==> r == n
  {
    n % w
  }

  /** uint256 addition, which wraps. */
  function AddWord(a: nat, b: nat): (r: nat)
    ensures a + b < WORD ==> r == a + b
  {
    hide Power256, Modulo;
    Modulo(a + b, WORD)
  }

  /** The fields of ovmTransformer and OVMBalanceEvidence that balances change. Additions
      other than the total's wrap silently at 2^256, as uint256 does. */
  class Transformer {
    const e: Setup
    var total: nat
    var migrated: nat
    var remaining: nat
    var self: nat
    var eoas: nat
    var contracts: nat
    var retained: nat
    var slots: nat
    /** The 's' and 'p' namespaces of the index. */
    var storagePatches: Database
    var accountPatches: Database
    /** The slots applied so far. */
    ghost var done: set<Bytes>

    ghost function View(): Running
      reads this
    {
      Running(total, migrated, remaining, self, eoas, contracts, retained, slots, storagePatches, accountPatches)
    }

    /** The fields are what the applied slots make them, and nothing has wrapped. */
    ghost predicate Valid()
      reads this
    {
      && WellFormed(e) && Balances(e, done) && AllInspectable(e, done)
      && View() == After(e, done) && total < WORD
    }

    constructor (e: Setup)
      requires WellFormed(e)
      ensures Valid() && this.e == e && done == {}
    {
      this.e := e;
      total, migrated, remaining, self, eoas, contracts, retained, slots := 0, 0, 0, 0, 0, 0, 0, 0;
      storagePatches, accountPatches, done := map[], map[], {};
      new;
      AfterNothing(e);
    }

    /** applyBalance after its overflow test. */
    method Credit(job: Job)
      requires job.address != e.ovm && job.value != 0 ==> job.account.Some?
      requires total + job.value < WORD && remaining <= total && migrated <= total
      modifies this`total, this`migrated, this`remaining, this`self, this`eoas, this`contracts, this`retained,
               this`slots,
               this`storagePatches, this`accountPatches
      ensures View() == Step(old(View()), e.ovm, job)
    {
      hide EncodeFull, Power256, AddWord;
      total := AddWord(total, job.value);
      if job.value == 0 {
        return;
      }
      slots := slots + 1;
      if job.address == e.ovm {
        self := job.value;
        remaining := AddWord(remaining, job.value);
        return;
      }
      if job.contract && job.retain {
        retained := retained + 1;
        remaining := AddWord(remaining, job.value);
        return;
      }
      if job.contract {
        contracts := contracts + 1;
      } else {
        eoas := eoas + 1;
      }
      migrated := AddWord(migrated, job.value);
      accountPatches := accountPatches[job.hash := EncodeFull(job.account.value.(balance := job.value))];
      storagePatches := storagePatches[job.slot := []];
    }

    /** applyBalance: the fields move to the totals with this slot included, unless the
        sum of balances would overflow. */
    method ApplyBalance(job: Job) returns (ok: bool)
      requires Valid() && NextJob(e, done, job)
      modifies this
      ensures ok <==> old(total) + job.value < WORD
      ensures ok ==> Valid() && done == old(done) + {job.slot}
    {
      hide After, Inspect, WellFormed, AllInspectable, Inspectable, Balances, Power256, Converting, JobAt, Step;
      Applied(e, done, job);
      PartsAdd(e, done);
      AfterSums(e, done);
      ok := total + job.value < WORD;
      if ok {
        InspectableGrows(e, done, job.slot);
        Credit(job);
        done := done + {job.slot};
      } else {
        total := AddWord(total, job.value);
      }
    }
  }

  lemma AfterNothing(e: Setup)
    requires WellFormed(e)
    ensures After(e, {}) == Running(0, 0, 0, 0, 0, 0, 0, 0, map[], map[])
  {
    hide Converts, Value, SlotOf, WellFormed, ConvertedAccount, IsContract;
    assert Converting(e, {}) == {} && NonZero(e, {}) == {};
    assert Counted(e, {}, true, false) == {} && Counted(e, {}, true, true) == {} && Counted(e, {}, false, true) == {};
    assert {} - Converting(e, {}) == {};
    assert StoragePatches(e, {}) == map[];
    assert AccountPatches(e, {}) == map[];
  }

  lemma AfterSums(e: Setup, s: set<Bytes>)
    requires Balances(e, s) && WellFormed(e)
    ensures After(e, s).total == SetSum(s, ValueOf(e))
    ensures After(e, s).migrated == SetSum(Converting(e, s), ValueOf(e))
    ensures After(e, s).remaining == SetSum(s - Converting(e, s), ValueOf(e))
  {
  }

  lemma InspectableGrows(e: Setup, s: set<Bytes>, k: Bytes)
    requires Balances(e, s) && k in e.balances && AllInspectable(e, s) && Inspectable(e, k)
    ensures Balances(e, s + {k}) && AllInspectable(e, s + {k})
  {
  }

  /** An inspected job for a slot not yet applied. */
  ghost predicate NextJob(e: Setup, s: set<Bytes>, job: Job) {
    && WellFormed(e) && Balances(e, s) && job.slot in e.balances && job.slot !in s
    && Inspect(e, JobAt(e, job.slot)) == Some(job)
  }

  /** The replacement account of a converted holder. */
  function Credited(job: Job): Bytes {
    if job.account.Some? && job.value < WORD then EncodeFull(job.account.value.(balance := job.value)) else []
  }

  /** What an inspected job says about its slot. */
  lemma JobIs(e: Setup, job: Job)
    requires WellFormed(e) && job.slot in e.balances && Inspect(e, JobAt(e, job.slot)) == Some(job)
    ensures job.value == Value(e, job.slot) && job.address == e.balances[job.slot] && job.hash == e.H(job.address)
    ensures Inspectable(e, job.slot) && IsContract(e, job.slot) == job.contract
    ensures ConvertedAccount(e, job.slot) == Credited(job)
    ensures job.address != e.ovm && job.value != 0 ==>
            job.account.Some? && job.retain == (job.contract && Keeps(e, job.address))
    ensures Converts(e, job.slot) <==> job.address != e.ovm && job.value != 0 && !(job.contract && job.retain)
  {
    hide SlotOf, EncodeFull, DecodeFull, Value, Power256;
  }

  /** applyBalance on the running totals, without wrap-around. */
  function Step(r: Running, ovm: Bytes, job: Job): Running {
    var t := r.(total := r.total + job.value);
    if job.value == 0 then t
    else if job.address == ovm then t.(slots := r.slots + 1, self := job.value, remaining := r.remaining + job.value)
    else if job.contract && job.retain then
      t.(slots := r.slots + 1, retained := r.retained + 1, remaining := r.remaining + job.value)
    else
      t.(slots := r.slots + 1, migrated := r.migrated + job.value,
         contracts := r.contracts + (if job.contract then 1 else 0), eoas := r.eoas + (if job.contract then 0 else 1),
         accountPatches := r.accountPatches[job.hash := Credited(job)],
         storagePatches := r.storagePatches[job.slot := []])
  }

  lemma Applied(e: Setup, s: set<Bytes>, job: Job)
    requires NextJob(e, s, job)
    ensures Inspectable(e, job.slot) && Balances(e, s + {job.slot})
    ensures job.address != e.ovm && job.value != 0 ==> job.account.Some?
    ensures After(e, s + {job.slot}) == Step(After(e, s), e.ovm, job)
    ensures After(e, s + {job.slot}).total == After(e, s).total + job.value
  {
    hide After, Converts, Inspect, ConvertedAccount, WellFormed, IsContract, Inspectable, SlotOf, Credited;
    JobIs(e, job);
    AppliedSums(e, s, job);
    AppliedCounts(e, s, job);
    AppliedPatches(e, s, job);
  }

  lemma AppliedSums(e: Setup, s: set<Bytes>, job: Job)
    requires NextJob(e, s, job) && Balances(e, s + {job.slot})
    ensures var b, c := After(e, s + {job.slot}), Step(After(e, s), e.ovm, job);
            b.total == c.total && b.migrated == c.migrated && b.remaining == c.remaining && b.self == c.self
  {
    hide Converts, Inspect, ConvertedAccount, IsContract, Inspectable, SlotOf, StoragePatches, AccountPatches, Counted,
         NonZero, Converting, SetSum, Credited, WellFormed, Value, JobAt;
    JobIs(e, job);
    SumsAdd(e, s, job.slot);
    OwnSlot(e, job.slot);
  }

  lemma AppliedCounts(e: Setup, s: set<Bytes>, job: Job)
    requires NextJob(e, s, job) && Balances(e, s + {job.slot})
    ensures var b, c := After(e, s + {job.slot}), Step(After(e, s), e.ovm, job);
            b.eoas == c.eoas && b.contracts == c.contracts && b.retained == c.retained && b.slots == c.slots
  {
    hide Converts, Inspect, ConvertedAccount, IsContract, Inspectable, SlotOf, StoragePatches, AccountPatches, Counted,
         NonZero, Converting, SetSum, Credited, WellFormed, Value, JobAt;
    JobIs(e, job);
    NonZeroAdd(e, s, job.slot);
    CountAdd(e, s, job.slot, true, false);
    CountAdd(e, s, job.slot, true, true);
    CountAdd(e, s, job.slot, false, true);
  }

  lemma AppliedPatches(e: Setup, s: set<Bytes>, job: Job)
    requires NextJob(e, s, job) && Balances(e, s + {job.slot})
    ensures var b, c := After(e, s + {job.slot}), Step(After(e, s), e.ovm, job);
            b.storagePatches == c.storagePatches && b.accountPatches == c.accountPatches
  {
    hide Converts, Inspect, ConvertedAccount, IsContract, Inspectable, SlotOf, StoragePatches, AccountPatches, Counted,
         NonZero, Converting, SetSum, Credited, WellFormed, Value, JobAt;
    JobIs(e, job);
    PatchesAdd(e, s, job.slot);
  }
}
