/** Value is conserved by every accepted balance conversion, and its evidence passes
    the checks made of it later. */
module OvmConservation {
  import opened ByteStrings
  import opened KeyValue
  import opened AccountCodec
  import opened OvmBalances
  import opened OvmTransform
  import opened OvmConversion
  import opened PatchedTrie
  import opened Sums
  import Audit = OvmAudit

  function BalanceAt(accounts: Database, h: Bytes): nat {
    if h in accounts && DecodeFull(accounts[h]).Some? then DecodeFull(accounts[h]).value.balance else 0
  }

  ghost function BalanceOf(accounts: Database): Bytes -> nat { h => BalanceAt(accounts, h) }

  /** requireZeroOVMNative over every account. */
  ghost predicate ZeroNative(accounts: Database) {
    forall h :: h in accounts ==> BalanceAt(accounts, h) == 0
  }

  function Native(e: Setup, a: Bytes): nat { BalanceAt(e.accounts, e.H(a)) }

  function Token(e: Setup, a: Bytes): nat { Value(e, SlotOf(e.H, a)) }

  /** The state after the conversion. */
  ghost function Outcome(e: Setup): Setup
    requires WellFormed(e) && Accepted(e)
  {
    e.(storage := Converted(e).storage, accounts := Converted(e).accounts)
  }

  lemma OutcomeSame(e: Setup)
    requires WellFormed(e) && Accepted(e)
    ensures var f := Outcome(e);
            f.H == e.H && f.ovm == e.ovm && f.balances == e.balances && f.allowances == e.allowances
                && f.known == e.known
  {
    hide WellFormed, Accepted, Converted;
  }

  /** An address whose hashes collide with no other address or slot of the run. */
  ghost predicate InPlay(e: Setup, a: Bytes) {
    && (e.H(a) == Owner(e) ==> a == e.ovm)
    && (forall k :: k in e.balances && e.H(e.balances[k]) == e.H(a) ==> e.balances[k] == a)
    && (SlotOf(e.H, a) in e.balances ==> e.balances[SlotOf(e.H, a)] == a)
    && SlotOf(e.H, a) !in e.allowances && SlotOf(e.H, a) !in e.known
  }

  // Storage.

  /** A holder's slot that converts. */
  ghost predicate ConvertsSlot(e: Setup, k: Bytes): (b: bool)
    ensures b ==> k in e.balances && k in e.storage
  {
    k in Slots(e) && Converts(e, k)
  }

  /** The supply slot is no holder's slot. */
  lemma SupplyApart(e: Setup)
    requires WellFormed(e) && Accepted(e)
    ensures SupplySlot(e) !in Slots(e)
  {
  }

  lemma PatchOf(e: Setup, k: Bytes)
    requires WellFormed(e)
    ensures var p := After(e, Slots(e)).storagePatches;
            && (k in p <==> ConvertsSlot(e, k)) && (k in p ==> p[k] == [])
  {
    hide WellFormed, Slots, Converts, Counted, NonZero, AccountPatches, SlotOf;
  }

  /** Every slot but the supply keeps its value, except that converted holders' become zero. */
  lemma NewValue(e: Setup, k: Bytes)
    requires WellFormed(e) && Accepted(e) && k != SupplySlot(e)
    ensures Value(Outcome(e), k) == if ConvertsSlot(e, k) then 0 else Value(e, k)
    ensures !ConvertsSlot(e, k) && k in e.storage && e.storage[k] != [] ==>
              k in Outcome(e).storage && Outcome(e).storage[k] == e.storage[k]
    ensures k in Outcome(e).storage ==> k in e.storage
  {
    hide WellFormed, Accepted, After, Patched, ConvertsSlot, Slots, SlotOf, SupplySlot, ValidStorage, FromBigEndian;
    var p := After(e, Slots(e));
    PatchOf(e, k);
    PatchedAt(e.storage, p.storagePatches[SupplySlot(e) := SupplyLeaf(p.remaining)], k);
  }

  lemma NewSupply(e: Setup)
    requires WellFormed(e) && Accepted(e)
    ensures Value(Outcome(e), SupplySlot(e)) == After(e, Slots(e)).remaining
  {
    hide WellFormed, After, Patched, Slots, SlotOf, SupplySlot, ValidStorage, FromBigEndian, Power256, EncodeValue,
         Readable, AllInspectable, Balanced, ReadAccount;
    var p := After(e, Slots(e));
    RemainingFits(e);
    PatchedAt(e.storage, p.storagePatches[SupplySlot(e) := SupplyLeaf(p.remaining)], SupplySlot(e));
    if p.remaining > 0 {
      StorageRoundTrip(p.remaining);
    }
  }

  // Accounts.

  lemma FullDecodes(a: Account)
    ensures EncodeFull(a) != [] && DecodeFull(EncodeFull(a)) == Some(a)
  {
    hide ReadFull;
    FullRoundTrip(a);
  }

  /** A converted holder's patch sets its native balance to its token balance and changes nothing else. */
  lemma AccountPatch(e: Setup, k: Bytes)
    requires WellFormed(e) && Accepted(e) && ConvertsSlot(e, k)
    ensures var p := AccountPatches(e, Slots(e));
            var h := e.H(e.balances[k]);
            && h in p && p[h] != [] && ReadAccount(e, h).Some? && Value(e, k) < WORD
            && DecodeFull(p[h]) == Some(ReadAccount(e, h).value.(balance := Value(e, k)))
            && h != Owner(e)
  {
    hide EncodeFull, DecodeFull, Slots, Power256, Value, SlotOf, ReadAccount, Readable, Balanced;
    ValueBound(e, k);
    assert Inspectable(e, k);
    var job := Inspect(e, JobAt(e, k)).value;
    assert job.account.Some?;
    FullDecodes(job.account.value.(balance := Value(e, k)));
    assert k in Converting(e, Slots(e));
  }

  lemma PatchSource(e: Setup, h: Bytes)
    requires WellFormed(e) && h in AccountPatches(e, Slots(e))
    ensures exists k :: ConvertsSlot(e, k) && h == e.H(e.balances[k])
  {
    hide Slots, Converts, ConvertedAccount, SlotOf;
    var k :| k in Converting(e, Slots(e)) && h == e.H(e.balances[k]);
    assert ConvertsSlot(e, k);
  }

  ghost function Patches(e: Setup): Database
    requires WellFormed(e) && Accepted(e)
  {
    AccountPatches(e, Slots(e))[Owner(e) := EncodeFull(ConvertedOwner(e))]
  }

  lemma OutcomeAccounts(e: Setup)
    requires WellFormed(e) && Accepted(e)
    ensures Outcome(e).accounts == Patched(e.accounts, Patches(e))
  {
    hide WellFormed, Accepted, Patched, AccountPatches, StoragePatches, ConvertedOwner, ConvertedStorage;
  }

  /** Every patched account's new balance; no other account changes. */
  lemma NewBalance(e: Setup, h: Bytes)
    requires WellFormed(e) && Accepted(e)
    ensures h == Owner(e) ==>
              h in Outcome(e).accounts && BalanceAt(Outcome(e).accounts, h) == After(e, Slots(e)).remaining
    ensures forall k :: ConvertsSlot(e, k) && h == e.H(e.balances[k]) ==>
              h in Outcome(e).accounts && BalanceAt(Outcome(e).accounts, h) == Value(e, k)
    ensures h != Owner(e) && (forall k :: ConvertsSlot(e, k) ==> h != e.H(e.balances[k])) ==>
              && BalanceAt(Outcome(e).accounts, h) == BalanceAt(e.accounts, h)
              && (h in Outcome(e).accounts <==> h in e.accounts && e.accounts[h] != [])
              && (h in Outcome(e).accounts ==> Outcome(e).accounts[h] == e.accounts[h])
  {
    hide WellFormed, Accepted, After, Patched, Slots, Value, EncodeFull, DecodeFull, Outcome, AccountPatches,
         ConvertsSlot;
    OutcomeAccounts(e);
    PatchedAt(e.accounts, Patches(e), h);
    if h == Owner(e) {
      OwnerBalance(e);
    }
    forall k | ConvertsSlot(e, k) && h == e.H(e.balances[k])
      ensures h in Outcome(e).accounts && BalanceAt(Outcome(e).accounts, h) == Value(e, k)
    {
      AccountPatch(e, k);
    }
    if h != Owner(e) && h in AccountPatches(e, Slots(e)) {
      PatchSource(e, h);
    }
    EmptyDecodes();
  }

  lemma EmptyDecodes()
    ensures DecodeFull([]).None?
  {
  }

  lemma OwnerBalance(e: Setup)
    requires WellFormed(e) && Accepted(e)
    ensures var b := EncodeFull(ConvertedOwner(e));
            b != [] && DecodeFull(b).Some? && DecodeFull(b).value.balance == After(e, Slots(e)).remaining
  {
    hide WellFormed, Accepted, After, Slots, EncodeFull, DecodeFull, ConvertedStorage;
    FullDecodes(ConvertedOwner(e));
  }

  // The theorems.

  /** A holder other than the contract ends with native plus token equal to its token
      balance before; a converted holder has it all as native, any other all as token. */
  lemma HolderConserved(e: Setup, a: Bytes)
    requires WellFormed(e) && Accepted(e) && ZeroNative(e.accounts) && a != e.ovm && InPlay(e, a)
    ensures Native(Outcome(e), a) + Token(Outcome(e), a) == Token(e, a)
    ensures Native(Outcome(e), a) == if ConvertsSlot(e, SlotOf(e.H, a)) then Token(e, a) else 0
  {
    hide Accepted, Outcome, Value, Converts, Slots, After, BalanceAt, WellFormed, SlotOf, SupplySlot, ConvertsSlot;
    OutcomeSame(e);
    AddressOfSlot(e, a);
    NewValue(e, SlotOf(e.H, a));
    NewBalance(e, e.H(a));
    AbsentBalance(e.accounts, e.H(a));
  }

  /** The only slot that can convert into an address's account is the address's own. */
  lemma AddressOfSlot(e: Setup, a: Bytes)
    requires WellFormed(e) && a != e.ovm && InPlay(e, a)
    ensures SlotOf(e.H, a) != SupplySlot(e) && e.H(a) != Owner(e)
    ensures ConvertsSlot(e, SlotOf(e.H, a)) ==> e.balances[SlotOf(e.H, a)] == a
    ensures forall k :: ConvertsSlot(e, k) && e.H(a) == e.H(e.balances[k]) ==> k == SlotOf(e.H, a)
  {
    hide Slots, Converts, SlotOf;
  }

  lemma AbsentBalance(accounts: Database, h: Bytes)
    requires ZeroNative(accounts)
    ensures BalanceAt(accounts, h) == 0
  {
  }

  /** The contract's native balance backs the tokens that remain: it equals the new
      total supply, which equals the sum of the balances left in storage. */
  lemma RemainderBacked(e: Setup)
    requires WellFormed(e) && Accepted(e)
    ensures Native(Outcome(e), e.ovm) == Value(Outcome(e), SupplySlot(e)) == Total(Outcome(e))
  {
    hide Accepted, Outcome, After, BalanceAt, Value, SlotOf, Converts, SetSum, WellFormed, Total;
    OutcomeSame(e);
    NewBalance(e, Owner(e));
    NewSupply(e);
    AfterSums(e, Slots(e));
    RemainingTotal(e);
  }

  lemma RemainingTotal(e: Setup)
    requires WellFormed(e) && Accepted(e)
    ensures Total(Outcome(e)) == SetSum(Slots(e) - Converting(e, Slots(e)), ValueOf(e))
  {
    hide Accepted, After, Value, SlotOf, Converts, SetSum, Converted;
    var f := Outcome(e);
    var left := Slots(e) - Converting(e, Slots(e));
    SupplyApart(e);
    NewSlots(e);
    forall k | k in Slots(f)
      ensures k in left && Value(f, k) == Value(e, k)
    {
      NewValue(e, k);
    }
    forall k | k in left - Slots(f)
      ensures Value(e, k) == 0
    {
      NewValue(e, k);
      GoneIsZero(f, k);
    }
    SetSumAgree(Slots(f), ValueOf(f), ValueOf(e));
    SetSumNone(left - Slots(f), ValueOf(e));
    SetSumUnion(Slots(f), left - Slots(f), ValueOf(e));
    assert Slots(f) + (left - Slots(f)) == left;
  }

  /** The balance slots left are holders' slots that did not convert. */
  lemma NewSlots(e: Setup)
    requires WellFormed(e) && Accepted(e)
    ensures Slots(Outcome(e)) <= Slots(e) - Converting(e, Slots(e))
  {
    hide WellFormed, Accepted, After, Value, SlotOf, Converts, Patched, StoragePatches, AccountPatches;
    forall k | k in Slots(Outcome(e))
      ensures k in Slots(e) && !Converts(e, k)
    {
      StillStored(e, k);
    }
  }

  lemma StillStored(e: Setup, k: Bytes)
    requires WellFormed(e) && Accepted(e) && k in Outcome(e).storage && ClassAt(e, k).Balance?
    ensures k in Slots(e) && !Converts(e, k)
  {
    hide Accepted, After, Value, SlotOf, Converts, Patched;
    if k != SupplySlot(e) {
      NewValue(e, k);
      var p := After(e, Slots(e));
      PatchOf(e, k);
      PatchedAt(e.storage, p.storagePatches[SupplySlot(e) := SupplyLeaf(p.remaining)], k);
    }
  }

  lemma GoneIsZero(f: Setup, k: Bytes)
    requires k in f.balances && k !in Slots(f) && (k in f.storage ==> ClassAt(f, k).Balance?)
    ensures Value(f, k) == 0
  {
    hide ClassAt, DecodeValue;
  }

  /** All native balances together are the token balances before. */
  lemma NativeTotal(e: Setup)
    requires WellFormed(e) && Accepted(e) && ZeroNative(e.accounts)
    ensures SetSum(Outcome(e).accounts.Keys, BalanceOf(Outcome(e).accounts)) == Total(e)
  {
    hide WellFormed, Accepted, After, Slots, Converting, SetSum, Outcome, BalanceOf;
    var accounts := Outcome(e).accounts;
    var f := BalanceOf(accounts);
    var image := Hashes(e);
    PatchedSum(e);
    OthersZero(e);
    var rest := accounts.Keys - (image + {Owner(e)});
    SetSumNone(rest, f);
    SetSumUnion(image + {Owner(e)}, rest, f);
    assert image + {Owner(e)} + rest == accounts.Keys;
    RemainingFits(e);
  }

  /** The accounts of the converted holders. */
  ghost function Hashes(e: Setup): set<Bytes> { set k | k in Converting(e, Slots(e)) :: HashOf(e)(k) }

  lemma PatchedSum(e: Setup)
    requires WellFormed(e) && Accepted(e)
    ensures Hashes(e) + {Owner(e)} <= Outcome(e).accounts.Keys
    ensures SetSum(Hashes(e) + {Owner(e)}, BalanceOf(Outcome(e).accounts))
            == After(e, Slots(e)).migrated + After(e, Slots(e)).remaining
  {
    hide WellFormed, Accepted, After, Slots, Value, Converts, SetSum, Outcome, BalanceAt;
    var f := BalanceOf(Outcome(e).accounts);
    var converting := Converting(e, Slots(e));
    forall k | k in converting
      ensures HashOf(e)(k) in Outcome(e).accounts && f(HashOf(e)(k)) == Value(e, k) && HashOf(e)(k) != Owner(e)
    {
      assert ConvertsSlot(e, k);
      NewBalance(e, HashOf(e)(k));
      AccountPatch(e, k);
    }
    HashesDiffer(e);
    SetSumImage(converting, Hashes(e), HashOf(e), f, ValueOf(e));
    NewBalance(e, Owner(e));
    SetSumAdd<Bytes>(Hashes(e), Owner(e), f);
    AfterSums(e, Slots(e));
  }

  lemma OthersZero(e: Setup)
    requires WellFormed(e) && Accepted(e) && ZeroNative(e.accounts)
    ensures forall h :: h in Outcome(e).accounts.Keys - (Hashes(e) + {Owner(e)}) ==>
            BalanceOf(Outcome(e).accounts)(h) == 0
  {
    hide WellFormed, Accepted, After, Slots, Value, Converts, SetSum, Outcome, BalanceAt;
    forall h | h in Outcome(e).accounts.Keys - (Hashes(e) + {Owner(e)})
      ensures BalanceOf(Outcome(e).accounts)(h) == 0
    {
      forall k | ConvertsSlot(e, k)
        ensures h != e.H(e.balances[k])
      {
        assert k in Converting(e, Slots(e));
        assert HashOf(e)(k) in Hashes(e);
      }
      NewBalance(e, h);
      AbsentBalance(e.accounts, h);
    }
  }

  ghost function HashOf(e: Setup): Bytes -> Bytes { k => if k in e.balances then e.H(e.balances[k]) else [] }

  lemma HashesDiffer(e: Setup)
    requires WellFormed(e)
    ensures forall j, k :: j in Slots(e) && k in Slots(e) && HashOf(e)(j) == HashOf(e)(k) ==> j == k
  {
    hide SlotOf;
  }

  // The evidence.

  /** The contract's own balance never converts. */
  lemma SelfRemains(e: Setup)
    requires WellFormed(e)
    ensures After(e, Slots(e)).self <= After(e, Slots(e)).remaining
  {
    hide Value, SlotOf, StoragePatches, AccountPatches, Counted, NonZero, SetSum;
    var k := SlotOf(e.H, e.ovm);
    if k in Slots(e) {
      OwnSlot(e, k);
      var left := Slots(e) - Converting(e, Slots(e));
      assert k in left;
      SetSumRemove(left, k, ValueOf(e));
    }
  }

  /** Every accepted conversion's evidence reconciles, so it passes every later check:
      see OvmAudit.EvidencePasses. */
  lemma EvidenceReconciles(e: Setup, head: Audit.Head, digest: Hash)
    requires WellFormed(e) && Accepted(e) && e.height == head.number
    requires e.audit.Some? ==> Audit.Validate(e.audit.value)
    ensures var b := Converted(e).evidence;
            && (e.audit.None? ==> Audit.ValidateBalances(b, None))
            && (e.audit.Some? && Audit.MatchHead(e.audit.value, head) ==>
                  var c := Audit.ConversionEvidence(e.audit.value, digest, head, b);
                  && c.Some? && (Audit.ValidateBalances(b, c) <==> digest != NoHash())
                  && Audit.ValidateAuditHead(c.value, head) && c.value.difference >= 0)
  {
    hide After, Slots, Value, Total, Audit.MatchAccounting, Audit.Validate, Audit.ValidateBalances,
         Audit.ConversionEvidence, Audit.MatchHead, ReadAccount, Readable, AllInspectable, WellFormed, Patched,
         ConvertedOwner, NonZero, Power256;
    RemainingFits(e);
    SelfRemains(e);
    var b := Converted(e).evidence;
    var code := ReadAccount(e, Owner(e)).value.codeHash;
    Audit.EvidencePasses(b, e.audit, head, code, |NonZero(e, Slots(e))|, digest);
  }
}
