/** What an accepted conversion does to each holder and to the contract, and which inputs
    are accepted, in terms of the state, the retention list and the senders alone. */
module OvmLaws {
  import opened ByteStrings
  import opened KeyValue
  import opened AccountCodec
  import opened OvmCursor
  import opened OvmBalances
  import opened OvmTransform
  import opened OvmConversion
  import opened OvmConservation
  import opened PatchedTrie
  import opened Sums
  import Audit = OvmAudit

  // Holders.

  /** A nonzero slot of an address in play is a balance slot of the storage trie. */
  lemma HolderSlot(e: Setup, a: Bytes)
    requires WellFormed(e) && Accepted(e) && InPlay(e, a) && Token(e, a) > 0
    ensures var k := SlotOf(e.H, a);
            k in Slots(e) && e.balances[k] == a && Value(e, k) == Token(e, a)
  {
    hide SlotOf, Inspect, Total, Balanced, RetainListOk, ReadAccount;
  }

  /** What inspecting a holder finds. */
  lemma HolderRead(e: Setup, a: Bytes)
    requires WellFormed(e) && Accepted(e) && InPlay(e, a) && a != e.ovm && Token(e, a) > 0
    ensures ReadLeaf(e.H, e.accounts, e.H(a)).Some? && ReadLeaf(e.H, e.accounts, e.H(a)).value.balance == 0
    ensures ConvertsSlot(e, SlotOf(e.H, a)) <==>
              !(ReadLeaf(e.H, e.accounts, e.H(a)).value.codeHash != e.H([])
                && (a in e.senders || (e.listed.Some? && a in e.listed.value)))
  {
    hide SlotOf, Slots, Value, Total, Balanced, RetainListOk, ReadLeaf, WellFormed, InPlay, Readable, Token, Power256;
    HolderSlot(e, a);
    assert Inspectable(e, SlotOf(e.H, a));
  }

  /** The decision. A contract that sent tokens or is on the retention list keeps its tokens
      and its native balance; every other holder has all its tokens made native. */
  lemma HolderDecided(e: Setup, a: Bytes)
    requires WellFormed(e) && Accepted(e) && ZeroNative(e.accounts) && InPlay(e, a) && a != e.ovm && Token(e, a) > 0
    ensures ReadLeaf(e.H, e.accounts, e.H(a)).Some?
    ensures if ReadLeaf(e.H, e.accounts, e.H(a)).value.codeHash != e.H([])
               && (a in e.senders || (e.listed.Some? && a in e.listed.value))
            then Token(Outcome(e), a) == Token(e, a) && Native(Outcome(e), a) == Native(e, a)
            else Token(Outcome(e), a) == 0 && Native(Outcome(e), a) == Token(e, a)
  {
    hide WellFormed, Accepted, InPlay, Outcome, ConvertsSlot, ReadLeaf, Value, SlotOf, BalanceAt, ZeroNative;
    HolderRead(e, a);
    HolderConserved(e, a);
    AbsentBalance(e.accounts, e.H(a));
  }

  /** A converted holder's account keeps its nonce, storage root and code. */
  lemma HolderAccount(e: Setup, a: Bytes)
    requires WellFormed(e) && Accepted(e) && InPlay(e, a) && a != e.ovm && Token(e, a) > 0
    ensures var before, after := ReadLeaf(e.H, e.accounts, e.H(a)), ReadLeaf(e.H, Outcome(e).accounts, e.H(a));
            before.Some? && after.Some? && after.value.nonce == before.value.nonce
            && after.value.root == before.value.root && after.value.codeHash == before.value.codeHash
  {
    hide WellFormed, Accepted, InPlay, Outcome, ConvertsSlot, Value, SlotOf, Power256, DecodeFull, Patched,
         AccountPatches, EncodeFull, Slots;
    HolderRead(e, a);
    AddressOfSlot(e, a);
    NewBalance(e, e.H(a));
    if ConvertsSlot(e, SlotOf(e.H, a)) {
      AccountPatch(e, SlotOf(e.H, a));
      OutcomeAccounts(e);
      PatchedAt(e.accounts, Patches(e), e.H(a));
    }
  }

  // The contract.

  /** The contract's account afterwards: the same nonce, the root of the new storage, the
      replacement code, and as native balance the tokens left in that storage. */
  lemma OwnerAfter(e: Setup)
    requires WellFormed(e) && Accepted(e)
    ensures var before, after := ReadLeaf(e.H, e.accounts, e.H(e.ovm)), ReadLeaf(e.H, Outcome(e).accounts, e.H(e.ovm));
            before.Some? && after.Some? && after.value.nonce == before.value.nonce
            && after.value.root == e.rootOf(Outcome(e).storage) && after.value.codeHash == e.H(e.newCode)
            && after.value.balance == Total(Outcome(e))
  {
    hide WellFormed, Slots, After, Power256, DecodeFull, Patched, AccountPatches, EncodeFull, Balanced, RetainListOk,
         Readable, AllInspectable, Total, Value, SlotOf, SupplySlot, BalanceAt;
    OutcomeAccounts(e);
    PatchedAt(e.accounts, Patches(e), Owner(e));
    FullDecodes(ConvertedOwner(e));
    RemainderBacked(e);
    NewBalance(e, Owner(e));
    OwnerBalance(e);
    OwnerTotal(e);
  }

  lemma OwnerTotal(e: Setup)
    requires WellFormed(e) && Accepted(e)
    ensures After(e, Slots(e)).remaining == Total(Outcome(e))
  {
    hide WellFormed, Accepted, Slots, After, Outcome, Total, Value, SlotOf, SupplySlot, BalanceAt;
    RemainderBacked(e);
    OutcomeSame(e);
    NewBalance(e, Owner(e));
  }

  // Acceptance.

  /** A leaf of the contract's storage that is a nonzero balance of another address. */
  predicate Holder(e: Setup, k: Bytes) {
    && k in e.storage && k in e.balances && k !in e.allowances && k !in e.known
    && e.balances[k] != e.ovm && Value(e, k) > 0
  }

  lemma HoldersInspectable(e: Setup)
    ensures AllInspectable(e, Slots(e)) <==>
              forall k :: Holder(e, k) ==>
                var account := ReadLeaf(e.H, e.accounts, e.H(e.balances[k]));
                account.Some? && account.value.balance == 0
  {
    hide Value, ReadLeaf, Power256;
    forall k | k in Slots(e)
      ensures Inspectable(e, k) <==>
                (Holder(e, k) ==>
                  var account := ReadLeaf(e.H, e.accounts, e.H(e.balances[k]));
                  account.Some? && account.value.balance == 0)
    {
    }
    forall k | Holder(e, k)
      ensures k in Slots(e)
    {
    }
  }

  lemma ListedMeans(e: Setup)
    ensures RetainListOk(e) <==>
              (e.listed.Some? ==> forall a :: a in e.listed.value ==>
                 && |a| == 20 && a != e.ovm
                 && var account := ReadLeaf(e.H, e.accounts, e.H(a));
                 account.Some? && account.value.codeHash != e.H([]))
  {
    hide ReadLeaf, Power256;
  }

  lemma ReadableMeans(e: Setup)
    ensures Readable(e) <==>
              forall k :: k in e.storage ==>
                && |k| == 32 && DecodeValue(e.storage[k]).Some?
                && ((k in e.balances && k !in e.allowances && k !in e.known)
                    || (k !in e.balances && k in e.allowances && k !in e.known)
                    || (k !in e.balances && k !in e.allowances && k in e.known))
  {
    hide DecodeValue;
  }

  /** The accepted inputs: the contract has code; listed addresses are other contracts with
      code; every storage leaf has a 32-byte key and a readable value and belongs to exactly
      one of the three namespaces; every nonzero holder has a readable account without native
      balance; and the balances add up to a word that matches the supply or the audit. */
  lemma AcceptedMeans(e: Setup)
    ensures Accepted(e) <==>
              && (var owner := ReadLeaf(e.H, e.accounts, e.H(e.ovm)); owner.Some? && owner.value.codeHash != e.H([]))
              && (e.listed.Some? ==> forall a :: a in e.listed.value ==>
                    && |a| == 20 && a != e.ovm
                    && var account := ReadLeaf(e.H, e.accounts, e.H(a));
                    account.Some? && account.value.codeHash != e.H([]))
              && (forall k :: k in e.storage ==>
                    && |k| == 32 && DecodeValue(e.storage[k]).Some?
                    && ((k in e.balances && k !in e.allowances && k !in e.known)
                        || (k !in e.balances && k in e.allowances && k !in e.known)
                        || (k !in e.balances && k !in e.allowances && k in e.known)))
              && (forall k :: Holder(e, k) ==>
                    var account := ReadLeaf(e.H, e.accounts, e.H(e.balances[k]));
                    account.Some? && account.value.balance == 0)
              && Total(e) < Power256(32)
              && (if e.audit.Some?
                  then Audit.MatchAccounting(e.audit.value, e.height,
                                             ReadLeaf(e.H, e.accounts, e.H(e.ovm)).value.codeHash,
                                             |NonZero(e, Slots(e))|, Total(e), Value(e, SupplySlot(e)))
                  else Total(e) == Value(e, SupplySlot(e)))
  {
    hide ReadLeaf, Value, Power256, DecodeValue, Slots, Total, AllInspectable, Holder, Audit.MatchAccounting, NonZero,
         RetainListOk, Readable;
    ListedMeans(e);
    ReadableMeans(e);
    HoldersInspectable(e);
  }

  // The evidence.

  /** Holders by kind: whether the account has code, and whether its tokens stay. */
  ghost function HoldersWith(e: Setup, contract: bool, kept: bool): set<Bytes> {
    set k | k in e.storage && Holder(e, k) && contract == HasCode(e, k)
      && kept == (HasCode(e, k) && (e.balances[k] in e.senders
                                    || (e.listed.Some? && e.balances[k] in e.listed.value)))
  }

  predicate HasCode(e: Setup, k: Bytes)
    requires k in e.balances
  {
    var account := ReadLeaf(e.H, e.accounts, e.H(e.balances[k]));
    account.Some? && account.value.codeHash != e.H([])
  }

  lemma CountedHolders(e: Setup, contract: bool, converts: bool)
    requires WellFormed(e) && Accepted(e)
    ensures Counted(e, Slots(e), converts, contract) == HoldersWith(e, contract, !converts)
  {
    hide WellFormed, Value, ReadLeaf, Power256, Total, Balanced, RetainListOk, Readable;
    forall k | k in Slots(e) && Holder(e, k)
      ensures IsContract(e, k) == HasCode(e, k)
      ensures Converts(e, k) <==> !(HasCode(e, k) && Keeps(e, e.balances[k]))
    {
      assert Inspectable(e, k);
    }
    forall k | Holder(e, k)
      ensures k in Slots(e)
    {
    }
    assert forall k :: k in Slots(e) && Value(e, k) != 0 && e.balances[k] != e.ovm ==> Holder(e, k);
  }

  /** The evidence counts the converted externally owned accounts, the converted contracts and
      the retained contracts, and its amounts are the supply before, the tokens made native,
      the tokens left, and the contract's own tokens. */
  lemma EvidenceMeans(e: Setup)
    requires WellFormed(e) && Accepted(e)
    ensures var b := Converted(e).evidence;
            && b.eoas == |HoldersWith(e, false, false)|
            && b.converted == |HoldersWith(e, true, false)|
            && b.retained == |HoldersWith(e, true, true)|
            && b.supply == Value(e, SupplySlot(e))
            && b.migrated + b.remaining == Total(e)
            && b.remaining == Total(Outcome(e))
            && b.self == (if SlotOf(e.H, e.ovm) in Slots(e) then Value(e, SlotOf(e.H, e.ovm)) else 0)
  {
    hide WellFormed, Accepted, Slots, Counted, HoldersWith, Value, SetSum, SlotOf, SupplySlot, Total, Outcome,
         ConvertedOwner, Patched;
    CountedHolders(e, false, true);
    CountedHolders(e, true, true);
    CountedHolders(e, true, false);
    RemainingFits(e);
    OwnerTotal(e);
  }

  /** With an audit, an accepted state's balances exceed its supply by exactly the audited gas
      and self-destructed amounts; an audit of this very height also fixes the balances, the
      supply and the number of nonzero slots. Without one they are equal. */
  lemma AuditedSupply(e: Setup)
    requires WellFormed(e) && Accepted(e)
    requires e.audit.Some? ==> Audit.Validate(e.audit.value)
    ensures e.audit.None? ==> Total(e) == Value(e, SupplySlot(e))
    ensures e.audit.Some? ==>
              var a := e.audit.value;
              && Total(e) == Value(e, SupplySlot(e)) + a.totals.gas + a.totals.suicide
              && a.identity.to <= e.height
              && ReadLeaf(e.H, e.accounts, e.H(e.ovm)).Some?
              && a.target.codeHash == ReadLeaf(e.H, e.accounts, e.H(e.ovm)).value.codeHash
              && (a.identity.to == e.height ==>
                    && Total(e) == a.target.balances && Value(e, SupplySlot(e)) == a.target.supply
                    && |NonZero(e, Slots(e))| == a.target.slots)
  {
    hide ReadLeaf, Value, Power256, Slots, Total, AllInspectable, NonZero, Readable, RetainListOk, WellFormed;
    if e.audit.Some? {
      Audit.ValidateMeans(e.audit.value);
    }
  }

  /** The audit evidence of an accepted conversion: the input's digest, the sum of the balances,
      the audited difference, and the audited block when it is an earlier one. */
  lemma AuditEvidenceMeans(e: Setup, head: Audit.Head, digest: Hash)
    requires WellFormed(e) && Accepted(e) && e.height == head.number
    requires e.audit.Some? && Audit.Validate(e.audit.value) && Audit.MatchHead(e.audit.value, head)
    ensures var a := e.audit.value;
            var c := Audit.ConversionEvidence(a, digest, head, Converted(e).evidence);
            && c.Some? && c.value.digest == digest && c.value.balanceSum == Total(e)
            && c.value.difference == a.totals.gas + a.totals.suicide
            && (c.value.auditHead.Some? <==> a.identity.to < head.number)
            && (c.value.auditHead.Some? ==>
                  && c.value.auditHead.value.number == a.identity.to
                  && c.value.auditHead.value.hash == a.identity.toHash
                  && c.value.auditHead.value.root == a.target.root)
            && (c.value.auditHead.None? ==>
                  && a.identity.to == head.number && a.identity.toHash == head.hash && a.target.root == head.root)
  {
    hide Accepted, WellFormed, Slots, Value, Total, After, ConvertedOwner, Patched, Power256, Outcome, HoldersWith,
         SlotOf, Audit.Validate;
    AuditedSupply(e);
    EvidenceMeans(e);
    EvidenceReconciles(e, head, digest);
    Audit.ValidateMeans(e.audit.value);
  }
}
