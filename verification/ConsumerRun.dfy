/** The semantic scanner as an object, and the exporter that feeds the record writer:
    recordConsumer in internal/migration/bundle.go, recordWriterVisitor in export.go. */
module ConsumerRun {
  import opened ByteStrings
  import opened AccountCodec
  import opened Records
  import opened RecordIo
  import opened Bundle
  import opened Consumer
  import opened ConsumerCounts
  import Rlp
  import T = Traversal

  /** The fields of recordConsumer; a trie under construction is the leaves fed to it. */
  datatype Fields = Fields(leaves: seq<Leaf>, counts: T.Counts, knownCodes: set<Hash>,
                           haveAccount: bool, accountHash: Hash, account: Account, accountRlp: Bytes,
                           storage: seq<Leaf>,
                           lastAccount: Hash, lastSlot: Hash, haveSlot: bool, codeSeen: bool)

  /** The fields describe the account being read. */
  ghost predicate OpenAgrees(f: Fields, h: Holding) {
    && h.hash == f.accountHash == f.lastAccount && h.account == f.account && h.slots == f.storage
        && h.code.Some? == f.codeSeen
    && f.accountRlp == EncodeFull(f.account)
    && f.haveSlot == (f.storage != []) && (f.haveSlot ==> f.lastSlot == f.storage[|f.storage| - 1].key)
  }

  /** The fields describe the progress. */
  ghost predicate Agrees(f: Fields, p: Progress) {
    && f.counts == p.counts && f.leaves == AccountLeaves(p.done)
    && f.haveAccount == p.open.Some? && (f.haveAccount ==> OpenAgrees(f, p.open.value))
    && f.knownCodes == Provided(p.done, |p.done|) + (if f.haveAccount && f.codeSeen then {f.account.codeHash} else {})
    && (f.counts.accounts > 0 <==> p.done != [] || f.haveAccount)
    && (!f.haveAccount && p.done != [] ==> f.lastAccount == p.done[|p.done| - 1].hash)
  }

  // What each transition does to the fields.

  predicate FinalizeOk(env: Env, f: Fields) {
    && StorageRoot(env, f.storage) == f.account.root
    && (f.account.codeHash != EmptyCode(env.H) ==> f.codeSeen || f.account.codeHash in f.knownCodes)
  }

  lemma FinalizeAgrees(env: Env, f: Fields, p: Progress)
    requires Agrees(f, p) && f.haveAccount
    ensures Finalize(env, p).Some? <==> FinalizeOk(env, f)
    ensures Finalize(env, p).Some? ==>
              var references := f.counts.codeReferences + (if f.account.codeHash != EmptyCode(env.H) then 1 else 0);
              Agrees(f.(leaves := f.leaves + [Leaf(f.accountHash, f.accountRlp)], haveAccount := false, storage := [],
                        counts := f.counts.(codeReferences := references)), Finalize(env, p).value)
  {
    hide Provided, StorageRoot, EncodeFull, AccountLeaves, Emit, Emission;
    EmitAppend(env, p.done, p.open.value);
    LeavesAppend(p.done, p.open.value);
  }

  lemma AccountAgrees(env: Env, f: Fields, p: Progress, e: Entry)
    requires Agrees(f, p) && !f.haveAccount
    ensures ConsumeAccount(env, p, e).Some? <==>
            !(f.counts.accounts > 0 && !Less(f.lastAccount, e.account)) && DecodeAccount(env.H, e.payload).Some?
    ensures ConsumeAccount(env, p, e).Some? ==>
              var a := DecodeAccount(env.H, e.payload).value;
              Agrees(f.(haveAccount := true, accountHash := e.account, lastAccount := e.account, account := a,
                        accountRlp := EncodeFull(a), storage := [], haveSlot := false, codeSeen := false,
                        counts := Tally(f.counts, ACCOUNT, |EncodeFull(a)|)), ConsumeAccount(env, p, e).value)
  {
    hide Provided, StorageRoot, EncodeFull, AccountLeaves, DecodeAccount, Less;
  }

  predicate StorageOk(env: Env, f: Fields, e: Entry) {
    && f.haveAccount && !f.codeSeen && e.account == f.accountHash && f.account.root != EmptyRoot(env.H)
    && (f.haveSlot ==> Less(f.lastSlot, e.sub)) && ValidStorage(e.payload)
  }

  lemma StorageAgrees(env: Env, f: Fields, p: Progress, e: Entry)
    requires Agrees(f, p)
    ensures ConsumeStorage(env, p, e).Some? <==> StorageOk(env, f, e)
    ensures ConsumeStorage(env, p, e).Some? ==>
              Agrees(f.(storage := f.storage + [Leaf(e.sub, e.payload)], haveSlot := true, lastSlot := e.sub,
                        counts := Tally(f.counts, STORAGE, |e.payload|)), ConsumeStorage(env, p, e).value)
  {
    hide Provided, EncodeFull, AccountLeaves, Less, ValidStorage;
  }

  predicate CodeOk(env: Env, f: Fields, e: Entry) {
    && f.haveAccount && !f.codeSeen && f.account.codeHash != EmptyCode(env.H) && e.sub == f.account.codeHash
    && env.H(e.payload) == f.account.codeHash && f.account.codeHash !in f.knownCodes
  }

  lemma CodeAgrees(env: Env, f: Fields, p: Progress, e: Entry)
    requires Agrees(f, p)
    ensures ConsumeCode(env, p, e).Some? <==> CodeOk(env, f, e)
    ensures ConsumeCode(env, p, e).Some? ==>
              Agrees(f.(knownCodes := f.knownCodes + {f.account.codeHash}, codeSeen := true,
                        counts := Tally(f.counts, CODE, |e.payload|)), ConsumeCode(env, p, e).value)
  {
    hide Provided, EncodeFull, AccountLeaves;
  }

  class RecordConsumer {
    const env: Env
    const expectedRoot: Hash
    var leaves: seq<Leaf>
    var counts: T.Counts
    var knownCodes: set<Hash>
    var haveAccount: bool
    var accountHash: Hash
    var account: Account
    var accountRlp: Bytes
    var storage: seq<Leaf>
    var lastAccount: Hash
    var lastSlot: Hash
    var haveSlot: bool
    var codeSeen: bool
    var finished: bool
    /** The same progress as a value. */
    ghost var progress: Progress

    ghost function View(): Fields
      reads this
    {
      Fields(leaves, counts, knownCodes, haveAccount, accountHash, account, accountRlp, storage, lastAccount, lastSlot,
          haveSlot, codeSeen)
    }

    ghost predicate Valid()
      reads this
    {
      Agrees(View(), progress)
    }

    constructor (env: Env, expectedRoot: Hash)
      ensures Valid() && this.env == env && this.expectedRoot == expectedRoot && progress == Start() && !finished
    {
      this.env, this.expectedRoot := env, expectedRoot;
      leaves, counts, knownCodes, haveAccount, finished := [], T.ZERO, {}, false, false;
      accountHash, lastAccount, lastSlot := NoHash(), NoHash(), NoHash();
      account, accountRlp, storage := Account(0, 0, NoHash(), NoHash()), [], [];
      haveSlot, codeSeen, progress := false, false, Start();
    }

    /** finalizeAccount. */
    method FinalizeAccount() returns (ok: bool)
      requires Valid()
      modifies this
      ensures ok <==> Finalize(env, old(progress)).Some?
      ensures ok ==> Valid() && progress == Finalize(env, old(progress)).value && !haveAccount
      ensures finished == old(finished)
    {
      hide StorageRoot, Finalize, Agrees, EmptyCode, Power256;
      Opened(env, View(), progress);
      if !haveAccount {
        return true;
      }
      FinalizeAgrees(env, View(), progress);
      if StorageRoot(env, storage) != account.root {
        return false;
      }
      if account.codeHash != EmptyCode(env.H) {
        if !codeSeen && account.codeHash !in knownCodes {
          return false;
        }
        counts := counts.(codeReferences := counts.codeReferences + 1);
      }
      leaves := leaves + [Leaf(accountHash, accountRlp)];
      progress := Finalize(env, progress).value;
      haveAccount, storage := false, [];
      ok := true;
    }

    method StartAccount(hash: Hash, decoded: Account, full: Bytes)
      modifies this`haveAccount, this`accountHash, this`lastAccount, this`account, this`accountRlp, this`storage,
               this`haveSlot, this`codeSeen
      ensures View() == old(View()).(haveAccount := true, accountHash := hash, lastAccount := hash, account := decoded,
                                     accountRlp := full, storage := [], haveSlot := false, codeSeen := false)
    {
      hide Power256;
      haveAccount := true;
      accountHash := hash;
      lastAccount := hash;
      account := decoded;
      accountRlp := full;
      storage := [];
      haveSlot := false;
      codeSeen := false;
    }

    /** consumeAccount. */
    method ConsumeAccountRecord(e: Entry) returns (ok: bool)
      requires Valid()
      modifies this
      ensures ok <==> ConsumeAccount(env, old(progress), e).Some?
      ensures ok ==> Valid() && progress == ConsumeAccount(env, old(progress), e).value
      ensures finished == old(finished)
    {
      hide EncodeFull, DecodeAccount, Finalize, Less, Agrees, ConsumeAccount, Power256, Tally;
      AfterFinalize(env, progress, e);
      ok := FinalizeAccount();
      if !ok {
        return;
      }
      AccountAgrees(env, View(), progress, e);
      if counts.accounts > 0 && !Less(lastAccount, e.account) {
        return false;
      }
      var decoded := DecodeAccount(env.H, e.payload);
      if decoded.None? {
        return false;
      }
      progress := ConsumeAccount(env, progress, e).value;
      StartAccount(e.account, decoded.value, EncodeFull(decoded.value));
      counts := Tally(counts, ACCOUNT, |accountRlp|);
    }

    /** consumeStorage. */
    method ConsumeStorageRecord(e: Entry) returns (ok: bool)
      requires Valid()
      modifies this
      ensures ok <==> ConsumeStorage(env, old(progress), e).Some?
      ensures ok ==> Valid() && progress == ConsumeStorage(env, old(progress), e).value
      ensures finished == old(finished)
    {
      hide Agrees, Less, ValidStorage, ConsumeStorage, Power256, EmptyRoot, Tally;
      StorageAgrees(env, View(), progress, e);
      if !haveAccount || codeSeen || e.account != accountHash || account.root == EmptyRoot(env.H) {
        return false;
      }
      if (haveSlot && !Less(lastSlot, e.sub)) || !ValidStorage(e.payload) {
        return false;
      }
      progress := ConsumeStorage(env, progress, e).value;
      storage := storage + [Leaf(e.sub, e.payload)];
      haveSlot, lastSlot := true, e.sub;
      counts := Tally(counts, STORAGE, |e.payload|);
      ok := true;
    }

    /** consumeCode. */
    method ConsumeCodeRecord(e: Entry) returns (ok: bool)
      requires Valid()
      modifies this
      ensures ok <==> ConsumeCode(env, old(progress), e).Some?
      ensures ok ==> Valid() && progress == ConsumeCode(env, old(progress), e).value
      ensures finished == old(finished)
    {
      hide Agrees, ConsumeCode, Power256, EmptyCode, Tally;
      CodeAgrees(env, View(), progress, e);
      if !haveAccount || codeSeen {
        return false;
      }
      var expected := account.codeHash;
      if expected == EmptyCode(env.H) || e.sub != expected || env.H(e.payload) != expected || expected in knownCodes {
        return false;
      }
      progress := ConsumeCode(env, progress, e).value;
      knownCodes := knownCodes + {expected};
      codeSeen := true;
      counts := Tally(counts, CODE, |e.payload|);
      ok := true;
    }

    /** consume: exactly the transition of the format's rules. */
    method Consume(e: Entry) returns (ok: bool)
      requires Valid()
      modifies this
      ensures ok <==> !old(finished) && Step(env, old(progress), e).Some?
      ensures ok ==> Valid() && progress == Step(env, old(progress), e).value
      ensures finished == old(finished)
    {
      hide Valid, ConsumeAccount, ConsumeStorage, ConsumeCode;
      if finished {
        return false;
      }
      if e.typ == ACCOUNT {
        ok := ConsumeAccountRecord(e);
      } else if e.typ == STORAGE {
        ok := ConsumeStorageRecord(e);
      } else if e.typ == CODE {
        ok := ConsumeCodeRecord(e);
      } else {
        ok := false;
      }
    }

    /** finish: the last account, then the state root. */
    method Finish() returns (ok: bool)
      requires Valid()
      modifies this
      ensures finished
      ensures ok <==> && !old(finished) && Finalize(env, old(progress)).Some?
                      && StorageRoot(env, AccountLeaves(Finalize(env, old(progress)).value.done)) == expectedRoot
      ensures ok ==> Valid() && progress == Finalize(env, old(progress)).value
    {
      hide Finalize, StorageRoot, AccountLeaves, Agrees;
      if finished {
        return false;
      }
      finished := true;
      ok := FinalizeAccount();
      if ok {
        LeavesAre(View(), progress);
        ok := StorageRoot(env, leaves) == expectedRoot;
      }
    }
  }

  lemma LeavesAre(f: Fields, p: Progress)
    requires Agrees(f, p)
    ensures f.leaves == AccountLeaves(p.done) && f.counts == p.counts
  {
    hide AccountLeaves, Provided, EncodeFull;
  }

  lemma Opened(env: Env, f: Fields, p: Progress)
    requires Agrees(f, p)
    ensures !f.haveAccount ==> Finalize(env, p) == Some(p)
  {
    hide AccountLeaves, Provided, EncodeFull;
  }

  /** consumeAccount finalizes, then goes on with what that leaves. */
  lemma AfterFinalize(env: Env, p: Progress, e: Entry)
    ensures Finalize(env, p).None? ==> ConsumeAccount(env, p, e).None?
    ensures Finalize(env, p).Some? ==> ConsumeAccount(env, p, e) == ConsumeAccount(env, Finalize(env, p).value, e)
  {
    hide Provided, StorageRoot, EncodeFull, DecodeAccount, Less;
  }

  lemma LeavesAppend(hs: seq<Holding>, h: Holding)
    ensures AccountLeaves(hs + [h]) == AccountLeaves(hs) + [Leaf(h.hash, EncodeFull(h.account))]
  {
    hide EncodeFull;
  }

  /** scanBundle: the records of a stream, consumed one by one, against the manifest's root and
      semantic counts. */
  method ScanBundle(env: Env, es: seq<Entry>, root: Hash, want: T.Counts) returns (leaves: Option<seq<Leaf>>)
    ensures leaves.Some? <==> Scan(env, es, root).Some? && Scan(env, es, root).value.counts == want
    ensures leaves.Some? ==> leaves.value == AccountLeaves(Scan(env, es, root).value.done)
  {
    hide Step, Finalize, StorageRoot, AccountLeaves, Agrees;
    var c := new RecordConsumer(env, root);
    RunNothing(env, Start());
    assert es[..0] == [];
    for i := 0 to |es|
      invariant fresh(c) && c.Valid() && !c.finished && c.env == env && c.expectedRoot == root
      invariant Run(env, Start(), es[..i]) == Some(c.progress)
    {
      RunSnoc(env, Start(), es[..i], es[i]);
      assert es[..i + 1] == es[..i] + [es[i]];
      var ok := c.Consume(es[i]);
      if !ok {
        Rejected(env, es, i + 1);
        return None;
      }
    }
    assert es[..|es|] == es;
    var ok := c.Finish();
    if !ok {
      return None;
    }
    LeavesAre(c.View(), c.progress);
    leaves := if c.counts == want then Some(c.leaves) else None;
  }

  lemma {:induction false} Rejected(env: Env, es: seq<Entry>, n: nat)
    requires n <= |es| && Run(env, Start(), es[..n]).None?
    ensures Run(env, Start(), es).None?
    decreases |es| - n
  {
    hide Step, Run;
    if n == |es| {
      assert es[..n] == es;
    } else {
      RunSnoc(env, Start(), es[..n], es[n]);
      assert es[..n + 1] == es[..n] + [es[n]];
      Rejected(env, es, n + 1);
    }
  }

  // Exporting.

  /** Every code fits a record. */
  ghost predicate CodesFit(hs: seq<Holding>) {
    forall i :: 0 <= i < |hs| && hs[i].code.Some? ==> 0 < |hs[i].code.value| <= 134217728
  }

  lemma AccountFits(env: Env, h: Holding)
    ensures 0 < |EncodeAccount(env.H, h.account)| <= 110 && |EncodeAccount(env.H, h.account)| <= |EncodeFull(h.account)|
  {
    hide EncodeFull;
    SlimSize(env.H, h.account);
    NotEmpty(SlimItem(env.H, h.account));
  }

  lemma NotEmpty(x: Rlp.Item)
    requires Rlp.Encodable(x)
    ensures |Rlp.Encode(x)| > 0
  {
    Rlp.DecodeEncoded(x, []);
  }

  method ExportSlots(w: Writer, h: Holding)
    requires w.Valid() && !w.closed && SlotsValid(h.slots)
    modifies w, w.hasher
    ensures w.Valid() && !w.closed && w.written == old(w.written) + SlotEntries(h)
    ensures w.Semantic() == T.Add(old(w.Semantic()), T.StorageCounts(CountedSlots(h.slots)))
  {
    hide Writer.Valid, Writer.Semantic, SlotsValid, SlotEntries, Power256, T.SlotsCounted, CountedSlots, T.Add, Tally;
    SlotCount(h);
    NoSlotCounts(w.Semantic(), h.slots);
    for i := 0 to |h.slots|
      invariant w.Valid() && !w.closed && w.written == old(w.written) + SlotEntries(h)[..i]
      invariant |CountedSlots(h.slots)| == |h.slots|
      invariant w.Semantic() == T.Add(old(w.Semantic()), T.SlotsCounted(CountedSlots(h.slots), i))
    {
      SlotFits(h, i);
      OneSlotCounts(old(w.Semantic()), h.slots, i);
      var stored := w.WriteStorage(h.hash, h.slots[i].key, h.slots[i].value);
    }
    assert SlotEntries(h)[..|h.slots|] == SlotEntries(h);
  }

  lemma NoSlotCounts(c: T.Counts, slots: seq<Leaf>)
    ensures |CountedSlots(slots)| == |slots| && T.Add(c, T.SlotsCounted(CountedSlots(slots), 0)) == c
  {
    T.AddRegroup(c, T.ZERO, T.ZERO, T.ZERO);
  }

  lemma OneSlotCounts(c: T.Counts, slots: seq<Leaf>, i: nat)
    requires i < |slots| == |CountedSlots(slots)|
    ensures T.Add(c, T.SlotsCounted(CountedSlots(slots), i + 1))
            == Tally(T.Add(c, T.SlotsCounted(CountedSlots(slots), i)), STORAGE, |slots[i].value|)
  {
  }

  lemma EmissionParts(env: Env, h: Holding, before: seq<Entry>)
    ensures before + [Entry(ACCOUNT, h.hash, NoHash(), EncodeAccount(env.H, h.account))] + SlotEntries(h)
            + (if h.code.Some? then [Entry(CODE, NoHash(), h.account.codeHash, h.code.value)] else [])
            == before + Emission(env, h)
  {
    hide EncodeAccount, SlotEntries, NoHash;
  }

  /** The counts of one account's callbacks, in the order they are made. */
  lemma HoldingTallies(env: Env, h: Holding, c: T.Counts)
    ensures var a := Tally(c, ACCOUNT, |EncodeFull(h.account)|);
            var b := a.(codeReferences := a.codeReferences + (if HasCode(env, h) then 1 else 0));
            var d := T.Add(b, T.StorageCounts(CountedSlots(h.slots)));
            (if h.code.Some? then Tally(d, CODE, |h.code.value|) else d) == T.Add(c, HoldingCounts(env, h))
  {
    hide EncodeFull, T.StorageCounts, CountedSlots, HasCode;
  }

  /** One account's callbacks: the account, its slots in order, its code on first reference. */
  method ExportHolding(env: Env, w: Writer, h: Holding) returns (ok: bool)
    requires w.Valid() && !w.closed && SlotsValid(h.slots)
    modifies w, w.hasher
    ensures w.Valid() && !w.closed
    ensures ok <==> h.code.Some? ==> 0 < |h.code.value| <= 134217728
    ensures ok ==> w.written == old(w.written) + Emission(env, h)
    ensures ok ==> w.Semantic() == T.Add(old(w.Semantic()), HoldingCounts(env, h))
  {
    hide Writer.Valid, Writer.Semantic, EncodeAccount, EncodeFull, SlotsValid, SlotEntries, Power256, HasCode, NoHash,
         Emission, Tally, T.Add, HoldingCounts, T.StorageCounts;
    ghost var before := w.written;
    AccountFits(env, h);
    EmissionParts(env, h, before);
    HoldingTallies(env, h, w.Semantic());
    ok := w.WriteAccount(h.hash, EncodeAccount(env.H, h.account), |EncodeFull(h.account)|);
    if HasCode(env, h) {
      var counted := w.CountCodeReference();
    }
    ExportSlots(w, h);
    if h.code.Some? {
      ok := w.WriteCode(h.account.codeHash, h.code.value);
    } else {
      assert w.written + [] == w.written;
    }
  }

  lemma SlotFits(h: Holding, i: nat)
    requires SlotsValid(h.slots) && i < |h.slots|
    ensures 0 < |h.slots[i].value| <= 33 && i < |SlotEntries(h)|
    ensures SlotEntries(h)[..i + 1] == SlotEntries(h)[..i] + [Entry(STORAGE, h.hash, h.slots[i].key, h.slots[i].value)]
  {
    hide Power256, Less;
    StorageCanonical(h.slots[i].value);
  }

  /** The exporter: the writer receives exactly the emission of the state and counts what the
      serial traversal counts, unless a code is too long. */
  method Export(env: Env, w: Writer, hs: seq<Holding>, ghost size: Hash -> nat) returns (ok: bool)
    requires w.Valid() && !w.closed && w.written == [] && w.Semantic() == T.ZERO
    requires HoldingsValid(env, hs) && Sizes(hs, size)
    modifies w, w.hasher
    ensures w.Valid() && !w.closed
    ensures ok <==> CodesFit(hs)
    ensures ok ==> w.written == Emit(env, hs, |hs|)
    ensures ok ==> w.Semantic() == T.Traverse(CountedAccounts(env, hs), size, |hs|)
  {
    hide Writer.Valid, Writer.Semantic, Emission, HoldingsValid, Provided, SlotsValid, HoldingCounts, T.Add, Sizes;
    for i := 0 to |hs|
      invariant w.Valid() && !w.closed && w.written == Emit(env, hs, i) && w.Semantic() == Total(env, hs, i)
      invariant forall j :: 0 <= j < i && hs[j].code.Some? ==> 0 < |hs[j].code.value| <= 134217728
    {
      ValidAt(env, hs, i);
      ok := ExportHolding(env, w, hs[i]);
      if !ok {
        return;
      }
    }
    TotalIsTraverse(env, hs, size, |hs|);
    ok := true;
  }
}
