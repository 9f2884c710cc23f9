/** The counts a record scan reports are those of the serial traversal. */
module ConsumerCounts {
  import opened ByteStrings
  import opened AccountCodec
  import opened Records
  import opened Bundle
  import opened Consumer
  import T = Traversal

  function CountedSlots(slots: seq<Leaf>): seq<T.Slot> {
    seq(|slots|, i requires 0 <= i < |slots| => T.Slot(slots[i].key, |slots[i].value|))
  }

  /** An account as the traversal counts it. */
  function CountedAccount(env: Env, h: Holding): T.Account {
    T.Account(h.hash, |EncodeFull(h.account)|,
              if HasCode(env, h) then Some(h.account.codeHash) else None, CountedSlots(h.slots))
  }

  function CodeRecordCounts(h: Holding): T.Counts {
    if h.code.Some? then T.CodeCounts(|h.code.value|) else T.ZERO
  }

  /** An account before it is finalized: no code reference yet. */
  function OpenCounts(env: Env, h: Holding): T.Counts {
    var a := CountedAccount(env, h);
    T.Add(T.Add(T.LeafCounts(a), T.StorageCounts(a.slots)), CodeRecordCounts(h))
  }

  function HoldingCounts(env: Env, h: Holding): T.Counts {
    T.Add(T.AccountCounts(CountedAccount(env, h)), CodeRecordCounts(h))
  }

  function Total(env: Env, hs: seq<Holding>, n: nat): T.Counts
    requires n <= |hs|
  {
    if n == 0 then T.ZERO else T.Add(Total(env, hs, n - 1), HoldingCounts(env, hs[n - 1]))
  }

  lemma {:induction false} TotalPrefix(env: Env, hs: seq<Holding>, h: Holding, n: nat)
    requires n <= |hs|
    ensures Total(env, hs + [h], n) == Total(env, hs, n)
  {
    hide HoldingCounts, T.Add;
    if n > 0 {
      TotalPrefix(env, hs, h, n - 1);
    }
  }

  lemma TotalAppend(env: Env, hs: seq<Holding>, h: Holding)
    ensures Total(env, hs + [h], |hs| + 1) == T.Add(Total(env, hs, |hs|), HoldingCounts(env, h))
  {
    hide HoldingCounts, T.Add;
    TotalPrefix(env, hs, h, |hs|);
  }

  ghost predicate CountsRight(env: Env, p: Progress) {
    p.counts == T.Add(Total(env, p.done, |p.done|), if p.open.Some? then OpenCounts(env, p.open.value) else T.ZERO)
  }

  lemma FinalizeCounts(env: Env, p: Progress)
    requires CountsRight(env, p) && Finalize(env, p).Some?
    ensures CountsRight(env, Finalize(env, p).value)
  {
    hide Total, Provided, StorageRoot, T.StorageCounts, EncodeFull, CountedSlots, CodeRecordCounts;
    if p.open.Some? {
      TotalAppend(env, p.done, p.open.value);
    }
  }

  lemma AccountCounts(env: Env, p: Progress, e: Entry)
    requires CountsRight(env, p) && ConsumeAccount(env, p, e).Some?
    ensures CountsRight(env, ConsumeAccount(env, p, e).value)
  {
    hide Total, Finalize, EncodeFull, DecodeAccount, Less;
    FinalizeCounts(env, p);
    var f, q := Finalize(env, p).value, ConsumeAccount(env, p, e).value;
    assert f.open.None? by { Closed(env, p); }
    assert CountedSlots(q.open.value.slots) == [];
    assert T.StorageCounts([]) == T.ZERO;
  }

  lemma Closed(env: Env, p: Progress)
    requires Finalize(env, p).Some?
    ensures Finalize(env, p).value.open.None?
  {
  }

  lemma StorageCounted(env: Env, p: Progress, e: Entry)
    requires CountsRight(env, p) && ConsumeStorage(env, p, e).Some?
    ensures CountsRight(env, ConsumeStorage(env, p, e).value)
  {
    hide Total, EncodeFull, Less, ValidStorage, T.StorageCounts, CodeRecordCounts;
    var h := p.open.value;
    var leaf := Leaf(e.sub, e.payload);
    assert CountedSlots(h.slots + [leaf]) == CountedSlots(h.slots) + [T.Slot(leaf.key, |leaf.value|)];
    T.StorageAppend(CountedSlots(h.slots), T.Slot(leaf.key, |leaf.value|));
    assert CodeRecordCounts(h.(slots := h.slots + [leaf])) == CodeRecordCounts(h) by { SameCode(h, leaf); }
  }

  lemma SameCode(h: Holding, leaf: Leaf)
    ensures CodeRecordCounts(h.(slots := h.slots + [leaf])) == CodeRecordCounts(h)
  {
  }

  lemma CodeCounted(env: Env, p: Progress, e: Entry)
    requires CountsRight(env, p) && ConsumeCode(env, p, e).Some?
    ensures CountsRight(env, ConsumeCode(env, p, e).value)
  {
    hide Total, EncodeFull, T.StorageCounts, CountedSlots, Provided;
  }

  lemma {:induction false} RunCounts(env: Env, es: seq<Entry>)
    requires Run(env, Start(), es).Some?
    ensures CountsRight(env, Run(env, Start(), es).value)
  {
    hide CountsRight, ConsumeAccount, ConsumeStorage, ConsumeCode;
    if es == [] {
      StartCounts(env);
    } else {
      var n := |es| - 1;
      RunCounts(env, es[..n]);
      var p := Run(env, Start(), es[..n]).value;
      if es[n].typ == ACCOUNT {
        AccountCounts(env, p, es[n]);
      } else if es[n].typ == STORAGE {
        StorageCounted(env, p, es[n]);
      } else {
        CodeCounted(env, p, es[n]);
      }
    }
  }

  lemma StartCounts(env: Env)
    ensures CountsRight(env, Start())
  {
    hide Total, OpenCounts;
    TotalOfNone(env, Start().done, |Start().done|);
  }

  lemma TotalOfNone(env: Env, hs: seq<Holding>, n: nat)
    requires n == 0 <= |hs|
    ensures Total(env, hs, n) == T.ZERO
  {
    hide HoldingCounts;
  }

  // The serial traversal's counts.

  function CountedAccounts(env: Env, hs: seq<Holding>): seq<T.Account> {
    seq(|hs|, i requires 0 <= i < |hs| => CountedAccount(env, hs[i]))
  }

  /** size gives the length of every code the holdings carry. */
  ghost predicate Sizes(hs: seq<Holding>, size: Hash -> nat) {
    forall i :: 0 <= i < |hs| && hs[i].code.Some? ==> size(hs[i].account.codeHash) == |hs[i].code.value|
  }

  lemma {:induction false} TotalIsTraverse(env: Env, hs: seq<Holding>, size: Hash -> nat, n: nat)
    requires HoldingsValid(env, hs) && Sizes(hs, size) && n <= |hs|
    ensures T.CodeHashes(CountedAccounts(env, hs), n) == Provided(hs, n)
    ensures T.Traverse(CountedAccounts(env, hs), size, n) == Total(env, hs, n)
  {
    hide HoldingsValid, T.Add, T.AccountCounts, T.CodeCounts, EncodeFull, CountedSlots, SlotsValid, StorageRoot;
    if n > 0 {
      TotalIsTraverse(env, hs, size, n - 1);
      ValidAt(env, hs, n - 1);
      assert CountedAccounts(env, hs)[n - 1] == CountedAccount(env, hs[n - 1]);
    }
  }

  /** An accepted scan counts what the serial traversal of its state counts. */
  lemma ScanCounts(env: Env, es: seq<Entry>, root: Hash, size: Hash -> nat)
    requires AllWellFormed(es) && Scan(env, es, root).Some? && Sizes(Scan(env, es, root).value.done, size)
    ensures var p := Scan(env, es, root).value;
            p.counts == T.Traverse(CountedAccounts(env, p.done), size, |p.done|)
  {
    hide Run, Finalize, HoldingsValid, StateValid, StorageRoot, Emit, Total, AllWellFormed, Sizes;
    ScanExact(env, es, root);
    RunCounts(env, es);
    FinalizeCounts(env, Run(env, Start(), es).value);
    Closed(env, Run(env, Start(), es).value);
    var hs := Scan(env, es, root).value.done;
    TotalIsTraverse(env, hs, size, |hs|);
    T.AddRegroup(Total(env, hs, |hs|), T.ZERO, T.ZERO, T.ZERO);
  }
}
