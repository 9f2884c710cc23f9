/** Which record sequences describe a state: the semantic scanner's transitions
    (recordConsumer in internal/migration/bundle.go) and what they accept. */
module Consumer {
  import opened ByteStrings
  import opened AccountCodec
  import opened Records
  import opened Bundle
  import T = Traversal

  /** The accounts finished, the one being read, and the counts. */
  datatype Progress = Progress(done: seq<Holding>, open: Option<Holding>, counts: T.Counts)

  function Start(): Progress { Progress([], None, T.ZERO) }

  /** finalizeAccount; None is an error. */
  function Finalize(env: Env, p: Progress): Option<Progress> {
    if p.open.None? then Some(p)
    else
      var h := p.open.value;
      if StorageRoot(env, h.slots) != h.account.root then None
      else if HasCode(env, h) && h.code.None? && h.account.codeHash !in Provided(p.done, |p.done|) then None
      else
        var references := p.counts.codeReferences + (if HasCode(env, h) then 1 else 0);
        Some(Progress(p.done + [h], None, p.counts.(codeReferences := references)))
  }

  function ConsumeAccount(env: Env, p: Progress, e: Entry): Option<Progress> {
    var f := Finalize(env, p);
    if f.None? then None
    else if f.value.done != [] && !Less(f.value.done[|f.value.done| - 1].hash, e.account) then None
    else
      var a := DecodeAccount(env.H, e.payload);
      if a.None? then None
      else Some(f.value.(open := Some(Holding(e.account, a.value, [], None)),
                         counts := Tally(f.value.counts, ACCOUNT, |EncodeFull(a.value)|)))
  }

  function ConsumeStorage(env: Env, p: Progress, e: Entry): Option<Progress> {
    if p.open.None? then None
    else
      var h := p.open.value;
      if h.code.Some? || e.account != h.hash || h.account.root == EmptyRoot(env.H) then None
      else if h.slots != [] && !Less(h.slots[|h.slots| - 1].key, e.sub) then None
      else if !ValidStorage(e.payload) then None
      else Some(p.(open := Some(h.(slots := h.slots + [Leaf(e.sub, e.payload)])),
          counts := Tally(p.counts, STORAGE, |e.payload|)))
  }

  function ConsumeCode(env: Env, p: Progress, e: Entry): Option<Progress> {
    if p.open.None? then None
    else
      var h := p.open.value;
      if h.code.Some? || !HasCode(env, h) || e.sub != h.account.codeHash then None
      else if env.H(e.payload) != h.account.codeHash || h.account.codeHash in Provided(p.done, |p.done|) then None
      else Some(p.(open := Some(h.(code := Some(e.payload))), counts := Tally(p.counts, CODE, |e.payload|)))
  }

  /** consume. */
  function Step(env: Env, p: Progress, e: Entry): Option<Progress> {
    if e.typ == ACCOUNT then ConsumeAccount(env, p, e)
    else if e.typ == STORAGE then ConsumeStorage(env, p, e)
    else if e.typ == CODE then ConsumeCode(env, p, e)
    else None
  }

  function Run(env: Env, p: Progress, es: seq<Entry>): Option<Progress> {
    if es == [] then Some(p)
    else
      var q := Run(env, p, es[..|es| - 1]);
      if q.None? then None else Step(env, q.value, es[|es| - 1])
  }

  function AccountLeaves(hs: seq<Holding>): seq<Leaf> {
    seq(|hs|, i requires 0 <= i < |hs| => Leaf(hs[i].hash, EncodeFull(hs[i].account)))
  }

  /** The whole scan: every record, then finish. */
  function Scan(env: Env, es: seq<Entry>, root: Hash): Option<Progress> {
    var p := Run(env, Start(), es);
    if p.None? then None
    else
      var f := Finalize(env, p.value);
      if f.None? || StorageRoot(env, AccountLeaves(f.value.done)) != root then None else f
  }

  lemma RunSnoc(env: Env, p: Progress, es: seq<Entry>, e: Entry)
    ensures Run(env, p, es + [e]) == var q := Run(env, p, es); if q.None? then None else Step(env, q.value, e)
  {
    hide Step;
    assert (es + [e])[..|es|] == es;
  }

  lemma {:induction false} RunAppend(env: Env, p: Progress, a: seq<Entry>, b: seq<Entry>)
    ensures Run(env, p, a + b) == var q := Run(env, p, a); if q.None? then None else Run(env, q.value, b)
    decreases |b|
  {
    hide Step;
    if b == [] {
      assert a + b == a;
    } else {
      var n := |b| - 1;
      RunAppend(env, p, a, b[..n]);
      assert (a + b)[..|a + b| - 1] == a + b[..n];
    }
  }

  // Soundness: what has been accepted is an emission.

  /** The account being read, so far. */
  ghost predicate OpenValid(env: Env, done: seq<Holding>, h: Holding) {
    && SlotsValid(h.slots) && (h.slots != [] ==> h.account.root != EmptyRoot(env.H))
    && (done != [] ==> Less(done[|done| - 1].hash, h.hash))
    && (h.code.Some? ==>
          HasCode(env, h) && h.account.codeHash !in Provided(done, |done|) && env.H(h.code.value) == h.account.codeHash)
  }

  function OpenEmission(env: Env, open: Option<Holding>): seq<Entry> {
    if open.None? then [] else Emission(env, open.value)
  }

  ghost predicate Inv(env: Env, p: Progress, es: seq<Entry>) {
    && HoldingsValid(env, p.done)
    && (p.open.Some? ==> OpenValid(env, p.done, p.open.value))
    && es == Emit(env, p.done, |p.done|) + OpenEmission(env, p.open)
  }

  lemma FinalizeKeeps(env: Env, p: Progress, es: seq<Entry>)
    requires Inv(env, p, es) && Finalize(env, p).Some?
    ensures Inv(env, Finalize(env, p).value, es) && Finalize(env, p).value.open.None?
  {
    hide SlotsValid, Emission, Provided, StorageRoot, Emit, HoldingsValid, Less;
    if p.open.Some? {
      EmitAppend(env, p.done, p.open.value);
      ValidAppend(env, p.done, p.open.value);
    }
  }

  lemma AccountKeeps(env: Env, p: Progress, es: seq<Entry>, e: Entry)
    requires Inv(env, p, es) && WellFormed(e) && e.typ == ACCOUNT && ConsumeAccount(env, p, e).Some?
    ensures Inv(env, ConsumeAccount(env, p, e).value, es + [e])
  {
    hide Provided, Emit, HoldingsValid, Less, Finalize, DecodeAccount, EncodeAccount, EncodeFull;
    FinalizeKeeps(env, p, es);
    SlimCanonical(env.H, e.payload);
    var h := ConsumeAccount(env, p, e).value.open.value;
    assert Emission(env, h) == [e];
  }

  lemma SlotEmission(env: Env, h: Holding, leaf: Leaf)
    requires h.code.None?
    ensures Emission(env, h.(slots := h.slots + [leaf]))
            == Emission(env, h) + [Entry(STORAGE, h.hash, leaf.key, leaf.value)]
  {
    hide AccountEntry;
    var n := h.(slots := h.slots + [leaf]);
    assert SlotEntries(n) == SlotEntries(h) + [Entry(STORAGE, h.hash, leaf.key, leaf.value)];
    assert AccountEntry(env, n) == AccountEntry(env, h) by { AccountEntrySame(env, n, h); }
  }

  lemma AccountEntrySame(env: Env, a: Holding, b: Holding)
    requires a.hash == b.hash && a.account == b.account
    ensures AccountEntry(env, a) == AccountEntry(env, b)
  {
  }

  lemma CodeEmission(env: Env, h: Holding, code: Bytes)
    requires h.code.None?
    ensures Emission(env, h.(code := Some(code)))
            == Emission(env, h) + [Entry(CODE, NoHash(), h.account.codeHash, code)]
  {
    hide AccountEntry;
    var n := h.(code := Some(code));
    assert SlotEntries(n) == SlotEntries(h);
    AccountEntrySame(env, n, h);
  }

  lemma SlotsAppend(slots: seq<Leaf>, leaf: Leaf)
    requires SlotsValid(slots) && ValidStorage(leaf.value)
    requires slots != [] ==> Less(slots[|slots| - 1].key, leaf.key)
    ensures SlotsValid(slots + [leaf])
  {
    hide Less, ValidStorage;
    var next := slots + [leaf];
    forall i, j | 0 <= i < j < |next|
      ensures Less(next[i].key, next[j].key)
    {
      if j == |slots| && i < |slots| - 1 {
        LessTransitive(slots[i].key, slots[|slots| - 1].key, leaf.key);
      }
    }
  }

  lemma StorageKeeps(env: Env, p: Progress, es: seq<Entry>, e: Entry)
    requires Inv(env, p, es) && e.typ == STORAGE && ConsumeStorage(env, p, e).Some?
    ensures Inv(env, ConsumeStorage(env, p, e).value, es + [e])
  {
    hide Provided, Emit, Emission, HoldingsValid, Less, SlotsValid, ValidStorage;
    var leaf := Leaf(e.sub, e.payload);
    SlotEmission(env, p.open.value, leaf);
    SlotsAppend(p.open.value.slots, leaf);
  }

  lemma CodeKeeps(env: Env, p: Progress, es: seq<Entry>, e: Entry)
    requires Inv(env, p, es) && WellFormed(e) && e.typ == CODE && ConsumeCode(env, p, e).Some?
    ensures Inv(env, ConsumeCode(env, p, e).value, es + [e])
  {
    hide Provided, Emit, Emission, HoldingsValid, Less, SlotsValid;
    CodeEmission(env, p.open.value, e.payload);
  }

  lemma {:induction false} RunKeeps(env: Env, es: seq<Entry>)
    requires AllWellFormed(es) && Run(env, Start(), es).Some?
    ensures Inv(env, Run(env, Start(), es).value, es)
  {
    hide Inv, Step, WellFormed;
    if es == [] {
      StartInv(env);
    } else {
      var n := |es| - 1;
      RunKeeps(env, es[..n]);
      StepKeeps(env, Run(env, Start(), es[..n]).value, es[..n], es[n]);
      assert es[..n] + [es[n]] == es;
    }
  }

  lemma StartInv(env: Env)
    ensures Inv(env, Start(), [])
  {
  }

  lemma StepKeeps(env: Env, p: Progress, es: seq<Entry>, e: Entry)
    requires Inv(env, p, es) && WellFormed(e) && Step(env, p, e).Some?
    ensures Inv(env, Step(env, p, e).value, es + [e])
  {
    hide Inv, ConsumeAccount, ConsumeStorage, ConsumeCode, WellFormed;
    if e.typ == ACCOUNT {
      AccountKeeps(env, p, es, e);
    } else if e.typ == STORAGE {
      StorageKeeps(env, p, es, e);
    } else {
      CodeKeeps(env, p, es, e);
    }
  }

  // Completeness: every emission is accepted.

  ghost predicate At(p: Option<Progress>, done: seq<Holding>, open: Option<Holding>) {
    p.Some? && p.value.done == done && p.value.open == open
  }

  lemma AccountAccepted(env: Env, p: Progress, h: Holding)
    requires At(Finalize(env, p), p.done + (if p.open.Some? then [p.open.value] else []), None)
    requires var d := p.done + (if p.open.Some? then [p.open.value] else []); d != [] ==> Less(d[|d| - 1].hash, h.hash)
    ensures At(Step(env, p, AccountEntry(env, h)), Finalize(env, p).value.done,
            Some(Holding(h.hash, h.account, [], None)))
  {
    hide Finalize, DecodeAccount, EncodeAccount, EncodeFull, Less;
    SlimRoundTrip(env.H, h.account);
  }

  lemma SlotAccepted(env: Env, p: Progress, h: Holding, j: nat)
    requires SlotsValid(h.slots) && j < |h.slots| && h.account.root != EmptyRoot(env.H)
    requires p.open == Some(Holding(h.hash, h.account, h.slots[..j], None))
    ensures At(Step(env, p, SlotEntries(h)[j]), p.done, Some(Holding(h.hash, h.account, h.slots[..j + 1], None)))
  {
    hide Less, ValidStorage;
    assert h.slots[..j + 1] == h.slots[..j] + [h.slots[j]];
  }

  lemma {:induction false} SlotsAccepted(env: Env, p: Progress, h: Holding, j: nat)
    requires SlotsValid(h.slots) && j <= |h.slots| && (h.slots != [] ==> h.account.root != EmptyRoot(env.H))
    requires p.open == Some(Holding(h.hash, h.account, [], None))
    ensures At(Run(env, p, SlotEntries(h)[..j]), p.done, Some(Holding(h.hash, h.account, h.slots[..j], None)))
  {
    hide Step, SlotsValid;
    if j > 0 {
      SlotsAccepted(env, p, h, j - 1);
      assert SlotEntries(h)[..j] == SlotEntries(h)[..j - 1] + [SlotEntries(h)[j - 1]];
      RunSnoc(env, p, SlotEntries(h)[..j - 1], SlotEntries(h)[j - 1]);
      SlotAccepted(env, Run(env, p, SlotEntries(h)[..j - 1]).value, h, j - 1);
    }
  }

  lemma CodesAccepted(env: Env, p: Progress, h: Holding)
    requires HoldingValid(env, h, Provided(p.done, |p.done|))
             && p.open == Some(Holding(h.hash, h.account, h.slots, None))
    ensures At(Run(env, p, CodeEntries(h)), p.done, Some(h))
  {
    hide Provided, SlotsValid, StorageRoot;
    if h.code.Some? {
      var e := CodeEntries(h)[0];
      assert [] + [e] == CodeEntries(h);
      RunSnoc(env, p, [], e);
    }
  }

  /** One account's records are accepted after those of the accounts before it. */
  lemma HoldingAccepted(env: Env, p: Progress, h: Holding)
    requires At(Finalize(env, p), p.done + (if p.open.Some? then [p.open.value] else []), None)
    requires var d := Finalize(env, p).value.done;
             (d != [] ==> Less(d[|d| - 1].hash, h.hash)) && HoldingValid(env, h, Provided(d, |d|))
    ensures At(Run(env, p, Emission(env, h)), Finalize(env, p).value.done, Some(h))
  {
    hide Finalize, Step, Run, HoldingValid, Provided, Less, AccountEntry, SlotEntries, CodeEntries;
    var a := AccountEntry(env, h);
    AccountAccepted(env, p, h);
    RunSnoc(env, p, [], a);
    RunNothing(env, p);
    assert [] + [a] == [a];
    var q := Run(env, p, [a]).value;
    RunAppend(env, p, [a], SlotEntries(h));
    PartsValid(env, h, Provided(q.done, |q.done|));
    SlotsAccepted(env, q, h, |h.slots|);
    assert SlotEntries(h)[..|h.slots|] == SlotEntries(h) && h.slots[..|h.slots|] == h.slots by { SlotCount(h); }
    RunAppend(env, p, [a] + SlotEntries(h), CodeEntries(h));
    CodesAccepted(env, Run(env, q, SlotEntries(h)).value, h);
  }

  lemma SlotCount(h: Holding)
    ensures |SlotEntries(h)| == |h.slots|
  {
  }

  lemma RunNothing(env: Env, p: Progress)
    ensures Run(env, p, []) == Some(p)
  {
  }

  lemma PartsValid(env: Env, h: Holding, provided: set<Hash>)
    requires HoldingValid(env, h, provided)
    ensures SlotsValid(h.slots) && (h.slots != [] ==> h.account.root != EmptyRoot(env.H))
  {
  }

  lemma FinalizeAccepted(env: Env, p: Progress)
    requires p.open.Some? ==> HoldingValid(env, p.open.value, Provided(p.done, |p.done|))
    ensures At(Finalize(env, p), p.done + (if p.open.Some? then [p.open.value] else []), None)
  {
    hide Provided, SlotsValid;
    assert p.done + [] == p.done;
  }

  /** The progress after n whole accounts: the last is still open. */
  ghost predicate After(p: Option<Progress>, hs: seq<Holding>, n: nat)
    requires n <= |hs|
  {
    if n == 0 then At(p, [], None) else At(p, hs[..n - 1], Some(hs[n - 1]))
  }

  lemma {:induction false} EmitAccepted(env: Env, hs: seq<Holding>, n: nat)
    requires HoldingsValid(env, hs) && n <= |hs|
    ensures After(Run(env, Start(), Emit(env, hs, n)), hs, n)
  {
    hide HoldingsValid, Provided, Emission, Run, Finalize, HoldingValid, Less;
    if n == 0 {
      RunNothing(env, Start());
    } else {
      EmitAccepted(env, hs, n - 1);
      var p := Run(env, Start(), Emit(env, hs, n - 1)).value;
      BeforeHolding(env, hs, n - 1, p);
      HoldingAccepted(env, p, hs[n - 1]);
      RunAppend(env, Start(), Emit(env, hs, n - 1), Emission(env, hs[n - 1]));
    }
  }

  lemma BeforeHolding(env: Env, hs: seq<Holding>, n: nat, p: Progress)
    requires HoldingsValid(env, hs) && n <= |hs| && After(Some(p), hs, n)
    ensures At(Finalize(env, p), p.done + (if p.open.Some? then [p.open.value] else []), None)
    ensures Finalize(env, p).value.done == hs[..n]
    ensures n < |hs| ==> (n > 0 ==> Less(hs[n - 1].hash, hs[n].hash)) && HoldingValid(env, hs[n], Provided(hs[..n], n))
  {
    hide HoldingsValid, Provided, Finalize, HoldingValid, Less, Emission;
    if n > 0 {
      ValidAt(env, hs, n - 1);
      ProvidedTake(env, hs, n - 1, n - 1);
      assert hs[..n] == hs[..n - 1] + [hs[n - 1]];
    }
    FinalizeAccepted(env, p);
    if n < |hs| {
      ValidAt(env, hs, n);
      ProvidedTake(env, hs, n, n);
      OrderAt(env, hs, n);
    }
  }

  lemma OrderAt(env: Env, hs: seq<Holding>, n: nat)
    requires HoldingsValid(env, hs) && n < |hs|
    ensures n > 0 ==> Less(hs[n - 1].hash, hs[n].hash)
  {
    hide HoldingValid, Provided;
  }

  lemma ProvidedTake(env: Env, hs: seq<Holding>, n: nat, m: nat)
    requires m <= n <= |hs|
    ensures Provided(hs[..n], m) == Provided(hs, m)
  {
    hide Provided, Emission;
    EmitPrefix(env, hs[..n], hs[n..], m);
    assert hs[..n] + hs[n..] == hs;
  }

  // The theorems.

  /** An accepted record sequence is the emission of a valid state with the expected root, and
      the scan restores that state; EmissionScans is the other direction. */
  lemma ScanExact(env: Env, es: seq<Entry>, root: Hash)
    requires AllWellFormed(es)
    ensures Scan(env, es, root).Some? ==>
              var hs := Scan(env, es, root).value.done;
              && HoldingsValid(env, hs) && Emit(env, hs, |hs|) == es && StorageRoot(env, AccountLeaves(hs)) == root
              && StateValid(env, StateOf(hs)) && Holdings(env, StateOf(hs)) == hs
  {
    hide Run, Finalize, HoldingsValid, StateValid, StorageRoot, Emit;
    if Scan(env, es, root).Some? {
      RunKeeps(env, es);
      FinalizeKeeps(env, Run(env, Start(), es).value, es);
      HoldingsState(env, Scan(env, es, root).value.done);
    }
  }

  lemma EmissionScans(env: Env, s: State, root: Hash)
    requires StateValid(env, s)
    ensures var hs := Holdings(env, s);
            && (Scan(env, Emit(env, hs, |hs|), root).Some? <==> StorageRoot(env, AccountLeaves(hs)) == root)
            && (Scan(env, Emit(env, hs, |hs|), root).Some? ==> Scan(env, Emit(env, hs, |hs|), root).value.done == hs)
  {
    hide Run, Finalize, HoldingsValid, StateValid, StorageRoot, Emit, Holdings, HoldingValid, Provided;
    StateHoldings(env, s);
    var hs := Holdings(env, s);
    EmitAccepted(env, hs, |hs|);
    BeforeHolding(env, hs, |hs|, Run(env, Start(), Emit(env, hs, |hs|)).value);
    assert hs[..|hs|] == hs;
  }

  lemma {:induction false} CodesFrom(env: Env, s: State, n: nat)
    requires StateValid(env, s) && n <= |s.accounts|
    ensures forall h :: h in CodesOf(Holdings(env, s), n) ==>
            h in s.codes && CodesOf(Holdings(env, s), n)[h] == s.codes[h]
  {
    hide StateValid, References;
    if n > 0 {
      CodesFrom(env, s, n - 1);
    }
  }

  /** A record sequence belongs to one state: its accounts, storage and every code they refer to. */
  lemma EmissionUnique(env: Env, a: State, b: State)
    requires StateValid(env, a) && StateValid(env, b)
    requires var x, y := Holdings(env, a), Holdings(env, b); Emit(env, x, |x|) == Emit(env, y, |y|)
    ensures a.accounts == b.accounts
    ensures forall h :: h in References(env, a.accounts, |a.accounts|) ==>
              h in a.codes && h in b.codes && a.codes[h] == b.codes[h]
  {
    hide Scan, StateValid, StorageRoot, Emit, HoldingsValid, CodesOf, References, Provided, HoldingAt;
    var x, y := Holdings(env, a), Holdings(env, b);
    EmissionScans(env, a, StorageRoot(env, AccountLeaves(x)));
    EmissionScans(env, b, StorageRoot(env, AccountLeaves(x)));
    AccountsFrom(env, a);
    AccountsFrom(env, b);
    StateHoldings(env, a);
    CodesProvided(env, x, |x|);
    CodesFrom(env, a, |x|);
    CodesFrom(env, b, |x|);
  }

  lemma AccountsFrom(env: Env, s: State)
    ensures StateOf(Holdings(env, s)).accounts == s.accounts
  {
    hide CodesOf, References;
  }
}
