/** What a record stream means: the state its records describe, and the order in which
    a traversal emits them. */
module Bundle {
  import opened ByteStrings
  import opened AccountCodec
  import opened Records

  datatype Leaf = Leaf(key: Hash, value: Bytes)

  /** Keccak, and the root of a trie built from leaves in key order. */
  datatype Env = Env(H: Hasher, rootOf: seq<Leaf> -> Hash)

  /** An account with its storage, and its code if this account is the first to refer to it. */
  datatype Holding = Holding(hash: Hash, account: Account, slots: seq<Leaf>, code: Option<Bytes>)

  function StorageRoot(env: Env, slots: seq<Leaf>): Hash {
    if slots == [] then EmptyRoot(env.H) else env.rootOf(slots)
  }

  predicate HasCode(env: Env, h: Holding) { h.account.codeHash != EmptyCode(env.H) }

  ghost predicate SlotsValid(slots: seq<Leaf>) {
    && (forall i, j :: 0 <= i < j < |slots| ==> Less(slots[i].key, slots[j].key))
    && (forall i :: 0 <= i < |slots| ==> ValidStorage(slots[i].value))
  }

  /** The code hashes provided by the first n holdings. */
  function Provided(hs: seq<Holding>, n: nat): set<Hash>
    requires n <= |hs|
  {
    if n == 0 then {}
    else Provided(hs, n - 1) + (if hs[n - 1].code.Some? then {hs[n - 1].account.codeHash} else {})
  }

  /** A complete holding, given the codes provided before it. */
  ghost predicate HoldingValid(env: Env, h: Holding, provided: set<Hash>) {
    && SlotsValid(h.slots) && h.account.root == StorageRoot(env, h.slots)
    && (h.slots != [] ==> h.account.root != EmptyRoot(env.H))
    && (h.code.Some? <==> HasCode(env, h) && h.account.codeHash !in provided)
    && (h.code.Some? ==> env.H(h.code.value) == h.account.codeHash)
  }

  ghost predicate Increasing(hs: seq<Holding>) {
    forall i :: 0 < i < |hs| ==> Less(hs[i - 1].hash, hs[i].hash)
  }

  ghost predicate HoldingsValid(env: Env, hs: seq<Holding>) {
    && Increasing(hs)
    && (forall i: nat :: i < |hs| ==> HoldingValid(env, hs[i], Provided(hs, i)))
  }

  lemma ValidAt(env: Env, hs: seq<Holding>, i: nat)
    requires HoldingsValid(env, hs) && i < |hs|
    ensures HoldingValid(env, hs[i], Provided(hs, i))
  {
    hide HoldingValid, Provided;
  }

  // Emission.

  function AccountEntry(env: Env, h: Holding): Entry {
    Entry(ACCOUNT, h.hash, NoHash(), EncodeAccount(env.H, h.account))
  }

  function SlotEntries(h: Holding): seq<Entry> {
    seq(|h.slots|, i requires 0 <= i < |h.slots| => Entry(STORAGE, h.hash, h.slots[i].key, h.slots[i].value))
  }

  function CodeEntries(h: Holding): seq<Entry> {
    if h.code.Some? then [Entry(CODE, NoHash(), h.account.codeHash, h.code.value)] else []
  }

  function Emission(env: Env, h: Holding): seq<Entry> {
    [AccountEntry(env, h)] + SlotEntries(h) + CodeEntries(h)
  }

  /** An account's records, one by one: the account, its slots in order, and its code when this
      account is the first to refer to it. */
  lemma EmissionAt(env: Env, h: Holding)
    ensures var es := Emission(env, h);
            && |es| == 1 + |h.slots| + (if h.code.Some? then 1 else 0)
            && es[0].typ == 1 && es[0].account == h.hash && es[0].sub == NoHash()
            && DecodeAccount(env.H, es[0].payload) == Some(h.account)
            && (forall i :: 0 <= i < |h.slots| ==> es[1 + i] == Entry(2, h.hash, h.slots[i].key, h.slots[i].value))
            && (h.code.Some? ==> es[1 + |h.slots|] == Entry(3, NoHash(), h.account.codeHash, h.code.value))
  {
    hide EncodeAccount, DecodeAccount;
    SlimRoundTrip(env.H, h.account);
  }

  /** The records of the first n holdings. */
  function Emit(env: Env, hs: seq<Holding>, n: nat): seq<Entry>
    requires n <= |hs|
  {
    if n == 0 then [] else Emit(env, hs, n - 1) + Emission(env, hs[n - 1])
  }

  // States.

  /** A state: accounts with their storage, and the codes. */
  datatype Plain = Plain(hash: Hash, account: Account, slots: seq<Leaf>)

  datatype State = State(accounts: seq<Plain>, codes: map<Hash, Bytes>)

  /** The code hashes the first n accounts refer to. */
  function References(env: Env, accounts: seq<Plain>, n: nat): set<Hash>
    requires n <= |accounts|
  {
    if n == 0 then {}
    else References(env, accounts, n - 1) +
         (if accounts[n - 1].account.codeHash != EmptyCode(env.H) then {accounts[n - 1].account.codeHash} else {})
  }

  ghost predicate StateValid(env: Env, s: State) {
    && (forall i :: 0 < i < |s.accounts| ==> Less(s.accounts[i - 1].hash, s.accounts[i].hash))
    && (forall i :: 0 <= i < |s.accounts| ==>
          var a := s.accounts[i];
          && SlotsValid(a.slots) && a.account.root == StorageRoot(env, a.slots)
          && (a.slots != [] ==> a.account.root != EmptyRoot(env.H))
          && (a.account.codeHash != EmptyCode(env.H) ==> a.account.codeHash in s.codes))
    && (forall h :: h in s.codes ==> env.H(s.codes[h]) == h)
  }

  /** The states a stream can carry: accounts and slots in strictly increasing key order, values
      that are encoded nonzero words, each root the hash of the account's slots or the empty
      trie's, every referenced code present, and every code under its hash. */
  lemma StateMeans(env: Env, s: State)
    ensures StateValid(env, s) <==>
              && (forall i :: 0 < i < |s.accounts| ==> Less(s.accounts[i - 1].hash, s.accounts[i].hash))
              && (forall i :: 0 <= i < |s.accounts| ==> AccountMeans(env, s, s.accounts[i]))
              && (forall h :: h in s.codes ==> env.H(s.codes[h]) == h)
  {
    hide Less, ValidStorage;
  }

  ghost predicate AccountMeans(env: Env, s: State, a: Plain) {
    && (forall j, k :: 0 <= j < k < |a.slots| ==> Less(a.slots[j].key, a.slots[k].key))
    && (forall j :: 0 <= j < |a.slots| ==> ValidStorage(a.slots[j].value))
    && (a.slots == [] ==> a.account.root == env.H([0x80]))
    && (a.slots != [] ==> a.account.root == env.rootOf(a.slots) && a.account.root != env.H([0x80]))
    && (a.account.codeHash != env.H([]) ==> a.account.codeHash in s.codes)
  }

  /** The traversal's view of account i: its code is read on first reference only. */
  function HoldingAt(env: Env, s: State, i: nat): Holding
    requires i < |s.accounts|
  {
    var a := s.accounts[i];
    var h := a.account.codeHash;
    Holding(a.hash, a.account, a.slots,
            if h != EmptyCode(env.H) && h !in References(env, s.accounts, i) && h in s.codes then Some(s.codes[h])
            else None)
  }

  function Holdings(env: Env, s: State): seq<Holding> {
    seq(|s.accounts|, i requires 0 <= i < |s.accounts| => HoldingAt(env, s, i))
  }

  lemma {:induction false} ProvidedIsReferenced(env: Env, s: State, n: nat)
    requires StateValid(env, s) && n <= |s.accounts|
    ensures Provided(Holdings(env, s), n) == References(env, s.accounts, n)
  {
    hide SlotsValid;
    if n > 0 {
      ProvidedIsReferenced(env, s, n - 1);
    }
  }

  /** Every valid state is traversed as valid holdings. */
  lemma StateHoldings(env: Env, s: State)
    requires StateValid(env, s)
    ensures HoldingsValid(env, Holdings(env, s))
  {
    hide SlotsValid, Provided, References;
    var hs := Holdings(env, s);
    forall i: nat | i < |hs|
      ensures HoldingValid(env, hs[i], Provided(hs, i))
    {
      ProvidedIsReferenced(env, s, i);
    }
  }

  /** The state that holdings describe. */
  function StateOf(hs: seq<Holding>): State {
    State(seq(|hs|, i requires 0 <= i < |hs| => Plain(hs[i].hash, hs[i].account, hs[i].slots)), CodesOf(hs, |hs|))
  }

  function CodesOf(hs: seq<Holding>, n: nat): map<Hash, Bytes>
    requires n <= |hs|
  {
    if n == 0 then map[]
    else if hs[n - 1].code.Some? then CodesOf(hs, n - 1)[hs[n - 1].account.codeHash := hs[n - 1].code.value]
    else CodesOf(hs, n - 1)
  }

  lemma {:induction false} CodesProvided(env: Env, hs: seq<Holding>, n: nat)
    requires n <= |hs| && HoldingsValid(env, hs)
    ensures CodesOf(hs, n).Keys == Provided(hs, n) == References(env, StateOf(hs).accounts, n)
    ensures forall h :: h in CodesOf(hs, n) ==> env.H(CodesOf(hs, n)[h]) == h
  {
    hide SlotsValid, StorageRoot, HoldingsValid, EmptyCode, EmptyRoot;
    if n > 0 {
      CodesProvided(env, hs, n - 1);
      ValidAt(env, hs, n - 1);
      assert StateOf(hs).accounts[n - 1].account == hs[n - 1].account;
    }
  }

  lemma {:induction false} CodesKept(env: Env, hs: seq<Holding>, i: nat, n: nat)
    requires i < n <= |hs| && HoldingsValid(env, hs)
    ensures Provided(hs, i) <= Provided(hs, n)
    ensures hs[i].code.Some? ==>
              hs[i].account.codeHash in CodesOf(hs, n) && CodesOf(hs, n)[hs[i].account.codeHash] == hs[i].code.value
    ensures HasCode(env, hs[i]) ==> hs[i].account.codeHash in Provided(hs, n)
    decreases n
  {
    hide SlotsValid, StorageRoot, HoldingsValid;
    ValidAt(env, hs, n - 1);
    if i < n - 1 {
      CodesKept(env, hs, i, n - 1);
      CodesProvided(env, hs, n - 1);
    }
  }

  /** Valid holdings are the traversal of the state they describe. */
  lemma HoldingsState(env: Env, hs: seq<Holding>)
    requires HoldingsValid(env, hs)
    ensures StateValid(env, StateOf(hs)) && Holdings(env, StateOf(hs)) == hs
  {
    hide SlotsValid, StorageRoot, CodesOf, Provided, References;
    var s := StateOf(hs);
    CodesProvided(env, hs, |hs|);
    forall i: nat | i < |hs|
      ensures HoldingAt(env, s, i) == hs[i]
      ensures HasCode(env, hs[i]) ==> hs[i].account.codeHash in s.codes
    {
      assert HoldingValid(env, hs[i], Provided(hs, i));
      CodesProvided(env, hs, i);
      CodesKept(env, hs, i, |hs|);
    }
    assert Holdings(env, s) == hs;
  }

  // Prefixes.

  lemma {:induction false} EmitPrefix(env: Env, hs: seq<Holding>, more: seq<Holding>, n: nat)
    requires n <= |hs|
    ensures Emit(env, hs + more, n) == Emit(env, hs, n)
    ensures Provided(hs + more, n) == Provided(hs, n)
  {
    hide Emission;
    if n > 0 {
      EmitPrefix(env, hs, more, n - 1);
    }
  }

  lemma EmitAppend(env: Env, hs: seq<Holding>, h: Holding)
    ensures Emit(env, hs + [h], |hs| + 1) == Emit(env, hs, |hs|) + Emission(env, h)
    ensures Provided(hs + [h], |hs| + 1) == Provided(hs, |hs|) + (if h.code.Some? then {h.account.codeHash} else {})
  {
    hide Emission;
    EmitPrefix(env, hs, [h], |hs|);
  }

  lemma ValidAppend(env: Env, hs: seq<Holding>, h: Holding)
    requires HoldingsValid(env, hs) && HoldingValid(env, h, Provided(hs, |hs|))
    requires hs != [] ==> Less(hs[|hs| - 1].hash, h.hash)
    ensures HoldingsValid(env, hs + [h])
  {
    hide HoldingValid, Emission, Provided, Less;
    var next := hs + [h];
    forall i: nat | i < |next|
      ensures HoldingValid(env, next[i], Provided(next, i))
    {
      EmitPrefix(env, hs, [h], i);
    }
  }
}
