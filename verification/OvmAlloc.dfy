/** Applying a GenesisAlloc to a state: internal/migration/ovm_alloc.go. */
module OvmAlloc {
  import opened ByteStrings
  import opened KeyValue
  import opened AccountCodec
  import opened PatchedTrie

  /** The fields an allocation sets; storage maps a hashed slot to its leaf, empty for zero. */
  datatype Patch = Patch(balance: Option<uint256>, nonce: Option<uint64>, code: Option<Bytes>,
                         storage: Option<Database>)

  predicate IsEmpty(p: Patch) { p.balance.None? && p.nonce.None? && p.code.None? && p.storage.None? }

  /** Account leaves, every account's storage leaves, and the codes written. */
  datatype World = World(accounts: Database, storage: map<Bytes, Database>, codes: map<Bytes, Bytes>)

  datatype Env = Env(H: Hasher, rootOf: Database -> Hash)

  function StorageOf(w: World, owner: Bytes): Database { if owner in w.storage then w.storage[owner] else map[] }

  /** The account an allocation makes of an account. */
  function Allocated(env: Env, a: Account, leaves: Database, p: Patch): Account {
    Account(if p.nonce.Some? then p.nonce.value else a.nonce,
            if p.balance.Some? then p.balance.value else a.balance,
            if p.storage.Some? then env.rootOf(Patched(leaves, p.storage.value)) else a.root,
            if p.code.Some? then env.H(p.code.value) else a.codeHash)
  }

  ghost predicate Applies(p: map<Bytes, Patch>, done: set<Bytes>, owner: Bytes) {
    owner in done && owner in p && !IsEmpty(p[owner])
  }

  ghost function AccountPatches(env: Env, w: World, p: map<Bytes, Patch>, done: set<Bytes>): Database {
    map o | o in done && Applies(p, done, o) && ReadLeaf(env.H, w.accounts, o).Some?
      :: EncodeFull(Allocated(env, ReadLeaf(env.H, w.accounts, o).value, StorageOf(w, o), p[o]))
  }

  ghost function StorageAfter(w: World, p: map<Bytes, Patch>, done: set<Bytes>): map<Bytes, Database> {
    map o | o in w.storage.Keys + done && (o in w.storage || (o in done && o in p && p[o].storage.Some?))
      :: if o in done && o in p && p[o].storage.Some? then Patched(StorageOf(w, o), p[o].storage.value)
          else StorageOf(w, o)
  }

  ghost predicate AllReadable(env: Env, w: World, p: map<Bytes, Patch>, done: set<Bytes>) {
    forall o :: Applies(p, done, o) ==> ReadLeaf(env.H, w.accounts, o).Some?
  }

  predicate StoresCode(p: Patch) { p.code.Some? && p.code.value != [] }

  /** Keccak tells the codes of the allocation and of the state apart. */
  ghost predicate CodesApart(env: Env, w: World, p: map<Bytes, Patch>) {
    && (forall o, q :: o in p && q in p && StoresCode(p[o]) && StoresCode(p[q]) ==>
          env.H(p[o].code.value) == env.H(p[q].code.value) ==> p[o].code.value == p[q].code.value)
    && (forall o :: o in p && StoresCode(p[o]) && env.H(p[o].code.value) in w.codes ==>
        w.codes[env.H(p[o].code.value)] == p[o].code.value)
  }

  /** The code store afterwards: every old code unchanged, every nonempty code of a patch under its
      hash, and nothing else. */
  ghost predicate CodesAfter(env: Env, w: World, p: map<Bytes, Patch>, done: set<Bytes>, codes: map<Bytes, Bytes>) {
    && (forall h :: h in w.codes ==> h in codes && codes[h] == w.codes[h])
    && (forall o :: o in done && o in p && StoresCode(p[o]) ==>
          env.H(p[o].code.value) in codes && codes[env.H(p[o].code.value)] == p[o].code.value)
    && (forall h :: h in codes && h !in w.codes ==>
          exists o :: o in done && o in p && StoresCode(p[o]) && h == env.H(p[o].code.value))
  }

  lemma CodeStored(env: Env, w: World, p: map<Bytes, Patch>, done: set<Bytes>, codes: map<Bytes, Bytes>, o: Bytes)
    requires CodesApart(env, w, p) && CodesAfter(env, w, p, done, codes) && o in p && StoresCode(p[o])
    ensures CodesAfter(env, w, p, done + {o}, codes[env.H(p[o].code.value) := p[o].code.value])
  {
    var h := env.H(p[o].code.value);
    var next := codes[h := p[o].code.value];
    forall q | q in done + {o} && q in p && StoresCode(p[q])
      ensures env.H(p[q].code.value) in next && next[env.H(p[q].code.value)] == p[q].code.value
    {
    }
    forall g | g in next && g !in w.codes
      ensures exists q :: q in done + {o} && q in p && StoresCode(p[q]) && g == env.H(p[q].code.value)
    {
      if g != h {
        var q :| q in done && q in p && StoresCode(p[q]) && g == env.H(p[q].code.value);
        assert q in done + {o};
      } else {
        assert o in done + {o};
      }
    }
  }

  lemma PatchAdds(env: Env, w: World, p: map<Bytes, Patch>, done: set<Bytes>, o: Bytes)
    requires o in p && o !in done && (!IsEmpty(p[o]) ==> ReadLeaf(env.H, w.accounts, o).Some?)
    ensures AccountPatches(env, w, p, done + {o})
            == if IsEmpty(p[o]) then AccountPatches(env, w, p, done)
               else AccountPatches(env, w, p, done)
                 [o := EncodeFull(Allocated(env, ReadLeaf(env.H, w.accounts, o).value, StorageOf(w, o), p[o]))]
  {
    hide ReadLeaf, Allocated, EncodeFull, StorageOf, IsEmpty, Power256;
  }

  lemma StorageAdds(w: World, p: map<Bytes, Patch>, done: set<Bytes>, o: Bytes)
    requires o in p && o !in done
    ensures StorageAfter(w, p, done + {o})
            == if p[o].storage.Some? then StorageAfter(w, p, done)[o := Patched(StorageOf(w, o), p[o].storage.value)]
               else StorageAfter(w, p, done)
  {
    hide Patched, Power256;
  }

  /** applyOVMGenesisAlloc: the patched accounts' leaves are replaced, the storage patches are
      applied, and nothing else changes. It fails exactly when a patched account cannot be read. */
  method ApplyGenesisAlloc(env: Env, w: World, p: map<Bytes, Patch>) returns (r: Option<World>)
    ensures r.Some? <==> AllReadable(env, w, p, p.Keys)
    ensures r.Some? ==> && r.value.accounts == Patched(w.accounts, AccountPatches(env, w, p, p.Keys))
                        && r.value.storage == StorageAfter(w, p, p.Keys)
    ensures r.Some? && CodesApart(env, w, p) ==> CodesAfter(env, w, p, p.Keys, r.value.codes)
  {
    hide ReadLeaf, Allocated, EncodeFull, AccountPatches, StorageAfter, Patched, StorageOf, Power256, CodesApart;
    var patches: Database := map[];
    var storage, codes := w.storage, w.codes;
    var left := p.Keys;
    ghost var done: set<Bytes> := {};
    NothingDone(env, w, p);
    while left != {}
      invariant left + done == p.Keys && left !! done
      invariant patches == AccountPatches(env, w, p, done) && storage == StorageAfter(w, p, done)
      invariant AllReadable(env, w, p, done)
      invariant CodesApart(env, w, p) ==> CodesAfter(env, w, p, done, codes)
      decreases left
    {
      var o :| o in left;
      left := left - {o};
      var patch := p[o];
      if !IsEmpty(patch) {
        var account := ReadLeaf(env.H, w.accounts, o);
        if account.None? {
          assert Applies(p, p.Keys, o);
          return None;
        }
        if StoresCode(patch) {
          if CodesApart(env, w, p) {
            CodeStored(env, w, p, done, codes, o);
          }
          codes := codes[env.H(patch.code.value) := patch.code.value];
        }
        if patch.storage.Some? {
          var leaves := Rebuild(StorageOf(w, o), patch.storage.value);
          storage := storage[o := leaves];
        }
        patches := patches[o := EncodeFull(Allocated(env, account.value, StorageOf(w, o), patch))];
      }
      PatchAdds(env, w, p, done, o);
      StorageAdds(w, p, done, o);
      done := done + {o};
    }
    assert done == p.Keys;
    var accounts := Rebuild(w.accounts, patches);
    r := Some(World(accounts, storage, codes));
  }

  lemma NothingDone(env: Env, w: World, p: map<Bytes, Patch>)
    ensures AccountPatches(env, w, p, {}) == map[] && StorageAfter(w, p, {}) == w.storage
  {
    hide ReadLeaf, Allocated, EncodeFull, Patched, Power256;
  }

  /** What an account is afterwards, patched or not: fields that the allocation does not set
      keep their values, and accounts it does not name keep their very bytes. */
  lemma AccountAfter(env: Env, w: World, p: map<Bytes, Patch>, o: Bytes)
    requires AllReadable(env, w, p, p.Keys)
    ensures var after := Patched(w.accounts, AccountPatches(env, w, p, p.Keys));
            if Applies(p, p.Keys, o) then
              && o in after
              && DecodeFull(after[o]) == Some(Allocated(env, ReadLeaf(env.H, w.accounts, o).value, StorageOf(w, o),
                  p[o]))
            else
              && (o in after <==> o in w.accounts && w.accounts[o] != [])
              && (o in after ==> after[o] == w.accounts[o])
  {
    hide ReadLeaf, Allocated, EncodeFull, DecodeFull, Patched, Power256, StorageOf;
    PatchedAt(w.accounts, AccountPatches(env, w, p, p.Keys), o);
    if Applies(p, p.Keys, o) {
      var a := Allocated(env, ReadLeaf(env.H, w.accounts, o).value, StorageOf(w, o), p[o]);
      FullRoundTrip(a);
      NonEmpty(a);
    }
  }

  /** Field by field: the nonce, the balance and the code's hash are the allocation's where it
      sets them; storage that it sets gives the account the root of its patched slots. */
  lemma FieldsAfter(env: Env, w: World, p: map<Bytes, Patch>, o: Bytes)
    requires AllReadable(env, w, p, p.Keys) && o in p
    requires p[o].nonce.Some? || p[o].balance.Some? || p[o].code.Some? || p[o].storage.Some?
    ensures var before := ReadLeaf(env.H, w.accounts, o);
            var after := ReadLeaf(env.H, Patched(w.accounts, AccountPatches(env, w, p, p.Keys)), o);
            && before.Some? && after.Some?
            && after.value.nonce == (if p[o].nonce.Some? then p[o].nonce.value else before.value.nonce)
            && after.value.balance == (if p[o].balance.Some? then p[o].balance.value else before.value.balance)
            && after.value.codeHash == (if p[o].code.Some? then env.H(p[o].code.value) else before.value.codeHash)
            && (p[o].storage.None? ==> after.value.root == before.value.root)
            && (p[o].storage.Some? ==>
                  && o in StorageAfter(w, p, p.Keys)
                  && after.value.root == env.rootOf(StorageAfter(w, p, p.Keys)[o]))
  {
    hide EncodeFull, DecodeFull, Patched, Power256, StorageOf, AccountPatches;
    AccountAfter(env, w, p, o);
    EmptyIsNone();
  }

  lemma EmptyIsNone()
    ensures DecodeFull([]).None?
  {
  }

  /** Slot by slot: a slot the allocation sets holds its value, and is gone when that is zero;
      every other slot of every account keeps its value. */
  lemma SlotAfter(w: World, p: map<Bytes, Patch>, o: Bytes, k: Bytes)
    ensures var before, after := StorageOf(w, o), StorageOf(w.(storage := StorageAfter(w, p, p.Keys)), o);
            if o in p && p[o].storage.Some? && k in p[o].storage.value then
              var v := p[o].storage.value[k];
              if v == [] then k !in after else k in after && after[k] == v
            else if o in p && p[o].storage.Some? then
              && (k in after <==> k in before && before[k] != [])
              && (k in after ==> after[k] == before[k])
            else after == before
  {
    hide Patched;
    if o in p && p[o].storage.Some? {
      PatchedAt(StorageOf(w, o), p[o].storage.value, k);
    }
  }

  lemma NonEmpty(a: Account)
    ensures EncodeFull(a) != []
  {
    FullRoundTrip(a);
  }
}
