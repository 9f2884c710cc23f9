/** When a traversal and the inventory both accept, the artifact holds exactly the
    expected keys. */
module InventoryExact {
  import opened ByteStrings
  import opened KeyValue
  import opened Inventory

  // The traversal's side.

  /** A trie node met by the traversal: its owner (None is the account trie), its path and its hash. */
  datatype Visit = Visit(owner: Option<Hash>, path: Bytes, hash: Hash)

  /** Where a node is stored. */
  function NodeKey(scheme: Scheme, v: Visit): Bytes {
    if scheme.HashScheme? then v.hash
    else if v.owner.None? then [ACCOUNT_NODE] + v.path
    else [STORAGE_NODE] + v.owner.value + v.path
  }

  ghost function NodeKeys(scheme: Scheme, visits: seq<Visit>): set<Bytes> {
    set i | 0 <= i < |visits| :: NodeKey(scheme, visits[i])
  }

  /** stateInventoryTracker: distinct hashes in the hash scheme, visits in the path scheme. */
  class Tracker {
    const scheme: Scheme
    var hashes: set<Hash>
    var count: nat

    constructor (scheme: Scheme)
      ensures this.scheme == scheme && hashes == {} && count == 0
    {
      this.scheme := scheme;
      hashes, count := {}, 0;
    }

    method RecordTrieNode(hash: Hash)
      modifies this
      ensures hashes == if scheme.HashScheme? then old(hashes) + {hash} else old(hashes)
      ensures count == if scheme.PathScheme? then old(count) + 1 else old(count)
    {
      if scheme.HashScheme? {
        hashes := hashes + {hash};
      } else {
        count := count + 1;
      }
    }

    function TrieNodes(): nat
      reads this
    {
      if scheme.HashScheme? then |hashes| else count
    }
  }

  /** A traversal meets each node of each trie once, at a path of nibbles. */
  ghost predicate VisitsValid(visits: seq<Visit>) {
    && (forall i, j :: 0 <= i < j < |visits| ==> visits[i].owner != visits[j].owner || visits[i].path != visits[j].path)
    && (forall i :: 0 <= i < |visits| ==> IsHexPath(visits[i].path))
  }

  lemma PathKeysDiffer(u: Visit, v: Visit)
    requires u.owner != v.owner || u.path != v.path
    ensures NodeKey(PathScheme, u) != NodeKey(PathScheme, v)
  {
    var a, b := NodeKey(PathScheme, u), NodeKey(PathScheme, v);
    if u.owner.None? && v.owner.None? {
      assert a[1..] == u.path && b[1..] == v.path;
    } else if u.owner.Some? && v.owner.Some? {
      assert a[1..33] == u.owner.value && b[1..33] == v.owner.value;
      assert a[33..] == u.path && b[33..] == v.path;
    } else {
      assert a[0] != b[0];
    }
  }

  /** The count the traversal reports is the number of keys its nodes are stored under. */
  method TrackNodes(scheme: Scheme, visits: seq<Visit>) returns (nodes: nat)
    requires VisitsValid(visits)
    ensures nodes == |NodeKeys(scheme, visits)|
  {
    hide VisitsValid, NodeKeys;
    var t := new Tracker(scheme);
    NoVisits(scheme, visits);
    for i := 0 to |visits|
      invariant fresh(t) && t.scheme == scheme
      invariant scheme.HashScheme? ==> t.hashes == NodeKeys(scheme, visits[..i])
      invariant scheme.PathScheme? ==> t.count == |NodeKeys(scheme, visits[..i])|
    {
      NextVisit(scheme, visits, i);
      t.RecordTrieNode(visits[i].hash);
    }
    assert visits[..|visits|] == visits;
    nodes := t.TrieNodes();
  }

  lemma NoVisits(scheme: Scheme, visits: seq<Visit>)
    ensures NodeKeys(scheme, visits[..0]) == {}
  {
  }

  lemma NextVisit(scheme: Scheme, visits: seq<Visit>, i: nat)
    requires VisitsValid(visits) && i < |visits|
    ensures NodeKeys(scheme, visits[..i + 1]) == NodeKeys(scheme, visits[..i]) + {NodeKey(scheme, visits[i])}
    ensures scheme.PathScheme? ==> NodeKey(scheme, visits[i]) !in NodeKeys(scheme, visits[..i])
  {
    hide NodeKey, IsHexPath;
    var a, b := NodeKeys(scheme, visits[..i]), NodeKeys(scheme, visits[..i + 1]);
    forall k
      ensures k in b <==> k in a + {NodeKey(scheme, visits[i])}
    {
      if k in a {
        var j :| 0 <= j < i && k == NodeKey(scheme, visits[..i][j]);
        assert visits[..i + 1][j] == visits[j];
      }
      if k == NodeKey(scheme, visits[i]) {
        assert visits[..i + 1][i] == visits[i];
      }
      if k in b {
        var j :| 0 <= j < i + 1 && k == NodeKey(scheme, visits[..i + 1][j]);
        if j < i {
          assert visits[..i][j] == visits[j];
        }
      }
    }
    if scheme.PathScheme? {
      forall j | 0 <= j < i
        ensures NodeKey(scheme, visits[..i][j]) != NodeKey(scheme, visits[i])
      {
        PathKeysDiffer(visits[j], visits[i]);
      }
    }
  }

  // The flat state's side.

  datatype Callback = AccountCall(hash: Hash, slim: Bytes) | StorageCall(account: Hash, slot: Hash, value: Bytes)

  function FlatRecord(c: Callback): Record {
    match c
    case AccountCall(hash, slim) => Record.Record([FLAT_ACCOUNT] + hash, slim)
    case StorageCall(account, slot, value) => Record.Record([FLAT_STORAGE] + account + slot, value)
  }

  /** The flat entries that the callbacks of one kind call for, in order. */
  function FlatWanted(calls: seq<Callback>, accounts: bool, n: nat): seq<Record>
    requires n <= |calls|
  {
    if n == 0 then []
    else FlatWanted(calls, accounts, n - 1) + (if calls[n - 1].AccountCall? == accounts
        then [FlatRecord(calls[n - 1])] else [])
  }

  /** flatStateVerifier: two iterators advanced in lockstep with the traversal. It accepts
      exactly when each prefix holds the wanted entries, in order, and nothing else. */
  method VerifyFlat(accounts: seq<Record>, storage: seq<Record>, calls: seq<Callback>) returns (ok: bool)
    ensures ok <==> accounts == FlatWanted(calls, true, |calls|) && storage == FlatWanted(calls, false, |calls|)
  {
    hide FlatRecord;
    var a, s := 0, 0;
    for i := 0 to |calls|
      invariant a <= |accounts| && s <= |storage|
      invariant accounts[..a] == FlatWanted(calls, true, i) && storage[..s] == FlatWanted(calls, false, i)
    {
      var want := FlatRecord(calls[i]);
      if calls[i].AccountCall? {
        if a == |accounts| || accounts[a] != want {
          Mismatch(calls, true, i, accounts, a);
          return false;
        }
        assert accounts[..a + 1] == accounts[..a] + [want];
        a := a + 1;
      } else {
        if s == |storage| || storage[s] != want {
          Mismatch(calls, false, i, storage, s);
          return false;
        }
        assert storage[..s + 1] == storage[..s] + [want];
        s := s + 1;
      }
    }
    assert accounts[..|accounts|] == accounts && storage[..|storage|] == storage;
    ok := a == |accounts| && s == |storage|;
    if !ok {
      assert |accounts[..a]| == a && |storage[..s]| == s;
    }
  }

  lemma {:induction false} WantedGrows(calls: seq<Callback>, accounts: bool, i: nat, n: nat)
    requires i <= n <= |calls|
    ensures FlatWanted(calls, accounts, i) <= FlatWanted(calls, accounts, n)
    decreases n
  {
    hide FlatRecord;
    if i < n {
      WantedGrows(calls, accounts, i, n - 1);
    }
  }

  lemma Mismatch(calls: seq<Callback>, accounts: bool, i: nat, have: seq<Record>, at: nat)
    requires i < |calls| && calls[i].AccountCall? == accounts && at <= |have|
    requires have[..at] == FlatWanted(calls, accounts, i)
    requires at == |have| || have[at] != FlatRecord(calls[i])
    ensures have != FlatWanted(calls, accounts, |calls|)
  {
    hide FlatRecord;
    WantedGrows(calls, accounts, i + 1, |calls|);
    assert |have[..at]| == at;
    assert FlatWanted(calls, accounts, i + 1)[at] == FlatRecord(calls[i]);
  }

  /** The keys under which the flat callbacks' entries lie. */
  ghost function FlatKeys(calls: seq<Callback>): set<Bytes> { set i | 0 <= i < |calls| :: FlatRecord(calls[i]).key }

  // Head metadata.

  /** Keys that no state entry can have. */
  predicate Apart(k: Bytes) {
    && k != [] && |k| != 32 && k[0] !in {CODE_PREFIX, FLAT_ACCOUNT, FLAT_STORAGE, ACCOUNT_NODE, STORAGE_NODE}
    && !IsPathMetadata(k)
  }

  /** The header, its number, the canonical hash, LastBlock and LastHeader, and for a
      converted state an empty body. */
  function HeadMetadata(number: nat, hash: Hash, header: Bytes, body: Option<Bytes>): Database {
    var n := Fixed(number, 8);
    var entries: Database :=
      map[[104] + n + hash := header, [72] + hash := n, [104] + n + [110] := hash,
          [76, 97, 115, 116, 66, 108, 111, 99, 107] := hash, [76, 97, 115, 116, 72, 101, 97, 100, 101, 114] := hash];
    if body.Some? then entries[[98] + n + hash := body.value] else entries
  }

  lemma HeadApart(number: nat, hash: Hash, header: Bytes, body: Option<Bytes>)
    ensures forall k :: k in HeadMetadata(number, hash, header, body) ==> Apart(k)
  {
    hide Fixed;
  }

  // The theorem.

  /** What a traversal of the artifact has established: every node and code it read, and the
      callbacks it made, each key at most once. */
  datatype Reached = Reached(visits: seq<Visit>, codes: set<Hash>, calls: seq<Callback>)

  function CodeKey(h: Hash): Bytes { [CODE_PREFIX] + h }

  ghost function CodeKeys(codes: set<Hash>): set<Bytes> { set h | h in codes :: CodeKey(h) }

  ghost predicate Read(db: Database, scheme: Scheme, r: Reached) {
    && NodeKeys(scheme, r.visits) <= db.Keys
    && (forall h :: h in r.codes ==> CodeKey(h) in db && db[CodeKey(h)] != [])
  }

  /** The keys an artifact should hold. */
  ghost function WantedKeys(scheme: Scheme, head: Database, r: Reached): set<Bytes> {
    head.Keys + NodeKeys(scheme, r.visits) + CodeKeys(r.codes) +
    (if scheme.PathScheme? then FlatKeys(r.calls) + {SNAPSHOT_ROOT, SNAPSHOT_GENERATOR, STATE_ID, SYNC_STATUS} else {})
  }

  lemma {:induction false} SameSize<T>(a: set<T>, b: set<T>)
    requires a <= b && |a| == |b|
    ensures a == b
    decreases |a|
  {
    if a != {} {
      var x :| x in a;
      SameSize(a - {x}, b - {x});
      assert a == a - {x} + {x} && b == b - {x} + {x};
    }
  }

  lemma {:induction false} CodeKeyCount(codes: set<Hash>)
    ensures |CodeKeys(codes)| == |codes|
    decreases |codes|
  {
    hide CodeKey;
    if codes != {} {
      var h :| h in codes;
      CodeKeyCount(codes - {h});
      forall g | g in codes && CodeKey(g) == CodeKey(h)
        ensures g == h
      {
        CodeKeyInjective(g, h);
      }
      assert CodeKeys(codes) == CodeKeys(codes - {h}) + {CodeKey(h)};
    } else {
      assert CodeKeys(codes) == {};
    }
  }

  lemma CodeKeyInjective(g: Hash, h: Hash)
    requires CodeKey(g) == CodeKey(h)
    ensures g == h
  {
    assert CodeKey(g)[1..] == g && CodeKey(h)[1..] == h;
  }

  /** A visited node's key is a node key and nothing else. */
  lemma NodeIsNode(H: Hasher, scheme: Scheme, db: Database, head: Database, r: Reached, k: Bytes)
    requires (forall m :: m in head ==> Apart(m)) && VisitsValid(r.visits)
    requires Classified(H, scheme, db, head, db.Keys) && k in NodeKeys(scheme, r.visits) && k in db
    ensures IsKind(H, scheme, db, head, k, TrieNode)
  {
    hide VisitsValid, IsHexPath, IsPathMetadata;
    var i :| 0 <= i < |r.visits| && k == NodeKey(scheme, r.visits[i]);
    PathOf(r.visits, i);
    var v := r.visits[i];
    if scheme.PathScheme? {
      if v.owner.None? {
        assert k[1..] == v.path;
      } else {
        assert k[33..] == v.path;
      }
    }
  }

  lemma PathOf(visits: seq<Visit>, i: nat)
    requires VisitsValid(visits) && i < |visits|
    ensures IsHexPath(visits[i].path)
  {
  }

  lemma CodeIsCode(H: Hasher, scheme: Scheme, db: Database, head: Database, h: Hash)
    requires forall m :: m in head ==> Apart(m)
    requires CodeKey(h) in db && db[CodeKey(h)] != []
    ensures IsKind(H, scheme, db, head, CodeKey(h), Code)
  {
    hide IsHexPath, IsPathMetadata;
  }

  /** Equal counts leave no unreached node and no unreached code. */
  lemma NothingExtra(H: Hasher, scheme: Scheme, db: Database, head: Database, r: Reached, want: Expected)
    requires (forall m :: m in head ==> Apart(m)) && VisitsValid(r.visits) && Read(db, scheme, r)
    requires InventoryOk(H, scheme, db, head, want)
    requires want.nodes == |NodeKeys(scheme, r.visits)| && want.codes == |r.codes|
    ensures AllOf(H, scheme, db, head, TrieNode) == NodeKeys(scheme, r.visits)
    ensures AllOf(H, scheme, db, head, Code) == CodeKeys(r.codes)
  {
    hide VisitsValid, IsKind, Classified, Apart, NodeKeys, CodeKey;
    forall k | k in NodeKeys(scheme, r.visits)
      ensures k in AllOf(H, scheme, db, head, TrieNode)
    {
      NodeIsNode(H, scheme, db, head, r, k);
    }
    SameSize(NodeKeys(scheme, r.visits), AllOf(H, scheme, db, head, TrieNode));
    forall k | k in CodeKeys(r.codes)
      ensures k in AllOf(H, scheme, db, head, Code)
    {
      var h :| h in r.codes && k == CodeKey(h);
      CodeIsCode(H, scheme, db, head, h);
    }
    CodeKeyCount(r.codes);
    SameSize(CodeKeys(r.codes), AllOf(H, scheme, db, head, Code));
  }

  /** The flat iterators see exactly the keys with their prefix. */
  ghost predicate FlatView(db: Database, prefix: byte, records: seq<Record>) {
    && (forall r :: r in records ==> r.key in db && db[r.key] == r.value && HasPrefix(r.key, prefix))
    && (forall k :: k in db && HasPrefix(k, prefix) ==> Record.Record(k, db[k]) in records)
  }

  lemma {:induction false} WantedMember(calls: seq<Callback>, accounts: bool, n: nat, r: Record)
    requires n <= |calls|
    ensures r in FlatWanted(calls, accounts, n) <==>
            exists i :: 0 <= i < n && calls[i].AccountCall? == accounts && FlatRecord(calls[i]) == r
  {
    hide FlatRecord;
    if n > 0 {
      WantedMember(calls, accounts, n - 1, r);
    }
  }

  /** Lockstep acceptance leaves exactly the called-for flat keys. */
  lemma FlatExact(db: Database, accounts: seq<Record>, storage: seq<Record>, calls: seq<Callback>, k: Bytes)
    requires FlatView(db, FLAT_ACCOUNT, accounts) && FlatView(db, FLAT_STORAGE, storage)
    requires accounts == FlatWanted(calls, true, |calls|) && storage == FlatWanted(calls, false, |calls|)
    ensures k in FlatKeys(calls) <==> k in db && (HasPrefix(k, FLAT_ACCOUNT) || HasPrefix(k, FLAT_STORAGE))
  {
    hide FlatRecord;
    if k in FlatKeys(calls) {
      var i :| 0 <= i < |calls| && k == FlatRecord(calls[i]).key;
      WantedMember(calls, calls[i].AccountCall?, |calls|, FlatRecord(calls[i]));
    }
    if k in db && HasPrefix(k, FLAT_ACCOUNT) {
      WantedMember(calls, true, |calls|, Record.Record(k, db[k]));
    }
    if k in db && HasPrefix(k, FLAT_STORAGE) {
      WantedMember(calls, false, |calls|, Record.Record(k, db[k]));
    }
  }

  /** verifyPathMetadata: the snapshot root, a finished generator marker, state ID zero and a finished sync. */
  function PathMetadata(root: Hash): Database {
    map[SNAPSHOT_ROOT := root, SNAPSHOT_GENERATOR := [0xc6, 0x80, 0x01, 0x80, 0x80, 0x80, 0x80],
        STATE_ID := [0, 0, 0, 0, 0, 0, 0, 0], SYNC_STATUS := [2]]
  }

  ghost predicate PathMetadataOk(db: Database, root: Hash) {
    forall k :: k in PathMetadata(root) ==> k in db && db[k] == PathMetadata(root)[k]
  }

  lemma PathMetadataKeys(root: Hash)
    ensures PathMetadata(root).Keys == {SNAPSHOT_ROOT, SNAPSHOT_GENERATOR, STATE_ID, SYNC_STATUS}
  {
  }

  /** Everything an accepting verification has checked. */
  ghost predicate Accepted(H: Hasher, scheme: Scheme, db: Database, head: Database, r: Reached, want: Expected,
                           root: Hash, accounts: seq<Record>, storage: seq<Record>) {
    && VisitsValid(r.visits) && Read(db, scheme, r) && InventoryOk(H, scheme, db, head, want)
    && want.nodes == |NodeKeys(scheme, r.visits)| && want.codes == |r.codes|
    && (scheme.PathScheme? ==>
          && FlatView(db, FLAT_ACCOUNT, accounts) && FlatView(db, FLAT_STORAGE, storage)
          && accounts == FlatWanted(r.calls, true, |r.calls|) && storage == FlatWanted(r.calls, false, |r.calls|)
          && PathMetadataOk(db, root))
  }

  /** Verification by counting is exact: nothing is missing and nothing is extra. */
  lemma CountingIsExact(H: Hasher, scheme: Scheme, db: Database, head: Database, r: Reached, want: Expected,
                        root: Hash, accounts: seq<Record>, storage: seq<Record>)
    requires (forall m :: m in head ==> Apart(m)) && Accepted(H, scheme, db, head, r, want, root, accounts, storage)
    ensures db.Keys == WantedKeys(scheme, head, r)
    ensures forall k :: k in head ==> db[k] == head[k]
    ensures scheme.PathScheme? ==> PathMetadataOk(db, root)
  {
    hide VisitsValid, NodeKeys, CodeKeys, FlatView, FlatWanted, FlatKeys, KeysOf, Read, Apart;
    NothingExtra(H, scheme, db, head, r, want);
    PathMetadataKeys(root);
    forall k
      ensures k in db <==> k in WantedKeys(scheme, head, r)
    {
      if scheme.PathScheme? {
        FlatExact(db, accounts, storage, r.calls, k);
      }
      KeyIsWanted(H, scheme, db, head, r, k);
    }
  }

  lemma KeyIsWanted(H: Hasher, scheme: Scheme, db: Database, head: Database, r: Reached, k: Bytes)
    requires forall m :: m in head ==> Apart(m)
    requires Classified(H, scheme, db, head, db.Keys) && head.Keys <= db.Keys
    requires AllOf(H, scheme, db, head, TrieNode) == NodeKeys(scheme, r.visits)
    requires AllOf(H, scheme, db, head, Code) == CodeKeys(r.codes)
    requires scheme.PathScheme? ==>
               && {SNAPSHOT_ROOT, SNAPSHOT_GENERATOR, STATE_ID, SYNC_STATUS} <= db.Keys
               && (k in FlatKeys(r.calls) <==> k in db && (HasPrefix(k, FLAT_ACCOUNT) || HasPrefix(k, FLAT_STORAGE)))
    ensures k in db <==> k in WantedKeys(scheme, head, r)
  {
    hide NodeKeys, CodeKeys, FlatKeys, IsHexPath, Apart;
    InAllOf(H, scheme, db, head, k, TrieNode);
    InAllOf(H, scheme, db, head, k, Code);
    if k in db && k !in head {
      assert Classify(H, scheme, k, db[k]).Some?;
    }
  }

  lemma InAllOf(H: Hasher, scheme: Scheme, db: Database, head: Database, k: Bytes, kind: Kind)
    ensures k in AllOf(H, scheme, db, head, kind) <==> IsKind(H, scheme, db, head, k, kind)
  {
    hide Classify;
  }

  /** Flat keys of one length. */
  ghost function FlatOf(calls: seq<Callback>, accounts: bool): set<Bytes> {
    set i | 0 <= i < |calls| && calls[i].AccountCall? == accounts :: FlatRecord(calls[i]).key
  }

  /** A key is of a kind exactly when it is wanted as that kind. */
  ghost predicate KindsMatch(H: Hasher, scheme: Scheme, db: Database, head: Database, r: Reached, k: Bytes) {
    && (k in AllOf(H, scheme, db, head, TrieNode) <==> k in NodeKeys(scheme, r.visits))
    && (k in AllOf(H, scheme, db, head, Code) <==> k in CodeKeys(r.codes))
    && (scheme.PathScheme? ==>
          && (k in AllOf(H, scheme, db, head, FlatAccount) <==> k in FlatOf(r.calls, true))
          && (k in AllOf(H, scheme, db, head, FlatStorage) <==> k in FlatOf(r.calls, false)))
  }

  /** The other direction: an artifact with exactly the wanted keys passes the inventory. */
  lemma ExactPasses(H: Hasher, scheme: Scheme, db: Database, head: Database, r: Reached)
    requires (forall m :: m in head ==> Apart(m)) && VisitsValid(r.visits) && Read(db, scheme, r)
    requires db.Keys == WantedKeys(scheme, head, r) && forall k :: k in head ==> db[k] == head[k]
    requires scheme.HashScheme? ==> forall k :: k in NodeKeys(scheme, r.visits) ==> k == H(db[k])
    ensures InventoryOk(H, scheme, db, head,
                        Expected(|FlatOf(r.calls, true)|, |FlatOf(r.calls, false)|, |NodeKeys(scheme, r.visits)|,
                            |r.codes|))
  {
    hide VisitsValid, NodeKeys, CodeKeys, FlatKeys, KeysOf, Read, Apart, Classify, FlatOf, KindsMatch, AllOf;
    forall k | k in db
      ensures (k !in head ==> Classify(H, scheme, k, db[k]).Some?) && KindsMatch(H, scheme, db, head, r, k)
    {
      WantedIsClassified(H, scheme, db, head, r, k);
    }
    SubsetOf(H, scheme, db, head, r);
    CodeKeyCount(r.codes);
  }

  /** Each wanted key is of its own kind only. */
  lemma WantedIsClassified(H: Hasher, scheme: Scheme, db: Database, head: Database, r: Reached, k: Bytes)
    requires (forall m :: m in head ==> Apart(m)) && VisitsValid(r.visits) && Read(db, scheme, r)
    requires k in db && k in WantedKeys(scheme, head, r)
    requires scheme.HashScheme? ==> forall x :: x in NodeKeys(scheme, r.visits) ==> x in db && x == H(db[x])
    ensures k !in head ==> Classify(H, scheme, k, db[k]).Some?
    ensures KindsMatch(H, scheme, db, head, r, k)
  {
    hide VisitsValid, NodeKeys, CodeKeys, FlatKeys, KeysOf, Read, IsHexPath, FlatOf, AllOf;
    InAllOf(H, scheme, db, head, k, TrieNode);
    InAllOf(H, scheme, db, head, k, Code);
    InAllOf(H, scheme, db, head, k, FlatAccount);
    InAllOf(H, scheme, db, head, k, FlatStorage);
    NodeShape(scheme, r, k);
    CodeShape(db, scheme, r, k);
    FlatShape(r.calls, k);
  }

  lemma NodeShape(scheme: Scheme, r: Reached, k: Bytes)
    requires VisitsValid(r.visits)
    ensures k in NodeKeys(scheme, r.visits) ==> if scheme.HashScheme? then |k| == 32 else IsPathNode(k)
  {
    hide VisitsValid, IsHexPath;
    if k in NodeKeys(scheme, r.visits) {
      var i :| 0 <= i < |r.visits| && k == NodeKey(scheme, r.visits[i]);
      PathOf(r.visits, i);
      if scheme.PathScheme? && r.visits[i].owner.None? {
        assert k[1..] == r.visits[i].path;
      } else if scheme.PathScheme? {
        assert k[33..] == r.visits[i].path;
      }
    }
  }

  lemma CodeShape(db: Database, scheme: Scheme, r: Reached, k: Bytes)
    requires Read(db, scheme, r)
    ensures k in CodeKeys(r.codes) ==> k in db && IsCodeEntry(k, db[k])
  {
  }

  lemma FlatShape(calls: seq<Callback>, k: Bytes)
    ensures k in FlatKeys(calls) <==> k in FlatOf(calls, true) || k in FlatOf(calls, false)
    ensures k in FlatOf(calls, true) ==> HasPrefix(k, FLAT_ACCOUNT) && |k| == 33
    ensures k in FlatOf(calls, false) ==> HasPrefix(k, FLAT_STORAGE) && |k| == 65
  {
  }

  lemma SubsetOf(H: Hasher, scheme: Scheme, db: Database, head: Database, r: Reached)
    requires db.Keys == WantedKeys(scheme, head, r)
    requires forall k :: k in db ==> KindsMatch(H, scheme, db, head, r, k)
    ensures AllOf(H, scheme, db, head, TrieNode) == NodeKeys(scheme, r.visits)
    ensures AllOf(H, scheme, db, head, Code) == CodeKeys(r.codes)
    ensures scheme.PathScheme? ==>
              AllOf(H, scheme, db, head, FlatAccount) == FlatOf(r.calls, true)
                  && AllOf(H, scheme, db, head, FlatStorage) == FlatOf(r.calls, false)
  {
    hide NodeKeys, CodeKeys, FlatKeys, FlatOf, IsKind;
    forall k
      ensures k in FlatOf(r.calls, true) + FlatOf(r.calls, false) ==> k in FlatKeys(r.calls)
    {
      FlatShape(r.calls, k);
    }
    assert forall kind, k :: k in AllOf(H, scheme, db, head, kind) ==> k in db;
  }
}
