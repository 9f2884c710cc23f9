/** Verification by counting: what an artifact's key-value inventory must hold, and why
    equal counts leave no room for anything else. internal/migration/verify.go. */
module Inventory {
  import opened ByteStrings
  import opened KeyValue

  datatype Scheme = HashScheme | PathScheme

  datatype Kind = Metadata | TrieNode | Code | FlatAccount | FlatStorage

  const CODE_PREFIX: byte := 99 // 'c'
  const FLAT_ACCOUNT: byte := 97 // 'a'
  const FLAT_STORAGE: byte := 111 // 'o'
  const ACCOUNT_NODE: byte := 65 // 'A'
  const STORAGE_NODE: byte := 79 // 'O'

  /** "SnapshotRoot", "SnapshotGenerator", "LastStateID" and "SnapSyncStatus". */
  const SNAPSHOT_ROOT: Bytes := [83, 110, 97, 112, 115, 104, 111, 116, 82, 111, 111, 116]
  const SNAPSHOT_GENERATOR: Bytes := [83, 110, 97, 112, 115, 104, 111, 116, 71, 101, 110, 101, 114, 97, 116, 111, 114]
  const STATE_ID: Bytes := [76, 97, 115, 116, 83, 116, 97, 116, 101, 73, 68]
  const SYNC_STATUS: Bytes := [83, 110, 97, 112, 83, 121, 110, 99, 83, 116, 97, 116, 117, 115]

  // Classification.

  predicate HasPrefix(key: Bytes, prefix: byte) { key != [] && key[0] == prefix }

  predicate IsHexPath(path: Bytes) { |path| <= 64 && forall i :: 0 <= i < |path| ==> path[i] < 16 }

  /** isCanonicalPathAccountTrieNodeKey and isCanonicalPathStorageTrieNodeKey. */
  predicate IsPathNode(key: Bytes) {
    || (HasPrefix(key, ACCOUNT_NODE) && IsHexPath(key[1..]))
    || (HasPrefix(key, STORAGE_NODE) && |key| >= 33 && IsHexPath(key[33..]))
  }

  predicate IsCodeEntry(key: Bytes, value: Bytes) { HasPrefix(key, CODE_PREFIX) && |key| == 33 && value != [] }

  predicate IsPathMetadata(key: Bytes) {
    key == SNAPSHOT_ROOT || key == SNAPSHOT_GENERATOR || key == STATE_ID || key == SYNC_STATUS
  }

  /** classifyArtifactEntry; None is a key that belongs to no state. */
  function Classify(H: Hasher, scheme: Scheme, key: Bytes, value: Bytes): Option<Kind> {
    if scheme.HashScheme? then
      if |key| == 32 && key == H(value) then Some(TrieNode)
      else if IsCodeEntry(key, value) then Some(Code)
      else None
    else if IsPathNode(key) then Some(TrieNode)
    else if IsCodeEntry(key, value) then Some(Code)
    else if HasPrefix(key, FLAT_ACCOUNT) && |key| == 33 then Some(FlatAccount)
    else if HasPrefix(key, FLAT_STORAGE) && |key| == 65 then Some(FlatStorage)
    else if IsPathMetadata(key) then Some(Metadata)
    else None
  }

  /** The keys of one kind among some of a database's keys. */
  ghost function KeysOf(H: Hasher, scheme: Scheme, db: Database, head: Database, among: set<Bytes>,
                        kind: Kind): set<Bytes> {
    set k | k in among && IsKind(H, scheme, db, head, k, kind)
  }

  ghost predicate IsKind(H: Hasher, scheme: Scheme, db: Database, head: Database, k: Bytes, kind: Kind) {
    k in db && k !in head && Classify(H, scheme, k, db[k]) == Some(kind)
  }

  ghost function AllOf(H: Hasher, scheme: Scheme, db: Database, head: Database, kind: Kind): set<Bytes> {
    KeysOf(H, scheme, db, head, db.Keys, kind)
  }

  /** Every key is expected metadata with its value, or belongs to the state. */
  ghost predicate Classified(H: Hasher, scheme: Scheme, db: Database, head: Database, among: set<Bytes>) {
    forall k :: k in among && k in db ==> if k in head then db[k] == head[k] else Classify(H, scheme, k, db[k]).Some?
  }

  datatype Expected = Expected(accounts: nat, slots: nat, nodes: nat, codes: nat)

  ghost predicate InventoryOk(H: Hasher, scheme: Scheme, db: Database, head: Database, want: Expected) {
    && Classified(H, scheme, db, head, db.Keys) && head.Keys <= db.Keys
    && |AllOf(H, scheme, db, head, TrieNode)| == want.nodes && |AllOf(H, scheme, db, head, Code)| == want.codes
    && (scheme.PathScheme? ==>
          |AllOf(H, scheme, db, head, FlatAccount)| == want.accounts
              && |AllOf(H, scheme, db, head, FlatStorage)| == want.slots)
  }

  lemma KeysAdd(H: Hasher, scheme: Scheme, db: Database, head: Database, among: set<Bytes>, key: Bytes, kind: Kind)
    requires key in db && key !in among
    ensures |KeysOf(H, scheme, db, head, among + {key}, kind)| == |KeysOf(H, scheme, db, head, among, kind)|
            + (if key !in head && Classify(H, scheme, key, db[key]) == Some(kind) then 1 else 0)
  {
    hide Classify, KeysOf;
    KindAdd(H, scheme, db, head, among, key, kind);
  }

  lemma KindMember(H: Hasher, scheme: Scheme, db: Database, head: Database, among: set<Bytes>, kind: Kind)
    ensures forall k :: k in KeysOf(H, scheme, db, head, among, kind) <==>
            k in among && IsKind(H, scheme, db, head, k, kind)
  {
    hide IsKind;
  }

  lemma KindAdd(H: Hasher, scheme: Scheme, db: Database, head: Database, among: set<Bytes>, key: Bytes, kind: Kind)
    requires key !in among
    ensures |KeysOf(H, scheme, db, head, among + {key}, kind)| == |KeysOf(H, scheme, db, head, among, kind)|
            + (if IsKind(H, scheme, db, head, key, kind) then 1 else 0)
  {
    hide IsKind, KeysOf;
    var a, b := KeysOf(H, scheme, db, head, among, kind), KeysOf(H, scheme, db, head, among + {key}, kind);
    KindMember(H, scheme, db, head, among, kind);
    KindMember(H, scheme, db, head, among + {key}, kind);
    if IsKind(H, scheme, db, head, key, kind) {
      assert b == a + {key};
    } else {
      assert b == a;
    }
  }

  lemma EntryAt(db: Database, records: seq<Record>, i: nat, seen: set<Bytes>)
    requires Sorted(records) && AsMap(records) == db && i < |records|
    requires forall k :: k in seen <==> HasKey(records[..i], k)
    ensures records[i].key in db && db[records[i].key] == records[i].value && records[i].key !in seen
    ensures forall k :: k in seen + {records[i].key} <==> HasKey(records[..i + 1], k)
  {
    hide AsMap, Sorted;
    AsMapHolds(records, records[i]);
    DistinctKeys(records);
    assert records[..i + 1] == records[..i] + [records[i]];
    forall k
      ensures HasKey(records[..i + 1], k) <==> HasKey(records[..i], k) || k == records[i].key
    {
      if HasKey(records[..i], k) {
        var j :| 0 <= j < i && records[..i][j].key == k;
        assert records[..i + 1][j].key == k;
      }
      if k == records[i].key {
        assert records[..i + 1][i].key == k;
      }
      if HasKey(records[..i + 1], k) && k != records[i].key {
        var j :| 0 <= j < i + 1 && records[..i + 1][j].key == k;
        assert records[..i][j].key == k;
      }
    }
  }

  lemma EntriesSeen(db: Database, records: seq<Record>, seen: set<Bytes>)
    requires Sorted(records) && AsMap(records) == db
    requires forall k :: k in seen <==> HasKey(records[..|records|], k)
    ensures seen == db.Keys
  {
    hide AsMap, Sorted;
    assert records[..|records|] == records;
    forall k
      ensures k in seen <==> k in db
    {
      AsMapHolds(records, Record.Record(k, []));
    }
  }

  /** verifyDatabaseInventory: one pass over the database, striking expected metadata off
      a list and counting the rest by kind. */
  method VerifyDatabaseInventory(H: Hasher, scheme: Scheme, db: Database, head: Database, want: Expected)
    returns (ok: bool)
    ensures ok <==> InventoryOk(H, scheme, db, head, want)
  {
    hide AsMap, Sorted, HasKey, Classify, KeysOf;
    var records := Iterate(db);
    var missing := head;
    var accounts, slots, nodes, codes := 0, 0, 0, 0;
    ghost var seen: set<Bytes> := {};
    NoKeys(H, scheme, db, head, records);
    for i := 0 to |records|
      invariant forall k :: k in seen <==> HasKey(records[..i], k)
      invariant missing == map k | k in head && k !in seen :: head[k]
      invariant seen <= db.Keys && Classified(H, scheme, db, head, seen)
      invariant nodes == |KeysOf(H, scheme, db, head, seen, TrieNode)|
                && codes == |KeysOf(H, scheme, db, head, seen, Code)|
      invariant accounts == |KeysOf(H, scheme, db, head, seen, FlatAccount)|
                && slots == |KeysOf(H, scheme, db, head, seen, FlatStorage)|
    {
      EntryAt(db, records, i, seen);
      var key := records[i].key;
      KeysAdd(H, scheme, db, head, seen, key, TrieNode);
      KeysAdd(H, scheme, db, head, seen, key, Code);
      KeysAdd(H, scheme, db, head, seen, key, FlatAccount);
      KeysAdd(H, scheme, db, head, seen, key, FlatStorage);
      if key in missing {
        if records[i].value != missing[key] {
          return false;
        }
        missing := missing - {key};
      } else {
        var kind := Classify(H, scheme, key, records[i].value);
        if kind.None? {
          return false;
        }
        match kind.value {
          case TrieNode => nodes := nodes + 1;
          case Code => codes := codes + 1;
          case FlatAccount => accounts := accounts + 1;
          case FlatStorage => slots := slots + 1;
          case Metadata =>
        }
      }
      seen := seen + {key};
    }
    EntriesSeen(db, records, seen);
    assert missing != map[] ==> exists k :: k in head && k !in db by {
      if missing != map[] {
        var k :| k in missing;
        assert k in head && k !in db;
      }
    }
    if missing != map[] {
      return false;
    }
    assert head.Keys <= db.Keys by {
      assert forall k :: k in head && k !in db ==> k in missing;
    }
    if scheme.PathScheme? && (accounts != want.accounts || slots != want.slots) {
      return false;
    }
    ok := nodes == want.nodes && codes == want.codes;
  }

  lemma NoKeys(H: Hasher, scheme: Scheme, db: Database, head: Database, records: seq<Record>)
    ensures forall kind :: KeysOf(H, scheme, db, head, {}, kind) == {}
    ensures forall k :: !HasKey(records[..0], k)
  {
    hide IsKind;
  }
}
