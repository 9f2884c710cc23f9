/** The verification of an opened artifact, from end to end: verifyOpenedTarget in
    internal/migration/verify.go. */
module InventoryVerify {
  import opened ByteStrings
  import opened KeyValue
  import opened Inventory
  import opened InventoryExact

  /** The traversal meets accounts, and slots within each account, in key order. */
  ghost predicate CallsOrdered(calls: seq<Callback>) {
    Sorted(FlatWanted(calls, true, |calls|)) && Sorted(FlatWanted(calls, false, |calls|))
  }

  /** An artifact that holds exactly the state: the wanted keys and no others, with their values. */
  ghost predicate Exact(H: Hasher, scheme: Scheme, db: Database, head: Database, root: Hash, r: Reached) {
    && db.Keys == WantedKeys(scheme, head, r) && (forall k :: k in head ==> db[k] == head[k])
    && (forall h :: h in r.codes ==> CodeKey(h) in db && db[CodeKey(h)] != [])
    && (scheme.HashScheme? ==> forall k :: k in NodeKeys(scheme, r.visits) ==> k in db && k == H(db[k]))
    && (scheme.PathScheme? ==> PathMetadataOk(db, root) && FlatHolds(db, r.calls))
  }

  ghost predicate FlatHolds(db: Database, calls: seq<Callback>) {
    forall i :: 0 <= i < |calls| ==> var f := FlatRecord(calls[i]); f.key in db && db[f.key] == f.value
  }

  // Sorted records are determined by their members.

  lemma {:induction false} SortedSame(a: seq<Record>, b: seq<Record>)
    requires Sorted(a) && Sorted(b) && forall r :: r in a <==> r in b
    ensures a == b
    decreases |a|
  {
    hide Less;
    assert b != [] ==> b[0] in a;
    if a != [] {
      assert a[0] in b;
      FirstSame(a, b);
      DistinctKeys(a);
      DistinctKeys(b);
      forall r
        ensures r in a[1..] <==> r in b[1..]
      {
        assert r in a <==> r == a[0] || r in a[1..];
        assert r in b <==> r == b[0] || r in b[1..];
      }
      SortedSame(a[1..], b[1..]);
      assert a == [a[0]] + a[1..] && b == [b[0]] + b[1..];
    }
  }

  lemma FirstSame(a: seq<Record>, b: seq<Record>)
    requires Sorted(a) && Sorted(b) && a != [] && b != [] && (forall r :: r in a <==> r in b)
    ensures a[0] == b[0]
  {
    hide Less;
    assert a[0] in b && b[0] in a;
    var i :| 0 <= i < |b| && b[i] == a[0];
    var j :| 0 <= j < |a| && a[j] == b[0];
    LessTrichotomy(a[0].key, b[0].key);
  }

  lemma {:induction false} KeyCount(records: seq<Record>, keys: set<Bytes>)
    requires Sorted(records) && forall k :: k in keys <==> HasKey(records, k)
    ensures |keys| == |records|
    decreases |records|
  {
    if records == [] {
      assert keys == {};
    } else {
      var n := |records| - 1;
      var last := records[n];
      DistinctKeys(records);
      assert HasKey(records, last.key);
      forall k
        ensures k in keys - {last.key} <==> HasKey(records[..n], k)
      {
        if HasKey(records[..n], k) {
          var i :| 0 <= i < n && records[..n][i].key == k;
          assert records[i].key == k;
        }
        if k in keys - {last.key} {
          var i :| 0 <= i < |records| && records[i].key == k;
          assert records[..n][i].key == k;
        }
      }
      KeyCount(records[..n], keys - {last.key});
    }
  }

  // The flat state.

  function WithPrefix(db: Database, prefix: byte): Database { map k | k in db && HasPrefix(k, prefix) :: db[k] }

  lemma ViewOf(db: Database, prefix: byte, records: seq<Record>)
    requires Sorted(records) && AsMap(records) == WithPrefix(db, prefix)
    ensures FlatView(db, prefix, records)
  {
    hide AsMap, Sorted;
    forall r | r in records
      ensures r.key in db && db[r.key] == r.value && HasPrefix(r.key, prefix)
    {
      AsMapHolds(records, r);
    }
    forall k | k in db && HasPrefix(k, prefix)
      ensures Record.Record(k, db[k]) in records
    {
      AsMapHolds(records, Record.Record(k, db[k]));
    }
  }

  lemma FlatKeyShape(c: Callback)
    ensures var k := FlatRecord(c).key;
            if c.AccountCall? then HasPrefix(k, FLAT_ACCOUNT) && |k| == 33 else HasPrefix(k, FLAT_STORAGE) && |k| == 65
  {
  }

  lemma CodePrefixed(codes: set<Hash>, k: Bytes)
    ensures k in CodeKeys(codes) ==> HasPrefix(k, CODE_PREFIX)
  {
  }

  /** A wanted key with a flat prefix is a flat key. */
  lemma WantedFlat(head: Database, r: Reached, k: Bytes)
    requires (forall m :: m in head ==> Apart(m)) && VisitsValid(r.visits)
    requires k in WantedKeys(PathScheme, head, r) && (HasPrefix(k, FLAT_ACCOUNT) || HasPrefix(k, FLAT_STORAGE))
    ensures exists i :: 0 <= i < |r.calls| && FlatRecord(r.calls[i]).key == k
  {
    hide VisitsValid, NodeKeys, FlatRecord, IsHexPath, CodeKeys;
    NodeShape(PathScheme, r, k);
    CodePrefixed(r.codes, k);
    assert k in FlatKeys(r.calls);
  }

  /** With exactly the wanted keys and values, each flat iterator sees the traversal's leaves. */
  lemma FlatSame(H: Hasher, db: Database, head: Database, root: Hash, r: Reached, accounts: bool, records: seq<Record>)
    requires (forall m :: m in head ==> Apart(m)) && VisitsValid(r.visits) && CallsOrdered(r.calls)
    requires Exact(H, PathScheme, db, head, root, r)
    requires Sorted(records) && FlatView(db, if accounts then FLAT_ACCOUNT else FLAT_STORAGE, records)
    ensures records == FlatWanted(r.calls, accounts, |r.calls|)
  {
    hide VisitsValid, FlatRecord, NodeKeys, Sorted, FlatWanted;
    var wanted := FlatWanted(r.calls, accounts, |r.calls|);
    forall x
      ensures x in records <==> x in wanted
    {
      WantedMember(r.calls, accounts, |r.calls|, x);
      if x in records {
        WantedFlat(head, r, x.key);
        var i :| 0 <= i < |r.calls| && FlatRecord(r.calls[i]).key == x.key;
        FlatKeyShape(r.calls[i]);
        assert FlatRecord(r.calls[i]) == x;
      }
      if x in wanted {
        var i :| 0 <= i < |r.calls| && r.calls[i].AccountCall? == accounts && FlatRecord(r.calls[i]) == x;
        FlatKeyShape(r.calls[i]);
      }
    }
    assert CallsOrdered(r.calls);
    SortedSame(records, wanted) by { assert Sorted(wanted); }
  }

  lemma FlatCounts(calls: seq<Callback>, accounts: bool)
    requires CallsOrdered(calls)
    ensures |FlatOf(calls, accounts)| == |FlatWanted(calls, accounts, |calls|)|
  {
    hide FlatRecord, FlatWanted, Sorted;
    var wanted := FlatWanted(calls, accounts, |calls|);
    forall k
      ensures k in FlatOf(calls, accounts) <==> HasKey(wanted, k)
    {
      if k in FlatOf(calls, accounts) {
        var i :| 0 <= i < |calls| && calls[i].AccountCall? == accounts && k == FlatRecord(calls[i]).key;
        WantedMember(calls, accounts, |calls|, FlatRecord(calls[i]));
        assert FlatRecord(calls[i]) in wanted;
      }
      if HasKey(wanted, k) {
        var j :| 0 <= j < |wanted| && wanted[j].key == k;
        WantedMember(calls, accounts, |calls|, wanted[j]);
      }
    }
    KeyCount(wanted, FlatOf(calls, accounts));
  }

  // The whole verification.

  /** The traversal's own reads: every node and every code is there. */
  method ReadState(db: Database, scheme: Scheme, r: Reached) returns (ok: bool)
    ensures ok <==> Read(db, scheme, r)
  {
    hide NodeKey, CodeKey;
    var nodes := forall i :: 0 <= i < |r.visits| ==> NodeKey(scheme, r.visits[i]) in db;
    var codes := forall h :: h in r.codes ==> CodeKey(h) in db && db[CodeKey(h)] != [];
    NodesRead(db, scheme, r.visits);
    ok := nodes && codes;
  }

  lemma NodesRead(db: Database, scheme: Scheme, visits: seq<Visit>)
    ensures NodeKeys(scheme, visits) <= db.Keys <==> forall i :: 0 <= i < |visits| ==> NodeKey(scheme, visits[i]) in db
  {
    hide NodeKey;
    if NodeKeys(scheme, visits) <= db.Keys {
      forall i | 0 <= i < |visits|
        ensures NodeKey(scheme, visits[i]) in db
      {
        assert NodeKey(scheme, visits[i]) in NodeKeys(scheme, visits);
      }
    }
  }

  /** The flat state against the traversal, and the four path metadata entries. */
  method VerifyPath(db: Database, root: Hash, calls: seq<Callback>)
    returns (ok: bool, ghost accounts: seq<Record>, ghost storage: seq<Record>)
    ensures Sorted(accounts) && Sorted(storage)
    ensures FlatView(db, FLAT_ACCOUNT, accounts) && FlatView(db, FLAT_STORAGE, storage)
    ensures ok <==> && PathMetadataOk(db, root) && accounts == FlatWanted(calls, true, |calls|)
                    && storage == FlatWanted(calls, false, |calls|)
  {
    hide FlatWanted, FlatView, Sorted, AsMap, WithPrefix, PathMetadata;
    var a := Iterate(WithPrefix(db, FLAT_ACCOUNT));
    var s := Iterate(WithPrefix(db, FLAT_STORAGE));
    ViewOf(db, FLAT_ACCOUNT, a);
    ViewOf(db, FLAT_STORAGE, s);
    accounts, storage := a, s;
    var metadata := forall k :: k in PathMetadata(root) ==> k in db && db[k] == PathMetadata(root)[k];
    ok := VerifyFlat(a, s, calls);
    ok := ok && metadata;
  }

  /** verifyOpenedTarget: metadata, traversal, flat state, counts and inventory accept an
      artifact exactly when it holds the state and nothing else, and the counts are its own. */
  method VerifyOpenedTarget(H: Hasher, scheme: Scheme, db: Database, number: nat, hash: Hash, header: Bytes,
                            body: Option<Bytes>, root: Hash, r: Reached, accounts: nat, slots: nat)
    returns (ok: bool)
    requires VisitsValid(r.visits) && CallsOrdered(r.calls)
    ensures ok <==> && Exact(H, scheme, db, HeadMetadata(number, hash, header, body), root, r)
                    && accounts == |FlatWanted(r.calls, true, |r.calls|)|
                    && slots == |FlatWanted(r.calls, false, |r.calls|)|
  {
    hide VisitsValid, CallsOrdered, Exact, InventoryOk, FlatWanted, HeadMetadata, Read, FlatView, PathMetadataOk,
         NodeKeys, Apart, Sorted;
    ghost var flatAccounts: seq<Record>, flatSlots: seq<Record> := [], [];
    var head := HeadMetadata(number, hash, header, body);
    HeadApart(number, hash, header, body);
    ExactReads(H, scheme, db, head, root, r);
    ok := ReadState(db, scheme, r);
    if !ok {
      return;
    }
    if accounts != |FlatWanted(r.calls, true, |r.calls|)| || slots != |FlatWanted(r.calls, false, |r.calls|)| {
      return false;
    }
    if scheme.PathScheme? {
      ok, flatAccounts, flatSlots := VerifyPath(db, root, r.calls);
      ExactPath(H, db, head, root, r, flatAccounts, flatSlots);
      if !ok {
        return;
      }
    }
    var nodes := TrackNodes(scheme, r.visits);
    var want := Expected(accounts, slots, nodes, |r.codes|);
    ok := VerifyDatabaseInventory(H, scheme, db, head, want);
    if ok {
      AcceptedExact(H, scheme, db, head, r, want, root, flatAccounts, flatSlots);
    } else {
      ExactAccepted(H, scheme, db, head, root, r);
    }
  }

  lemma ExactReads(H: Hasher, scheme: Scheme, db: Database, head: Database, root: Hash, r: Reached)
    ensures Exact(H, scheme, db, head, root, r) ==> Read(db, scheme, r)
  {
    hide NodeKeys, CodeKeys, FlatKeys, FlatHolds;
  }

  lemma ExactPath(H: Hasher, db: Database, head: Database, root: Hash, r: Reached, accounts: seq<Record>,
                  storage: seq<Record>)
    requires (forall m :: m in head ==> Apart(m)) && VisitsValid(r.visits) && CallsOrdered(r.calls)
    requires Sorted(accounts) && Sorted(storage)
    requires FlatView(db, FLAT_ACCOUNT, accounts) && FlatView(db, FLAT_STORAGE, storage)
    ensures Exact(H, PathScheme, db, head, root, r) ==>
              && PathMetadataOk(db, root) && accounts == FlatWanted(r.calls, true, |r.calls|)
              && storage == FlatWanted(r.calls, false, |r.calls|)
  {
    hide Apart, VisitsValid, CallsOrdered, Sorted, FlatView, FlatWanted, NodeKeys, CodeKeys, FlatKeys, FlatHolds,
         PathMetadataOk;
    if Exact(H, PathScheme, db, head, root, r) {
      FlatSame(H, db, head, root, r, true, accounts);
      FlatSame(H, db, head, root, r, false, storage);
    }
  }

  lemma AcceptedExact(H: Hasher, scheme: Scheme, db: Database, head: Database, r: Reached, want: Expected,
                      root: Hash, accounts: seq<Record>, storage: seq<Record>)
    requires (forall m :: m in head ==> Apart(m)) && VisitsValid(r.visits) && Read(db, scheme, r)
    requires InventoryOk(H, scheme, db, head, want)
    requires want.nodes == |NodeKeys(scheme, r.visits)| && want.codes == |r.codes|
    requires scheme.PathScheme? ==>
               && FlatView(db, FLAT_ACCOUNT, accounts) && FlatView(db, FLAT_STORAGE, storage)
               && accounts == FlatWanted(r.calls, true, |r.calls|) && storage == FlatWanted(r.calls, false, |r.calls|)
               && PathMetadataOk(db, root)
    ensures Exact(H, scheme, db, head, root, r)
  {
    hide Apart, VisitsValid, FlatWanted, NodeKeys, CodeKeys, FlatKeys, FlatView, InventoryOk, PathMetadataOk,
         WantedKeys, FlatHolds, CodeKey;
    CountingIsExact(H, scheme, db, head, r, want, root, accounts, storage);
    NodesHash(H, scheme, db, head, r, want);
    if scheme.PathScheme? {
      AllStored(db, accounts, storage, r.calls);
    }
  }

  lemma NodesHash(H: Hasher, scheme: Scheme, db: Database, head: Database, r: Reached, want: Expected)
    requires (forall m :: m in head ==> Apart(m)) && VisitsValid(r.visits) && Read(db, scheme, r)
    requires InventoryOk(H, scheme, db, head, want)
    ensures scheme.HashScheme? ==> forall k :: k in NodeKeys(scheme, r.visits) ==> k in db && k == H(db[k])
  {
    hide Apart, VisitsValid, NodeKeys, AllOf, Classified;
    forall k | k in NodeKeys(scheme, r.visits)
      ensures k in db && (scheme.HashScheme? ==> k == H(db[k]))
    {
      NodeIsNode(H, scheme, db, head, r, k);
    }
  }

  lemma AllStored(db: Database, accounts: seq<Record>, storage: seq<Record>, calls: seq<Callback>)
    requires FlatView(db, FLAT_ACCOUNT, accounts) && FlatView(db, FLAT_STORAGE, storage)
    requires accounts == FlatWanted(calls, true, |calls|) && storage == FlatWanted(calls, false, |calls|)
    ensures FlatHolds(db, calls)
  {
    hide FlatView, FlatWanted, FlatRecord;
    forall i | 0 <= i < |calls|
      ensures var f := FlatRecord(calls[i]); f.key in db && db[f.key] == f.value
    {
      FlatStored(db, accounts, storage, calls, i);
    }
  }

  lemma FlatStored(db: Database, accounts: seq<Record>, storage: seq<Record>, calls: seq<Callback>, i: nat)
    requires FlatView(db, FLAT_ACCOUNT, accounts) && FlatView(db, FLAT_STORAGE, storage) && i < |calls|
    requires accounts == FlatWanted(calls, true, |calls|) && storage == FlatWanted(calls, false, |calls|)
    ensures var f := FlatRecord(calls[i]); f.key in db && db[f.key] == f.value
  {
    hide FlatWanted, FlatRecord;
    WantedMember(calls, calls[i].AccountCall?, |calls|, FlatRecord(calls[i]));
  }

  lemma ExactAccepted(H: Hasher, scheme: Scheme, db: Database, head: Database, root: Hash, r: Reached)
    requires (forall m :: m in head ==> Apart(m)) && VisitsValid(r.visits) && CallsOrdered(r.calls)
             && Read(db, scheme, r)
    ensures Exact(H, scheme, db, head, root, r) ==>
              InventoryOk(H, scheme, db, head,
                          Expected(|FlatWanted(r.calls, true, |r.calls|)|, |FlatWanted(r.calls, false, |r.calls|)|,
                                   |NodeKeys(scheme, r.visits)|, |r.codes|))
  {
    hide Apart, VisitsValid, CallsOrdered, FlatWanted, NodeKeys, CodeKeys, FlatKeys, Read, InventoryOk, FlatHolds,
         FlatOf;
    if Exact(H, scheme, db, head, root, r) {
      ExactPasses(H, scheme, db, head, r);
      FlatCounts(r.calls, true);
      FlatCounts(r.calls, false);
    }
  }
}
