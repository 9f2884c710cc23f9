/** The protected inventory and a whole prune run: scanPruneDB,
    comparePruneInventory, verifyPruneDatabase and pruneWithHooks. */
module PruneVerify {
  import opened ByteStrings
  import opened KeyValue
  import opened PruneKeep
  import opened PruneWriter
  import opened PruneWalk
  import opened Prune
  import opened PruneRun
  import opened Sums

  // The inventory.

  datatype Inventory = Inventory(kept: KvCount, protect: KvCount, candidates: KvCount, unknown: KvCount, framed: Bytes)

  /** hashPruneKV: key and value, each behind its 8-byte length. */
  function Frame(key: Bytes, value: Bytes): Bytes {
    Fixed(|key|, 8) + key + Fixed(|value|, 8) + value
  }

  /** scanPruneDB's callback over the first n entries; framed is what goes into the
      digest after its fixed label. */
  function Scan(entries: seq<Entry>, n: nat): Inventory
    requires n <= |entries|
  {
    if n == 0 then Inventory(NONE, NONE, NONE, NONE, [])
    else
      var e, before := entries[n - 1], Scan(entries, n - 1);
      if e.role == Delete then before.(candidates := Tally(before.candidates, e.key, e.value))
      else before.(kept := if e.role == Retain then Tally(before.kept, e.key, e.value) else before.kept,
                   unknown := if e.role == Unknown then Tally(before.unknown, e.key, e.value) else before.unknown,
                   protect := Tally(before.protect, e.key, e.value),
                   framed := before.framed + Frame(e.key, e.value))
  }

  /** comparePruneInventory. */
  predicate SameInventory(H: Hasher, before: Inventory, after: Inventory) {
    && after.candidates.keys == 0
    && before.kept == after.kept && before.protect == after.protect && before.unknown == after.unknown
    && H(before.framed) == H(after.framed)
  }

  /** The entries that are not deleted. */
  function Survivors(entries: seq<Entry>, n: nat): seq<Entry>
    requires n <= |entries|
  {
    if n == 0 then []
    else if entries[n - 1].role == Delete then Survivors(entries, n - 1)
    else Survivors(entries, n - 1) + [entries[n - 1]]
  }

  lemma ScanAppend(entries: seq<Entry>, e: Entry, n: nat)
    requires n <= |entries|
    ensures Scan(entries + [e], n) == Scan(entries, n)
  {
    hide Tally, Frame;
    if n > 0 {
      ScanAppend(entries, e, n - 1);
    }
  }

  /** Deleting the candidates takes them out of the inventory and changes nothing else. */
  lemma {:induction false} ScanSurvivors(entries: seq<Entry>, n: nat)
    requires n <= |entries|
    ensures var s := Survivors(entries, n);
            Scan(s, |s|) == Scan(entries, n).(candidates := NONE)
  {
    hide Tally, Frame;
    if n > 0 {
      ScanSurvivors(entries, n - 1);
      var before, e := Survivors(entries, n - 1), entries[n - 1];
      if e.role != Delete {
        ScanAppend(before, e, |before|);
        assert (before + [e])[|before|] == e;
      }
    }
  }

  lemma {:induction false} SurvivorsLeft(H: Hasher, keep: seq<Record>, source: seq<Record>, deleted: set<Bytes>, n: nat)
    requires n <= |source|
    requires forall i :: 0 <= i < |source| ==> (source[i].key in deleted <==> RoleOf(H, keep, source[i]) == Delete)
    ensures Survivors(Expected(H, keep, source), n) == Expected(H, keep, Select(source[..n], deleted, false))
  {
    hide RoleOf;
    if n > 0 {
      SurvivorsLeft(H, keep, source, deleted, n - 1);
      assert source[..n][..n - 1] == source[..n - 1];
    }
  }

  /** What a scan sees after all candidates have been deleted. */
  lemma LeftIsSurvivors(env: Env, keep: seq<Record>, source: seq<Record>)
    requires Sorted(source) && Sorted(keep)
    ensures var all := Expected(env.H, keep, source);
            var left := Select(source, DeleteKeys(all, |source|), false);
            Expected(env.H, keep, left) == Survivors(all, |source|)
  {
    hide RoleOf, Less;
    var all := Expected(env.H, keep, source);
    var deleted := DeleteKeys(all, |source|);
    DistinctKeys(source);
    forall i | 0 <= i < |source|
      ensures source[i].key in deleted <==> RoleOf(env.H, keep, source[i]) == Delete
    {
      DeleteKeysHold(all, |source|, source[i].key);
      assert all[i].key == source[i].key;
      if source[i].key in deleted {
        var j :| 0 <= j < |source| && all[j].role == Delete && all[j].key == source[i].key;
        assert i == j;
      }
    }
    assert source[..|source|] == source;
    SurvivorsLeft(env.H, keep, source, deleted, |source|);
  }

  /** Verification accepts what complete deletion leaves. */
  lemma DeletionVerifies(env: Env, keep: seq<Record>, source: seq<Record>)
    requires Sorted(source) && Sorted(keep)
    ensures var all := Expected(env.H, keep, source);
            var left := Select(source, DeleteKeys(all, |source|), false);
            SameInventory(env.H, Scan(all, |all|), Scan(Expected(env.H, keep, left), |left|))
  {
    hide RoleOf, Select, Expected, Scan;
    LeftIsSurvivors(env, keep, source);
    ScanSurvivors(Expected(env.H, keep, source), |source|);
  }

  // The digest's framing.

  lemma SameStart(a: Bytes, b: Bytes, c: Bytes, d: Bytes)
    requires a + b == c + d && |a| == |c|
    ensures a == c && b == d
  {
    assert (a + b)[..|a|] == a && (c + d)[..|c|] == c;
    assert (a + b)[|a|..] == b && (c + d)[|c|..] == d;
  }

  lemma Regroup(a: Bytes, b: Bytes, c: Bytes)
    ensures a + b + c == a + (b + c)
  {
  }

  lemma PartInjective(a: Bytes, b: Bytes, restA: Bytes, restB: Bytes)
    requires |a| < Power256(8) && |b| < Power256(8)
    requires Fixed(|a|, 8) + a + restA == Fixed(|b|, 8) + b + restB
    ensures a == b && restA == restB
  {
    hide Fixed, Power256;
    Regroup(Fixed(|a|, 8), a, restA);
    Regroup(Fixed(|b|, 8), b, restB);
    SameStart(Fixed(|a|, 8), a + restA, Fixed(|b|, 8), b + restB);
    FixedInverse(|a|, 8);
    FixedInverse(|b|, 8);
    SameStart(a, restA, b, restB);
  }

  lemma FrameInjective(a: Entry, b: Entry, restA: Bytes, restB: Bytes)
    requires |a.key| < Power256(8) && |a.value| < Power256(8) && |b.key| < Power256(8) && |b.value| < Power256(8)
    requires Frame(a.key, a.value) + restA == Frame(b.key, b.value) + restB
    ensures a.key == b.key && a.value == b.value && restA == restB
  {
    hide Fixed, Power256;
    var tailA, tailB := Fixed(|a.value|, 8) + a.value + restA, Fixed(|b.value|, 8) + b.value + restB;
    assert Fixed(|a.key|, 8) + a.key + tailA == Frame(a.key, a.value) + restA;
    assert Fixed(|b.key|, 8) + b.key + tailB == Frame(b.key, b.value) + restB;
    PartInjective(a.key, b.key, tailA, tailB);
    PartInjective(a.value, b.value, restA, restB);
  }

  function Framed(entries: seq<Entry>): Bytes {
    if entries == [] then [] else Frame(entries[0].key, entries[0].value) + Framed(entries[1..])
  }

  lemma {:induction false} FramedAppend(entries: seq<Entry>, e: Entry)
    ensures Framed(entries + [e]) == Framed(entries) + Frame(e.key, e.value)
  {
    hide Frame;
    if entries == [] {
      assert entries + [e] == [e] && [e][1..] == [];
      OneFrame(e);
    } else {
      assert (entries + [e])[1..] == entries[1..] + [e];
      FramedAppend(entries[1..], e);
    }
  }

  lemma OneFrame(e: Entry)
    ensures Framed([e]) == Frame(e.key, e.value)
  {
    hide Frame;
    assert [e][1..] == [];
    assert Framed([e][1..]) == [];
  }

  lemma {:induction false} ScanFramed(entries: seq<Entry>, n: nat)
    requires n <= |entries|
    ensures Scan(entries, n).framed == Framed(Survivors(entries, n))
  {
    hide Tally, Frame;
    if n > 0 {
      ScanFramed(entries, n - 1);
      if entries[n - 1].role != Delete {
        FramedAppend(Survivors(entries, n - 1), entries[n - 1]);
      }
    }
  }

  ghost predicate Addressable(entries: seq<Entry>) {
    forall i :: 0 <= i < |entries| ==> |entries[i].key| < Power256(8) && |entries[i].value| < Power256(8)
  }

  ghost predicate SamePairs(a: seq<Entry>, b: seq<Entry>) {
    |a| == |b| && forall i :: 0 <= i < |a| ==> a[i].key == b[i].key && a[i].value == b[i].value
  }

  lemma FramedNonempty(entries: seq<Entry>)
    requires entries != []
    ensures Framed(entries) != []
  {
  }

  /** The digest's input spells out the protected records: no two inventories share it. */
  lemma {:induction false} FramedInjective(a: seq<Entry>, b: seq<Entry>)
    requires Addressable(a) && Addressable(b) && Framed(a) == Framed(b)
    ensures SamePairs(a, b)
    decreases |a|
  {
    hide Frame, Power256;
    if a == [] {
      if b != [] { FramedNonempty(b); }
    } else if b == [] {
      FramedNonempty(a);
    } else {
      FrameInjective(a[0], b[0], Framed(a[1..]), Framed(b[1..]));
      FramedInjective(a[1..], b[1..]);
      forall i | 0 <= i < |a|
        ensures a[i].key == b[i].key && a[i].value == b[i].value
      {
        if i > 0 { assert a[i] == a[1..][i - 1] && b[i] == b[1..][i - 1]; }
      }
    }
  }

  lemma {:induction false} NoDeletesLeft(entries: seq<Entry>, n: nat)
    requires n <= |entries| && Scan(entries, n).candidates.keys == 0
    ensures Survivors(entries, n) == entries[..n]
  {
    if n > 0 {
      NoDeletesLeft(entries, n - 1);
      assert entries[..n] == entries[..n - 1] + [entries[n - 1]];
    }
  }

  lemma {:induction false} SurvivorsAddressable(entries: seq<Entry>, n: nat)
    requires Addressable(entries) && n <= |entries|
    ensures Addressable(Survivors(entries, n))
  {
    if n > 0 {
      SurvivorsAddressable(entries, n - 1);
    }
  }

  /** The converse: if verification accepts (and Keccak does not collide on the two
      digests' inputs), no candidate is left and the database is record for record
      the protected part of what it was. */
  lemma AcceptedIsExact(H: Hasher, before: seq<Entry>, after: seq<Entry>)
    requires Addressable(before) && Addressable(after)
    requires SameInventory(H, Scan(before, |before|), Scan(after, |after|))
    requires H(Scan(before, |before|).framed) == H(Scan(after, |after|).framed)
             ==> Scan(before, |before|).framed == Scan(after, |after|).framed
    ensures SamePairs(Survivors(before, |before|), after)
  {
    hide Scan, Survivors, Framed, Power256;
    ScanFramed(before, |before|);
    ScanFramed(after, |after|);
    NoDeletesLeft(after, |after|);
    assert after[..|after|] == after;
    SurvivorsAddressable(before, |before|);
    FramedInjective(Survivors(before, |before|), after);
  }

  // What the inventory counts.

  /** The keys of the first n entries with one of some roles. */
  ghost function RoleKeys(entries: seq<Entry>, n: nat, roles: set<Role>): set<Bytes>
    requires n <= |entries|
  {
    if n == 0 then {}
    else RoleKeys(entries, n - 1, roles) + if entries[n - 1].role in roles then {entries[n - 1].key} else {}
  }

  lemma {:induction false} RoleKeysHold(entries: seq<Entry>, n: nat, roles: set<Role>, k: Bytes)
    requires n <= |entries|
    ensures k in RoleKeys(entries, n, roles) <==>
              exists i :: 0 <= i < n && entries[i].role in roles && entries[i].key == k
  {
    if n > 0 {
      RoleKeysHold(entries, n - 1, roles, k);
    }
  }

  /** The number of keys in a set, and the bytes of their records. */
  ghost predicate CountsKeys(c: KvCount, keys: set<Bytes>, size: Bytes -> nat) {
    c.keys == |keys| && c.bytes == SetSum(keys, size)
  }

  lemma OneMoreKey(c: KvCount, entries: seq<Entry>, n: nat, roles: set<Role>, size: Bytes -> nat)
    requires n < |entries| && SortedEntries(entries) && CountsKeys(c, RoleKeys(entries, n, roles), size)
    requires size(entries[n].key) == |entries[n].key| + |entries[n].value|
    ensures CountsKeys(if entries[n].role in roles then Tally(c, entries[n].key, entries[n].value) else c,
                       RoleKeys(entries, n + 1, roles), size)
  {
    hide SetSum;
    var k, keys := entries[n].key, RoleKeys(entries, n, roles);
    RoleKeysHold(entries, n, roles, k);
    LessTrichotomy(k, k);
    if entries[n].role in roles {
      SetSumAdd(keys, k, size);
    } else {
      assert keys + {} == keys;
    }
  }

  lemma {:induction false} ScanCounts(entries: seq<Entry>, n: nat, size: Bytes -> nat)
    requires n <= |entries| && SortedEntries(entries)
    requires forall i :: 0 <= i < |entries| ==> size(entries[i].key) == |entries[i].key| + |entries[i].value|
    requires forall i :: 0 <= i < |entries| ==> entries[i].role != Unclassified
    ensures var s := Scan(entries, n);
            && CountsKeys(s.kept, RoleKeys(entries, n, {Retain}), size)
            && CountsKeys(s.unknown, RoleKeys(entries, n, {Unknown}), size)
            && CountsKeys(s.candidates, RoleKeys(entries, n, {Delete}), size)
            && CountsKeys(s.protect, RoleKeys(entries, n, {Retain, Unknown, Protect}), size)
  {
    hide Tally, Frame, SortedEntries, CountsKeys, RoleKeys;
    if n > 0 {
      ScanCounts(entries, n - 1, size);
      var s := Scan(entries, n - 1);
      OneMoreKey(s.kept, entries, n - 1, {Retain}, size);
      OneMoreKey(s.unknown, entries, n - 1, {Unknown}, size);
      OneMoreKey(s.candidates, entries, n - 1, {Delete}, size);
      OneMoreKey(s.protect, entries, n - 1, {Retain, Unknown, Protect}, size);
    } else {
      NoKeys(entries, {Retain}, size);
      NoKeys(entries, {Unknown}, size);
      NoKeys(entries, {Delete}, size);
      NoKeys(entries, {Retain, Unknown, Protect}, size);
    }
  }

  lemma NoKeys(entries: seq<Entry>, roles: set<Role>, size: Bytes -> nat)
    ensures CountsKeys(NONE, RoleKeys(entries, 0, roles), size)
  {
  }

  /** The length of a record of a database, by its key. */
  ghost function RecordSize(db: Database): Bytes -> nat { k => if k in db then |k| + |db[k]| else 0 }

  /** The inventory of a database beside a keep set: the kept keys, the unknown ones (32 bytes,
      not kept, not the hash of their value), the candidates (32 bytes, not kept, the hash of
      their value), and everything but the candidates, each with its records' bytes. */
  ghost predicate InventoryOf(H: Hasher, db: Database, keep: Database, s: Inventory) {
    var candidates := set k | k in db && k !in keep && |k| == 32 && H(db[k]) == k;
    && CountsKeys(s.kept, (set k | k in db && k in keep), RecordSize(db))
    && CountsKeys(s.unknown, (set k | k in db && k !in keep && |k| == 32 && H(db[k]) != k), RecordSize(db))
    && CountsKeys(s.candidates, candidates, RecordSize(db))
    && CountsKeys(s.protect, db.Keys - candidates, RecordSize(db))
    && s.protect.keys == |db| - |candidates|
  }

  lemma EntriesSorted(H: Hasher, source: seq<Record>, keep: seq<Record>)
    requires Sorted(source)
    ensures SortedEntries(Expected(H, keep, source))
  {
    hide Less, RoleOf;
  }

  /** A key's role is decided by the two maps. */
  lemma RoleByMap(H: Hasher, source: seq<Record>, keep: seq<Record>, roles: set<Role>, k: Bytes)
    requires Sorted(source) && Sorted(keep)
    ensures k in RoleKeys(Expected(H, keep, source), |source|, roles) <==>
              k in AsMap(source) && RoleOf(H, keep, Record.Record(k, AsMap(source)[k])) in roles
  {
    hide AsMap, Sorted, RoleOf;
    var all := Expected(H, keep, source);
    RoleKeysHold(all, |source|, roles, k);
    if k in RoleKeys(all, |source|, roles) {
      var i :| 0 <= i < |source| && all[i].role in roles && all[i].key == k;
      AsMapHolds(source, source[i]);
    }
    if k in AsMap(source) {
      var r := Record.Record(k, AsMap(source)[k]);
      AsMapHolds(source, r);
      var i :| 0 <= i < |source| && source[i] == r;
      assert all[i].role == RoleOf(H, keep, r);
    }
  }

  lemma KeptByMap(keep: seq<Record>, k: Bytes, value: Bytes)
    requires Sorted(keep)
    ensures HasKey(keep, k) <==> k in AsMap(keep)
  {
    AsMapHolds(keep, Record.Record(k, value));
  }

  lemma SizesAgree(H: Hasher, source: seq<Record>, keep: seq<Record>)
    requires Sorted(source)
    ensures var all := Expected(H, keep, source);
            forall i :: 0 <= i < |all| ==>
              RecordSize(AsMap(source))(all[i].key) == |all[i].key| + |all[i].value| && all[i].role != Unclassified
  {
    hide AsMap, Sorted;
    var all := Expected(H, keep, source);
    forall i | 0 <= i < |all|
      ensures RecordSize(AsMap(source))(all[i].key) == |all[i].key| + |all[i].value| && all[i].role != Unclassified
    {
      AsMapHolds(source, source[i]);
    }
  }

  /** The roles again, by the two maps alone. */
  lemma RoleSets(H: Hasher, source: seq<Record>, keep: seq<Record>, k: Bytes)
    requires Sorted(source) && Sorted(keep)
    ensures var all, n, db, kept := Expected(H, keep, source), |source|, AsMap(source), AsMap(keep);
            && (k in RoleKeys(all, n, {Retain}) <==> k in db && k in kept)
            && (k in RoleKeys(all, n, {Unknown}) <==> k in db && k !in kept && |k| == 32 && H(db[k]) != k)
            && (k in RoleKeys(all, n, {Delete}) <==> k in db && k !in kept && |k| == 32 && H(db[k]) == k)
            && (k in RoleKeys(all, n, {Retain, Unknown, Protect}) <==>
                  k in db && !(k !in kept && |k| == 32 && H(db[k]) == k))
  {
    hide AsMap, Sorted, RoleKeys, HasKey;
    RoleByMap(H, source, keep, {Retain}, k);
    RoleByMap(H, source, keep, {Unknown}, k);
    RoleByMap(H, source, keep, {Delete}, k);
    RoleByMap(H, source, keep, {Retain, Unknown, Protect}, k);
    KeptByMap(keep, k, []);
  }

  /** The scan's inventory is the one the two maps define. */
  lemma ScanMeans(H: Hasher, source: seq<Record>, keep: seq<Record>)
    requires Sorted(source) && Sorted(keep)
    ensures InventoryOf(H, AsMap(source), AsMap(keep), Scan(Expected(H, keep, source), |source|))
  {
    hide AsMap, Sorted, Scan, Expected, RecordSize, CountsKeys, RoleKeys;
    var all, n, db, kept := Expected(H, keep, source), |source|, AsMap(source), AsMap(keep);
    ExpectedLength(H, keep, source);
    EntriesSorted(H, source, keep);
    SizesAgree(H, source, keep);
    ScanCounts(all, n, RecordSize(db));
    forall k {
      RoleSets(H, source, keep, k);
    }
    var candidates := set k | k in db && k !in kept && |k| == 32 && H(db[k]) == k;
    assert RoleKeys(all, n, {Retain}) == set k | k in db && k in kept;
    assert RoleKeys(all, n, {Unknown}) == set k | k in db && k !in kept && |k| == 32 && H(db[k]) != k;
    assert RoleKeys(all, n, {Delete}) == candidates;
    assert RoleKeys(all, n, {Retain, Unknown, Protect}) == db.Keys - candidates;
    KeysLeft(db, candidates, Scan(all, n).protect);
  }

  lemma KeysLeft(db: Database, gone: set<Bytes>, c: KvCount)
    requires gone <= db.Keys && CountsKeys(c, db.Keys - gone, RecordSize(db))
    ensures c.keys == |db| - |gone|
  {
    assert |db| == |db.Keys|;
    assert db.Keys == (db.Keys - gone) + gone;
  }

  /** What a complete deletion reports as deleted is what the preflight counted as candidates. */
  lemma {:induction false} DeletedIsCounted(entries: seq<Entry>, n: nat)
    requires n <= |entries|
    ensures DeleteTally(entries, n) == Scan(entries, n).candidates
  {
    hide Tally, Frame;
    if n > 0 {
      DeletedIsCounted(entries, n - 1);
    }
  }

  // A whole run.

  /** The keep database in key order: the source records whose keys it holds. */
  lemma KeepRecords(env: Env, source: seq<Record>, keep: Database)
    requires Sorted(source)
    requires forall k :: k in keep ==> k in AsMap(source) && AsMap(source)[k] == keep[k]
    ensures var records := Select(source, keep.Keys, true);
            Sorted(records) && AsMap(records) == keep && Contained(records, source)
  {
    hide AsMap, Sorted;
    SelectHolds(source, keep.Keys, true);
    var records := Select(source, keep.Keys, true);
    var a := AsMap(records);
    forall k
      ensures (k in a <==> k in keep) && (k in a ==> a[k] == keep[k])
    {
      if k in a {
        AsMapHolds(records, Record.Record(k, a[k]));
        AsMapHolds(source, Record.Record(k, a[k]));
      } else if k in keep {
        AsMapHolds(source, Record.Record(k, keep[k]));
        AsMapHolds(records, Record.Record(k, keep[k]));
      }
    }
    assert a == keep;
  }

  /** No record that would be protected carries a foreign key. */
  ghost predicate NoneForeign(env: Env, foreign: (Bytes, Bytes) -> bool, db: Database, keep: Database) {
    forall k :: k in db && k !in keep && k !in Candidates(env, db, keep) ==> !foreign(k, db[k])
  }

  lemma ForeignAgree(env: Env, foreign: (Bytes, Bytes) -> bool, source: seq<Record>, keep: seq<Record>)
    requires Sorted(source) && Sorted(keep)
    ensures NoForeign(env.H, foreign, keep, source) <==> NoneForeign(env, foreign, AsMap(source), AsMap(keep))
  {
    hide AsMap, Sorted;
    var db, kept := AsMap(source), AsMap(keep);
    var all := Expected(env.H, keep, source);
    forall i | 0 <= i < |source|
      ensures source[i].key in db && db[source[i].key] == source[i].value
      ensures Rejects(env.H, foreign, all[i]) <==>
              source[i].key !in kept && source[i].key !in Candidates(env, db, kept)
                  && foreign(source[i].key, source[i].value)
    {
      AsMapHolds(source, source[i]);
      AsMapHolds(keep, source[i]);
    }
    forall k | k in db
      ensures exists i :: 0 <= i < |source| && source[i].key == k && source[i].value == db[k]
    {
      AsMapHolds(source, Record.Record(k, db[k]));
      var i :| 0 <= i < |source| && source[i] == Record.Record(k, db[k]);
    }
    if NoForeign(env.H, foreign, keep, source) {
      forall k | k in db && k !in kept && k !in Candidates(env, db, kept)
        ensures !foreign(k, db[k])
      {
        var i :| 0 <= i < |source| && source[i].key == k && source[i].value == db[k];
        assert !Rejects(env.H, foreign, all[i]);
      }
    }
  }

  /** The condition under which pruning goes through. */
  ghost predicate Prunable(env: Env, foreign: (Bytes, Bytes) -> bool, db: Database) {
    Keep(env, db).Some? && NoneForeign(env, foreign, db, Keep(env, db).value)
  }

  /** buildPruneKeep: head and genesis from the metadata, the state's reads and the genesis
      root through the keep writer. It yields the keep set of the definition, unless a write
      to the keep database fails. */
  method BuildKeep(env: Env, db: Database, workers: nat, interruptible: bool) returns (keep: Option<Database>)
    requires workers > 0
    ensures keep.Some? ==> keep == Keep(env, db)
    ensures !interruptible ==> keep == Keep(env, db)
  {
    hide Healthy, ReadRecords, Readable, Metadata, Writer.Valid, GenesisRecords;
    var head, genesis := env.head(Metadata(db)), env.genesis(Metadata(db));
    if head.None? || genesis.None? || !GenesisReadable(env, db, genesis.value) {
      return None;
    }
    var w := new Writer(env.H, map[], workers, interruptible);
    var ok := TraverseState(env, db, head.value, w);
    if !ok {
      return None;
    }
    ok := KeepGenesis(env, db, genesis.value, w);
    if !ok {
      return None;
    }
    ok := w.Close();
    if !ok {
      return None;
    }
    assert map[] + ReadRecords(env, db, head.value) == ReadRecords(env, db, head.value);
    keep := Some(w.db);
  }

  /** collectPruneState's put of the genesis root record. */
  method KeepGenesis(env: Env, db: Database, roots: set<Hash>, w: Writer) returns (ok: bool)
    requires GenesisReadable(env, db, roots) && Recording(w, env, db)
    modifies w
    ensures ok ==> Recording(w, env, db) && w.contents == old(w.contents) + GenesisRecords(env, db, roots)
    ensures ok || w.interruptible
  {
    hide Readable, Recording, Writer.Valid;
    var left := roots;
    ghost var done: Database := map[];
    while left != {}
      invariant left <= roots && Recording(w, env, db) && w.contents == old(w.contents) + done
      invariant forall g: Bytes :: g in done <==> g in roots && g !in left
      invariant forall g: Bytes :: g in done ==> g in db && done[g] == db[g]
      decreases left
    {
      var g :| g in left;
      ok := Get(env, db, Ref(AccountNode, g), w);
      if !ok {
        return;
      }
      ReadIs(env, db, Ref(AccountNode, g));
      left, done := left - {g}, done[g := db[g]];
    }
    assert done == GenesisRecords(env, db, roots);
    ok := true;
  }

  /** scanPruneDB. */
  method ScanDatabase(env: Env, foreign: (Bytes, Bytes) -> bool, source: seq<Record>, keep: seq<Record>,
                      workers: nat, limit: nat, interruptible: bool)
    returns (ok: bool, inventory: Inventory)
    requires Sorted(source) && Sorted(keep) && workers > 0
    ensures ok ==> Contained(keep, source) && NoForeign(env.H, foreign, keep, source)
    ensures ok ==> inventory == Scan(Expected(env.H, keep, source), |source|)
    ensures ok ==> InventoryOf(env.H, AsMap(source), AsMap(keep), inventory)
    ensures !interruptible && Contained(keep, source) && NoForeign(env.H, foreign, keep, source) ==> ok
  {
    hide Sorted, Contained, NoForeign, InventoryOf, AsMap;
    var delivered;
    ok, delivered := WalkPruneDifference(env.H, foreign, source, keep, workers, limit, interruptible);
    ScanMeans(env.H, source, keep);
    inventory := Scan(delivered, |delivered|);
  }

  /** What verifyPruneDatabase looks at: the head, the state below it, the genesis root and
      the inventory beside the keep set. */
  ghost predicate DatabaseVerifies(env: Env, foreign: (Bytes, Bytes) -> bool, source: seq<Record>, keep: seq<Record>,
                                   head: set<Ref>, before: Inventory)
    requires Sorted(source) && Sorted(keep)
  {
    var db := AsMap(source);
    var genesis := env.genesis(Metadata(db));
    && env.head(Metadata(db)) == Some(head) && Healthy(env, db, head)
    && genesis.Some? && GenesisReadable(env, db, genesis.value)
    && Contained(keep, source) && NoForeign(env.H, foreign, keep, source)
    && SameInventory(env.H, before, Scan(Expected(env.H, keep, source), |source|))
  }

  /** verifyPruneDatabase. */
  method VerifyDatabase(env: Env, foreign: (Bytes, Bytes) -> bool, source: seq<Record>, keep: seq<Record>,
                        head: set<Ref>, before: Inventory, workers: nat, limit: nat, interruptible: bool)
    returns (ok: bool)
    requires Sorted(source) && Sorted(keep) && workers > 0
    ensures ok ==> DatabaseVerifies(env, foreign, source, keep, head, before)
    ensures !interruptible && DatabaseVerifies(env, foreign, source, keep, head, before) ==> ok
  {
    hide Sorted, Contained, NoForeign, AsMap, Healthy, GenesisReadable, Metadata, SameInventory, Scan, Expected;
    var db := AsMap(source);
    if env.head(Metadata(db)) != Some(head) {
      return false;
    }
    ok := TraverseState(env, db, head, null);
    if !ok {
      return;
    }
    var genesis := env.genesis(Metadata(db));
    if genesis.None? || !GenesisReadable(env, db, genesis.value) {
      return false;
    }
    var after;
    ok, after := ScanDatabase(env, foreign, source, keep, workers, limit, interruptible);
    ok := ok && SameInventory(env.H, before, after);
  }

  /** Complete deletion leaves a database that verifies. */
  lemma LeftVerifies(env: Env, foreign: (Bytes, Bytes) -> bool, source: seq<Record>, keep: seq<Record>,
                     left: seq<Record>)
    requires Sorted(source) && Sorted(keep) && Prunable(env, foreign, AsMap(source))
    requires AsMap(keep) == Keep(env, AsMap(source)).value
    requires left == Select(source, Candidates(env, AsMap(source), AsMap(keep)), false)
    ensures Sorted(left) && env.head(Metadata(AsMap(source))).Some?
    ensures DatabaseVerifies(env, foreign, left, keep, env.head(Metadata(AsMap(source))).value,
                             Scan(Expected(env.H, keep, source), |source|))
  {
    hide AsMap, Keep, Sorted, Prunable, Contained, NoForeign, Healthy, GenesisReadable, Metadata, SameInventory, Scan,
         Expected, Select, Candidates, Pruned;
    LeftPrunable(env, foreign, source, keep, left);
    PrunableKeeps(env, foreign, AsMap(source));
    KeepMeans(env, AsMap(left));
    DeletesAreCandidates(env, source, keep);
    DeletionVerifies(env, keep, source);
    assert |Expected(env.H, keep, source)| == |source| by { ExpectedLength(env.H, keep, source); }
  }

  lemma ExpectedLength(H: Hasher, keep: seq<Record>, source: seq<Record>)
    ensures |Expected(H, keep, source)| == |source|
  {
  }

  lemma PrunableKeeps(env: Env, foreign: (Bytes, Bytes) -> bool, db: Database)
    requires Prunable(env, foreign, db)
    ensures Keep(env, db).Some?
  {
    hide Keep;
  }

  lemma KeepMeans(env: Env, db: Database)
    requires Keep(env, db).Some?
    ensures var head, genesis := env.head(Metadata(db)), env.genesis(Metadata(db));
            && head.Some? && Healthy(env, db, head.value)
            && genesis.Some? && GenesisReadable(env, db, genesis.value)
  {
    hide Healthy, GenesisReadable, Metadata, ReadRecords;
  }

  /** After complete deletion the keep records are still there and nothing foreign appeared. */
  lemma LeftPrunable(env: Env, foreign: (Bytes, Bytes) -> bool, source: seq<Record>, keep: seq<Record>,
                     left: seq<Record>)
    requires Sorted(source) && Sorted(keep) && Prunable(env, foreign, AsMap(source))
    requires AsMap(keep) == Keep(env, AsMap(source)).value
    requires left == Select(source, Candidates(env, AsMap(source), AsMap(keep)), false)
    ensures Sorted(left) && AsMap(left) == Pruned(env, AsMap(source))
    ensures Keep(env, AsMap(left)) == Keep(env, AsMap(source))
    ensures Contained(keep, left) && NoForeign(env.H, foreign, keep, left)
    ensures Metadata(AsMap(left)) == Metadata(AsMap(source))
  {
    hide Keep, AsMap, Sorted, HasKey;
    var db, kept := AsMap(source), AsMap(keep);
    var gone := Candidates(env, db, kept);
    SelectMap(source, gone);
    DeletionKeeps(env, db, gone);
    KeepIsPart(env, db);
    forall i | 0 <= i < |keep|
      ensures keep[i] in left
    {
      AsMapHolds(keep, keep[i]);
      AsMapHolds(left, keep[i]);
    }
    ForeignAgree(env, foreign, left, keep);
  }

  /** pruneWithHooks: collect, verify the keep set, preflight, delete, verify, and verify again
      after compaction, which rewrites files and changes no record. Any
      stop leaves the database without some candidates and otherwise untouched; a
      verified run has removed exactly the candidates. Undisturbed, a run is
      verified exactly when the database can be pruned. */
  method PruneOnce(env: Env, foreign: (Bytes, Bytes) -> bool, source: seq<Record>, workers: nat, limit: nat,
                   dryRun: bool, compact: bool, interruptible: bool)
    returns (verified: bool, left: seq<Record>)
    requires Sorted(source) && workers > 0
    ensures Sorted(left) && RunLeaves(env, AsMap(source), AsMap(left))
    ensures dryRun ==> left == source
    ensures verified ==> Prunable(env, foreign, AsMap(source))
    ensures verified && !dryRun ==> AsMap(left) == Pruned(env, AsMap(source))
    ensures !interruptible && Prunable(env, foreign, AsMap(source)) ==> verified
  {
    hide *;
    var db := AsMap(source);
    assert RunLeaves(env, db, db) by { NothingDeleted(env, db); }
    var kept := BuildKeep(env, db, workers, interruptible);
    if kept.None? {
      NotPrunable(env, foreign, db);
      return false, source;
    }
    KeepIsPart(env, db);
    KeepRecords(env, source, kept.value);
    var keep := Select(source, kept.value.Keys, true);
    ForeignAgree(env, foreign, source, keep);
    PrunableIs(env, foreign, db);
    KeepVerifies(env, db);
    var head := env.head(Metadata(db)).value;
    var fine := TraverseState(env, kept.value, head, null);
    if !fine {
      return false, source;
    }
    var before;
    fine, before := ScanDatabase(env, foreign, source, keep, workers, limit, interruptible);
    if !fine {
      return false, source;
    }
    if dryRun {
      return true, source;
    }
    var deleted;
    ghost var gone;
    fine, deleted, left, gone := DeletePruneDifference(env, foreign, source, keep, workers, limit, interruptible);
    SelectMap(source, gone);
    SomeDeleted(env, db, gone);
    if !fine {
      return false, left;
    }
    LeftPrunable(env, foreign, source, keep, left);
    LeftVerifies(env, foreign, source, keep, left);
    verified := VerifyDatabase(env, foreign, left, keep, head, before, workers, limit, interruptible);
    if verified && compact {
      verified := VerifyDatabase(env, foreign, left, keep, head, before, workers, limit, interruptible);
    }
  }

  lemma NothingDeleted(env: Env, db: Database)
    ensures RunLeaves(env, db, db)
  {
  }

  lemma NotPrunable(env: Env, foreign: (Bytes, Bytes) -> bool, db: Database)
    ensures Keep(env, db).None? ==> !Prunable(env, foreign, db)
  {
  }

  lemma PrunableIs(env: Env, foreign: (Bytes, Bytes) -> bool, db: Database)
    requires Keep(env, db).Some?
    ensures Prunable(env, foreign, db) <==> NoneForeign(env, foreign, db, Keep(env, db).value)
    ensures env.head(Metadata(db)).Some?
  {
  }

  lemma SomeDeleted(env: Env, db: Database, gone: set<Bytes>)
    requires Keep(env, db).Some? && gone <= Candidates(env, db, Keep(env, db).value)
    ensures RunLeaves(env, db, db - gone)
  {
  }

  /** The keep database by itself holds the whole state. */
  lemma KeepVerifies(env: Env, db: Database)
    requires Keep(env, db).Some?
    ensures env.head(Metadata(db)).Some? && Healthy(env, Keep(env, db).value, env.head(Metadata(db)).value)
  {
    hide Healthy, Reads;
    KeepIsPart(env, db);
    ReadsAreLocal(env, db, env.head(Metadata(db)).value, Keep(env, db).value);
  }
}
