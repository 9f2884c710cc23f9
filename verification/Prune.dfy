/** Offline pruning, whole runs of it, and runs interrupted anywhere:
    internal/migration/prune.go and prune_scan.go. */
module Prune {
  import opened ByteStrings
  import opened KeyValue
  import opened PruneKeep
  import opened PruneWalk

  // Selecting records.

  /** The records whose key is (or is not) in a set. */
  function Select(records: seq<Record>, keys: set<Bytes>, inside: bool): seq<Record> {
    if records == [] then []
    else
      var rest := Select(records[..|records| - 1], keys, inside);
      var last := records[|records| - 1];
      if (last.key in keys) == inside then rest + [last] else rest
  }

  lemma {:induction false} SelectHolds(records: seq<Record>, keys: set<Bytes>, inside: bool)
    requires Sorted(records)
    ensures Sorted(Select(records, keys, inside))
    ensures forall r :: r in Select(records, keys, inside) <==> r in records && (r.key in keys) == inside
  {
    if records != [] {
      var n := |records| - 1;
      SelectHolds(records[..n], keys, inside);
      assert records == records[..n] + [records[n]];
    }
  }

  /** Deleting keys from the iterated database is deleting them from the map. */
  lemma SelectMap(records: seq<Record>, keys: set<Bytes>)
    requires Sorted(records)
    ensures Sorted(Select(records, keys, false))
    ensures AsMap(Select(records, keys, false)) == AsMap(records) - keys
  {
    hide AsMap, Sorted, HasKey;
    SelectHolds(records, keys, false);
    var left := Select(records, keys, false);
    var a, b := AsMap(left), AsMap(records) - keys;
    forall k
      ensures (k in a <==> k in b) && (k in a ==> a[k] == b[k])
    {
      if k in a {
        AsMapHolds(left, Record.Record(k, a[k]));
        AsMapHolds(records, Record.Record(k, a[k]));
      } else if k in b {
        AsMapHolds(left, Record.Record(k, b[k]));
        AsMapHolds(records, Record.Record(k, b[k]));
      }
    }
    assert a == b;
  }

  // The keep set and the candidates.

  predicate GenesisReadable(env: Env, db: Database, roots: set<Hash>) {
    forall g :: g in roots ==> Readable(env, db, Ref(AccountNode, g))
  }

  function GenesisRecords(env: Env, db: Database, roots: set<Hash>): Database
    requires GenesisReadable(env, db, roots)
  {
    assert forall g :: g in roots ==> Readable(env, db, Ref(AccountNode, g));
    map g: Bytes | g in roots :: db[g]
  }

  /** The keep set of a database: everything the head state's traversal reads, and
      the genesis root record. None when head, genesis or state cannot be read. */
  ghost function Keep(env: Env, db: Database): Option<Database> {
    var head, genesis := env.head(Metadata(db)), env.genesis(Metadata(db));
    if head.None? || genesis.None? || !GenesisReadable(env, db, genesis.value) || !Healthy(env, db, head.value)
        then None
    else Some(ReadRecords(env, db, head.value) + GenesisRecords(env, db, genesis.value))
  }

  /** Unreferenced, content-addressed records. */
  ghost function Candidates(env: Env, db: Database, keep: Database): set<Bytes> {
    set k | k in db && k !in keep && |k| == 32 && env.H(db[k]) == k
  }

  /** What pruning leaves of a database. */
  ghost function Pruned(env: Env, db: Database): Database {
    var keep := Keep(env, db);
    if keep.None? then db else db - Candidates(env, db, keep.value)
  }

  lemma KeepIsPart(env: Env, db: Database)
    requires Keep(env, db).Some?
    ensures forall k :: k in Keep(env, db).value ==> k in db && db[k] == Keep(env, db).value[k]
  {
    hide Healthy, Reads;
    var genesis := env.genesis(Metadata(db)).value;
    assert forall g :: g in genesis ==> Readable(env, db, Ref(AccountNode, g));
  }

  /** Deleting candidates, any of them, changes neither the keep set nor which of
      the remaining records are candidates. */
  lemma DeletionKeeps(env: Env, db: Database, deleted: set<Bytes>)
    requires Keep(env, db).Some? && deleted <= Candidates(env, db, Keep(env, db).value)
    ensures Keep(env, db - deleted) == Keep(env, db)
    ensures Candidates(env, db - deleted, Keep(env, db).value) == Candidates(env, db, Keep(env, db).value) - deleted
    ensures Metadata(db - deleted) == Metadata(db)
  {
    hide Healthy, Reads, ReadRecords;
    var after, keep := db - deleted, Keep(env, db).value;
    var head, genesis := env.head(Metadata(db)).value, env.genesis(Metadata(db)).value;
    var state := ReadRecords(env, db, head);
    assert Metadata(after) == Metadata(db);
    forall g | g in genesis
      ensures Readable(env, after, Ref(AccountNode, g)) && after[g] == db[g]
    {
      assert Readable(env, db, Ref(AccountNode, g));
      assert g in GenesisRecords(env, db, genesis);
    }
    assert GenesisRecords(env, after, genesis) == GenesisRecords(env, db, genesis);
    assert Trimmed(db, after, state) by {
      KeepIsPart(env, db);
      assert forall k :: k in state ==> k in keep;
    }
    ReadsAreLocal(env, db, head, after);
  }

  /** When a database can be pruned, and what pruning leaves of it, record by record: the
      records reached from the head state, the genesis roots, and every record that is not
      stored under the hash of its value. */
  lemma PrunedMeans(env: Env, db: Database)
    ensures Keep(env, db).Some? <==>
              && env.head(Metadata(db)).Some? && env.genesis(Metadata(db)).Some?
              && (forall g :: g in env.genesis(Metadata(db)).value ==>
                    g in db && env.H(db[g]) == g && env.refs(AccountNode, db[g]).Some?)
              && (forall r :: Reachable(env, db, env.head(Metadata(db)).value, r) ==>
                    r.hash in db && env.H(db[r.hash]) == r.hash && env.refs(r.kind, db[r.hash]).Some?)
    ensures Keep(env, db).Some? ==>
              forall k :: k in Pruned(env, db) <==>
                && k in db
                && (|| |k| != 32 || env.H(db[k]) != k || k in env.genesis(Metadata(db)).value
                    || exists r :: Reachable(env, db, env.head(Metadata(db)).value, r) && r.hash == k)
    ensures forall k :: k in Pruned(env, db) ==> k in db && Pruned(env, db)[k] == db[k]
  {
    hide Reachable, Metadata;
    var head, genesis := env.head(Metadata(db)), env.genesis(Metadata(db));
    if genesis.Some? {
      assert GenesisReadable(env, db, genesis.value) <==>
             forall g :: g in genesis.value ==> g in db && env.H(db[g]) == g && env.refs(AccountNode, db[g]).Some? by {
        forall g | g in genesis.value
          ensures Readable(env, db, Ref(AccountNode, g)) <==>
                  g in db && env.H(db[g]) == g && env.refs(AccountNode, db[g]).Some?
        {
        }
      }
    }
    if Keep(env, db).Some? {
      forall k | k in db
        ensures k in Keep(env, db).value <==>
                k in genesis.value || exists r :: Reachable(env, db, head.value, r) && r.hash == k
      {
        assert Reads(env, db, head.value, k) <==> exists r :: Reachable(env, db, head.value, r) && r.hash == k;
      }
    }
  }

  // Interrupted runs.

  /** What one run leaves behind if it stops anywhere: nothing deleted when the
      keep set cannot be built, otherwise some candidates are gone. */
  ghost predicate RunLeaves(env: Env, db: Database, after: Database) {
    || after == db
    || (&& Keep(env, db).Some?
        && exists deleted :: deleted <= Candidates(env, db, Keep(env, db).value) && after == db - deleted)
  }

  ghost predicate Reruns(env: Env, dbs: seq<Database>) {
    dbs != [] && forall i :: 0 <= i < |dbs| - 1 ==> RunLeaves(env, dbs[i], dbs[i + 1])
  }

  /** Crash idempotence over any number of runs, each stopped anywhere: every
      database on the way is the first one without some of its candidates, no
      protected record changes, a fresh traversal rebuilds the same keep set, and
      an uninterrupted run from it ends in the same database. */
  lemma {:induction false} RerunsConverge(env: Env, dbs: seq<Database>)
    requires Reruns(env, dbs) && Keep(env, dbs[0]).Some?
    ensures var db, last := dbs[0], dbs[|dbs| - 1];
            var keep := Keep(env, db).value;
            && (exists deleted :: deleted <= Candidates(env, db, keep) && last == db - deleted)
            && (forall k :: k in db && k !in Candidates(env, db, keep) ==> k in last && last[k] == db[k])
            && Keep(env, last) == Some(keep)
            && Pruned(env, last) == Pruned(env, db)
    decreases |dbs|
  {
    hide Keep, Candidates;
    var n := |dbs| - 1;
    var db, keep := dbs[0], Keep(env, dbs[0]).value;
    if n == 0 {
      assert db == db - {};
      assert exists deleted :: deleted <= Candidates(env, db, keep) && db == db - deleted by {
        assert {} <= Candidates(env, db, keep);
      }
    } else {
      var before := dbs[..n];
      assert forall i :: 0 <= i < n - 1 ==> RunLeaves(env, before[i], before[i + 1]) by {
        forall i | 0 <= i < n - 1 ensures RunLeaves(env, before[i], before[i + 1]) {
          assert RunLeaves(env, dbs[i], dbs[i + 1]);
        }
      }
      RerunsConverge(env, before);
      assert RunLeaves(env, dbs[n - 1], dbs[n - 1 + 1]);
      var was :| was <= Candidates(env, db, keep) && dbs[n - 1] == db - was;
      OneMoreRun(env, db, was, dbs[n]);
    }
  }

  lemma OneMoreRun(env: Env, db: Database, was: set<Bytes>, after: Database)
    requires Keep(env, db).Some? && was <= Candidates(env, db, Keep(env, db).value)
    requires RunLeaves(env, db - was, after)
    ensures var keep := Keep(env, db).value;
            && (exists deleted :: deleted <= Candidates(env, db, keep) && after == db - deleted)
            && (forall k :: k in db && k !in Candidates(env, db, keep) ==> k in after && after[k] == db[k])
            && Keep(env, after) == Some(keep)
            && Pruned(env, after) == Pruned(env, db)
  {
    hide Keep;
    var keep := Keep(env, db).value;
    DeletionKeeps(env, db, was);
    var more: set<Bytes> := {};
    if after == db - was {
      assert after == (db - was) - more;
    } else {
      more :| more <= Candidates(env, db - was, keep) && after == (db - was) - more;
    }
    var deleted := was + more;
    assert deleted <= Candidates(env, db, keep);
    assert after == db - deleted;
    DeletionKeeps(env, db, deleted);
    var all := Candidates(env, db, keep);
    assert (db - deleted) - (all - deleted) == db - all;
  }
}
