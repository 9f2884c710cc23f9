/** Which records a state traversal reads, and why deleting the others does not
    change that: internal/migration/prune_keep.go and collectPruneState. */
module PruneKeep {
  import opened ByteStrings
  import opened KeyValue
  import opened PruneWriter

  /** What a traversal reads a record as. */
  datatype Kind = AccountNode | StorageNode | Code

  datatype Ref = Ref(kind: Kind, hash: Hash)

  /** The program's readers: Keccak-256, the references inside a record (None when
      it does not decode as its kind), and the head state and genesis references,
      which come from records whose keys are not 32 bytes long (None when the
      head or genesis metadata is invalid). An empty trie has no root record. */
  datatype Env = Env(H: Hasher, refs: (Kind, Bytes) -> Option<set<Ref>>,
                     head: Database -> Option<set<Ref>>, genesis: Database -> Option<set<Hash>>)

  /** The records whose keys are not 32 bytes long. */
  function Metadata(db: Database): Database { map k | k in db && |k| != 32 :: db[k] }

  /** pruneRecordingDB.Get and the reader behind it: present, content-addressed, well formed. */
  predicate Readable(env: Env, db: Database, r: Ref) {
    r.hash in db && env.H(db[r.hash]) == r.hash && env.refs(r.kind, db[r.hash]).Some?
  }

  function Children(env: Env, db: Database, r: Ref): set<Ref> {
    if Readable(env, db, r) then env.refs(r.kind, db[r.hash]).value else {}
  }

  ghost predicate IsPath(env: Env, db: Database, start: set<Ref>, path: seq<Ref>) {
    && path != [] && path[0] in start
    && forall i :: 0 <= i < |path| - 1 ==> path[i + 1] in Children(env, db, path[i])
  }

  ghost predicate Reachable(env: Env, db: Database, start: set<Ref>, r: Ref) {
    exists path :: IsPath(env, db, start, path) && path[|path| - 1] == r
  }

  /** The whole state below the start references can be read. */
  ghost predicate Healthy(env: Env, db: Database, start: set<Ref>) {
    forall r :: Reachable(env, db, start, r) ==> Readable(env, db, r)
  }

  ghost predicate Reads(env: Env, db: Database, start: set<Ref>, k: Bytes) {
    exists r :: Reachable(env, db, start, r) && r.hash == k
  }

  /** The records a traversal reads. */
  ghost function ReadRecords(env: Env, db: Database, start: set<Ref>): Database {
    map k | k in db && Reads(env, db, start, k) :: db[k]
  }

  lemma StartReachable(env: Env, db: Database, start: set<Ref>, r: Ref)
    requires r in start
    ensures Reachable(env, db, start, r)
  {
    assert IsPath(env, db, start, [r]);
  }

  lemma ChildReachable(env: Env, db: Database, start: set<Ref>, r: Ref, child: Ref)
    requires Reachable(env, db, start, r) && child in Children(env, db, r)
    ensures Reachable(env, db, start, child)
  {
    var path :| IsPath(env, db, start, path) && path[|path| - 1] == r;
    assert IsPath(env, db, start, path + [child]);
  }

  /** A set that holds the start and is closed under references holds all that is reachable. */
  lemma {:induction false} ClosedHolds(env: Env, db: Database, start: set<Ref>, closed: set<Ref>, path: seq<Ref>)
    requires start <= closed && forall r :: r in closed ==> Children(env, db, r) <= closed
    requires IsPath(env, db, start, path)
    ensures path[|path| - 1] in closed
    decreases |path|
  {
    if |path| > 1 {
      var n := |path| - 1;
      ClosedHolds(env, db, start, closed, path[..n]);
      assert path[n] in Children(env, db, path[n - 1]);
    }
  }

  ghost predicate Explored(env: Env, db: Database, start: set<Ref>, visited: set<Ref>, frontier: set<Ref>) {
    && start <= visited + frontier && visited !! frontier
    && (forall r :: r in visited + frontier ==> Reachable(env, db, start, r))
    && (forall r :: r in visited ==> Readable(env, db, r) && Children(env, db, r) <= visited + frontier)
  }

  lemma ExploreStart(env: Env, db: Database, start: set<Ref>)
    ensures Explored(env, db, start, {}, start)
  {
    forall r | r in start
      ensures Reachable(env, db, start, r)
    {
      StartReachable(env, db, start, r);
    }
  }

  lemma ExploreStep(env: Env, db: Database, start: set<Ref>, visited: set<Ref>, frontier: set<Ref>, r: Ref)
    requires Explored(env, db, start, visited, frontier) && r in frontier && Readable(env, db, r)
    ensures Explored(env, db, start, visited + {r}, (frontier + Children(env, db, r)) - (visited + {r}))
    ensures r !in visited
  {
    hide Reachable, Readable;
    var children := Children(env, db, r);
    forall child | child in children
      ensures Reachable(env, db, start, child)
    {
      ChildReachable(env, db, start, r, child);
    }
    var next := (frontier + children) - (visited + {r});
    assert visited + {r} + next == visited + frontier + children;
  }

  lemma ExploredAll(env: Env, db: Database, start: set<Ref>, visited: set<Ref>)
    requires Explored(env, db, start, visited, {})
    ensures forall r :: Reachable(env, db, start, r) <==> r in visited
    ensures Healthy(env, db, start)
  {
    forall r | Reachable(env, db, start, r)
      ensures r in visited
    {
      var path :| IsPath(env, db, start, path) && path[|path| - 1] == r;
      ClosedHolds(env, db, start, visited, path);
    }
  }

  ghost predicate Recorded(db: Database, visited: set<Ref>, found: Database) {
    && (forall r :: r in visited ==> r.hash in found)
    && (forall k :: k in found ==> k in db && found[k] == db[k] && exists r :: r in visited && r.hash == k)
  }

  lemma RecordedAll(env: Env, db: Database, start: set<Ref>, visited: set<Ref>, found: Database)
    requires forall r :: Reachable(env, db, start, r) <==> r in visited
    requires Recorded(db, visited, found)
    ensures found == ReadRecords(env, db, start)
  {
    hide Reachable;
    var all := ReadRecords(env, db, start);
    assert forall k :: k in found <==> k in all;
  }

  ghost function Universe(db: Database): set<Ref> {
    set kind, k | kind in {AccountNode, StorageNode, Code} && k in db && |k| == 32 :: Ref(kind, k)
  }

  lemma InUniverse(env: Env, db: Database, r: Ref)
    requires Readable(env, db, r)
    ensures r in Universe(db)
  {
    assert r.kind.AccountNode? || r.kind.StorageNode? || r.kind.Code?;
    assert r == Ref(r.kind, r.hash);
  }

  /** A keep writer that has recorded nothing but the database's own records. */
  ghost predicate Recording(w: Writer, env: Env, db: Database)
    reads w
  {
    w.Valid() && !w.failed && w.H == env.H && forall k :: k in w.contents ==> k in db && w.contents[k] == db[k]
  }

  /** pruneRecordingDB.Get of a readable record: it goes into the keep writer. */
  method Get(env: Env, db: Database, r: Ref, w: Writer) returns (ok: bool)
    requires Recording(w, env, db) && Readable(env, db, r)
    modifies w
    ensures ok ==> Recording(w, env, db) && w.contents == old(w.contents)[r.hash := db[r.hash]]
    ensures ok || w.interruptible
  {
    hide Held;
    ReadIs(env, db, r);
    SameHeld(w, env, db, r.hash);
    ok := w.Put(r.hash, db[r.hash]);
  }

  lemma NoneRecorded(db: Database)
    ensures Recorded(db, {}, map[])
  {
  }

  /** A state traversal that visits references in any order, through pruneRecordingDB when
      there is a keep writer: it succeeds only if the state is healthy, has then put exactly
      the records read into the writer, and fails on a healthy state only if a write fails. */
  method TraverseState(env: Env, db: Database, start: set<Ref>, w: Writer?) returns (ok: bool)
    requires w != null ==> Recording(w, env, db)
    modifies if w == null then {} else {w}
    ensures ok ==> Healthy(env, db, start)
    ensures ok && w != null ==> Recording(w, env, db) && w.contents == old(w.contents) + ReadRecords(env, db, start)
    ensures Healthy(env, db, start) && (w == null || !w.interruptible) ==> ok
  {
    hide Reachable, Readable, Children, Universe, Recording, Explored, Recorded, Healthy, ReadRecords, Writer.Valid;
    var visited: set<Ref>, frontier := {}, start;
    ghost var found: Database := map[];
    NoneRecorded(db);
    ExploreStart(env, db, start);
    while frontier != {}
      invariant Explored(env, db, start, visited, frontier)
      invariant Recorded(db, visited, found)
      invariant w != null ==> Recording(w, env, db) && w.contents == old(w.contents) + found
      decreases Universe(db) - visited
    {
      var r :| r in frontier;
      if !Readable(env, db, r) {
        Unhealthy(env, db, start, visited, frontier, r);
        return false;
      }
      ExploreStep(env, db, start, visited, frontier, r);
      InUniverse(env, db, r);
      if w != null {
        ok := Get(env, db, r, w);
        if !ok {
          return;
        }
      }
      RecordStep(env, db, r, visited, found);
      found := Noted(env, db, r, found);
      visited := visited + {r};
      frontier := (frontier + Children(env, db, r)) - visited;
    }
    ExploredAll(env, db, start, visited);
    RecordedAll(env, db, start, visited, found);
    ok := true;
  }

  lemma Unhealthy(env: Env, db: Database, start: set<Ref>, visited: set<Ref>, frontier: set<Ref>, r: Ref)
    requires Explored(env, db, start, visited, frontier) && r in frontier && !Readable(env, db, r)
    ensures !Healthy(env, db, start)
  {
    hide Reachable, Readable, Children;
  }

  lemma ReadIs(env: Env, db: Database, r: Ref)
    requires Readable(env, db, r)
    ensures r.hash in db && env.H(db[r.hash]) == r.hash
  {
  }

  /** What a recording writer holds for a key is the database's record. */
  lemma SameHeld(w: Writer, env: Env, db: Database, k: Bytes)
    requires Recording(w, env, db) && k in db
    ensures w.shards != [] && (Held(w.db, w.shards, k).Some? ==> Held(w.db, w.shards, k).value == db[k])
  {
    hide Held;
    assert Held(w.db, w.shards, k) == Lookup(w.contents, k);
  }

  lemma RecordStep(env: Env, db: Database, r: Ref, visited: set<Ref>, found: Database)
    requires Recorded(db, visited, found) && Readable(env, db, r)
    ensures Recorded(db, visited + {r}, Noted(env, db, r, found))
  {
  }

  function Noted(env: Env, db: Database, r: Ref, found: Database): Database
    requires Readable(env, db, r)
  {
    found[r.hash := db[r.hash]]
  }

  // Locality.

  /** Between two databases: nothing is added or changed, and everything read stays. */
  ghost predicate Trimmed(before: Database, after: Database, kept: Database) {
    && (forall k :: k in after ==> k in before && after[k] == before[k])
    && (forall k :: k in kept ==> k in after)
  }

  lemma PathFront(env: Env, db: Database, start: set<Ref>, path: seq<Ref>)
    requires IsPath(env, db, start, path) && |path| > 1
    ensures IsPath(env, db, start, path[..|path| - 1])
    ensures path[|path| - 1] in Children(env, db, path[|path| - 2])
  {
    hide Children;
    var n := |path| - 1;
    assert path[n - 1 + 1] in Children(env, db, path[n - 1]);
  }

  lemma PathLonger(env: Env, db: Database, start: set<Ref>, path: seq<Ref>)
    requires |path| > 1 && IsPath(env, db, start, path[..|path| - 1])
    requires path[|path| - 1] in Children(env, db, path[|path| - 2])
    ensures IsPath(env, db, start, path)
  {
    hide Children;
    var n := |path| - 1;
    forall i | 0 <= i < n
      ensures path[i + 1] in Children(env, db, path[i])
    {
      if i < n - 1 {
        assert path[..n][i + 1] in Children(env, db, path[..n][i]);
      }
    }
  }

  lemma {:induction false} PathSurvives(env: Env, db: Database, start: set<Ref>, after: Database, path: seq<Ref>)
    requires Healthy(env, db, start) && Trimmed(db, after, ReadRecords(env, db, start))
    requires IsPath(env, db, start, path)
    ensures IsPath(env, after, start, path) && Readable(env, after, path[|path| - 1])
    decreases |path|
  {
    hide IsPath;
    var n := |path| - 1;
    assert path != [] && (n == 0 ==> path[0] in start) by { PathStart(env, db, start, path); }
    var last := path[n];
    assert Reachable(env, db, start, last);
    assert last.hash in ReadRecords(env, db, start);
    if n > 0 {
      PathFront(env, db, start, path);
      PathSurvives(env, db, start, after, path[..n]);
      assert path[..n][n - 1] == path[n - 1];
      assert Children(env, after, path[n - 1]) == Children(env, db, path[n - 1]);
      PathLonger(env, after, start, path);
    } else {
      OneStep(env, after, start, path);
    }
  }

  lemma PathStart(env: Env, db: Database, start: set<Ref>, path: seq<Ref>)
    requires IsPath(env, db, start, path)
    ensures path != [] && path[0] in start
  {
  }

  lemma OneStep(env: Env, db: Database, start: set<Ref>, path: seq<Ref>)
    requires |path| == 1 && path[0] in start
    ensures IsPath(env, db, start, path)
  {
  }

  lemma {:induction false} PathWasThere(env: Env, db: Database, start: set<Ref>, after: Database, path: seq<Ref>)
    requires Trimmed(db, after, map[]) && IsPath(env, after, start, path)
    ensures IsPath(env, db, start, path)
  {
    forall i | 0 <= i < |path| - 1
      ensures path[i + 1] in Children(env, db, path[i])
    {
      assert path[i + 1] in Children(env, after, path[i]);
    }
  }

  /** Deleting records a traversal does not read leaves the traversal as it was:
      still healthy, reading exactly the same records. */
  lemma ReadsAreLocal(env: Env, db: Database, start: set<Ref>, after: Database)
    requires Healthy(env, db, start) && Trimmed(db, after, ReadRecords(env, db, start))
    ensures Healthy(env, after, start)
    ensures ReadRecords(env, after, start) == ReadRecords(env, db, start)
  {
    forall r
      ensures Reachable(env, after, start, r) <==> Reachable(env, db, start, r)
      ensures Reachable(env, after, start, r) ==> Readable(env, after, r)
    {
      if Reachable(env, after, start, r) {
        var path :| IsPath(env, after, start, path) && path[|path| - 1] == r;
        PathWasThere(env, db, start, after, path);
      }
      if Reachable(env, db, start, r) {
        var path :| IsPath(env, db, start, path) && path[|path| - 1] == r;
        PathSurvives(env, db, start, after, path);
      }
    }
    forall k
      ensures Reads(env, after, start, k) <==> Reads(env, db, start, k)
    {
    }
    var was, now := ReadRecords(env, db, start), ReadRecords(env, after, start);
    assert forall k :: k in was <==> k in now;
    assert now == was;
  }
}
