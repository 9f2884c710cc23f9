/** The sharded, write-behind store of the keep set: pruneKeepWriter in
    internal/migration/prune_keep.go. Each put holds its shard's lock throughout, so
    concurrent puts happen one after another in some order. */
module PruneWriter {
  import opened ByteStrings
  import opened KeyValue

  const IDEAL_BATCH_SIZE: nat := 102400

  /** One shard's unwritten batch; pending and the batch hold the same entries. */
  datatype Shard = Shard(pending: Database, size: nat)

  function ShardOf(key: Bytes, n: nat): (i: nat)
    requires n > 0
    ensures i < n
  {
    if key == [] then 0 else key[0] % n
  }

  /** Keys are kept in their own shard, and are the hashes of their values. */
  ghost predicate Owned(H: Hasher, shards: seq<Shard>) {
    shards != [] && forall i, k :: 0 <= i < |shards| && k in shards[i].pending ==>
      i == ShardOf(k, |shards|) && k == H(shards[i].pending[k])
  }

  /** What the store holds for a key: its shard's batch first, then the database. */
  function Held(db: Database, shards: seq<Shard>, k: Bytes): Option<Bytes>
    requires shards != []
  {
    var p := shards[ShardOf(k, |shards|)].pending;
    if k in p then Some(p[k]) else if k in db then Some(db[k]) else None
  }

  function Lookup(m: Database, k: Bytes): Option<Bytes> { if k in m then Some(m[k]) else None }

  ghost predicate Holds(db: Database, shards: seq<Shard>, contents: Database)
    requires shards != []
  {
    forall k :: Held(db, shards, k) == Lookup(contents, k)
  }

  /** Writing a shard's batch out changes nothing that the store holds. */
  lemma FlushHolds(H: Hasher, db: Database, shards: seq<Shard>, contents: Database, i: nat)
    requires Owned(H, shards) && Holds(db, shards, contents) && i < |shards|
    ensures Owned(H, shards[i := Shard(map[], 0)]) && Holds(db + shards[i].pending, shards[i := Shard(map[], 0)],
            contents)
  {
    hide ShardOf;
    var next := shards[i := Shard(map[], 0)];
    forall k
      ensures Held(db + shards[i].pending, next, k) == Held(db, shards, k)
    {
      if k in shards[i].pending {
        assert i == ShardOf(k, |shards|);
      }
    }
    forall k
      ensures Held(db + shards[i].pending, next, k) == Lookup(contents, k)
    {
      assert Held(db, shards, k) == Lookup(contents, k);
    }
  }

  lemma PutHolds(H: Hasher, db: Database, shards: seq<Shard>, contents: Database, key: Bytes, value: Bytes, size: nat)
    requires Owned(H, shards) && Holds(db, shards, contents) && H(value) == key
    ensures var i := ShardOf(key, |shards|);
            var next := shards[i := Shard(shards[i].pending[key := value], size)];
            Owned(H, next) && Holds(db, next, contents[key := value])
  {
    hide ShardOf;
    var i := ShardOf(key, |shards|);
    var next := shards[i := Shard(shards[i].pending[key := value], size)];
    forall k
      ensures Held(db, next, k) == Lookup(contents[key := value], k)
    {
      assert Held(db, shards, k) == Lookup(contents, k);
    }
  }

  lemma AllWritten(db: Database, shards: seq<Shard>, contents: Database)
    requires shards != [] && Holds(db, shards, contents) && forall j :: 0 <= j < |shards| ==> shards[j].pending == map[]
    ensures db == contents
  {
    hide ShardOf;
    forall k
      ensures Lookup(db, k) == Lookup(contents, k)
    {
      assert Held(db, shards, k) == Lookup(contents, k);
    }
    assert forall k :: k in db <==> Lookup(contents, k).Some?;
  }

  class Writer {
    const H: Hasher
    /** Whether a batch may fail to be written. */
    const interruptible: bool
    var db: Database
    var shards: seq<Shard>
    var failed: bool
    /** Every entry put so far, over what the database held. */
    ghost var contents: Database

    ghost predicate Valid()
      reads this
    {
      Owned(H, shards) && Holds(db, shards, contents)
    }

    constructor (H: Hasher, db: Database, workers: nat, interruptible: bool)
      requires workers > 0
      ensures Valid() && this.H == H && this.interruptible == interruptible && contents == db && !failed
    {
      this.H, this.interruptible, this.db, contents, failed := H, interruptible, db, db, false;
      shards := seq(workers, _ => Shard(map[], 0));
    }

    /** A batch is written whole, or stays as it is. */
    method Flush(i: nat) returns (ok: bool)
      requires Valid() && i < |shards|
      modifies this`db, this`shards
      ensures Valid() && (ok || interruptible)
      ensures shards == if ok then old(shards)[i := Shard(map[], 0)] else old(shards)
    {
      hide Owned, Holds;
      var error: bool := *;
      ok := !(interruptible && error);
      if ok {
        FlushHolds(H, db, shards, contents, i);
        db := db + shards[i].pending;
        shards := shards[i := Shard(map[], 0)];
      }
    }

    /** put: it succeeds unless the writer has failed, the value is not the key's preimage or
        a batch cannot be written; a failure is latched. */
    method Put(key: Bytes, value: Bytes) returns (ok: bool)
      requires Valid()
      // Keccak tells this value from the one already held.
      requires Held(db, shards, key).Some? && H(Held(db, shards, key).value) == H(value) ==>
               Held(db, shards, key).value == value
      modifies this
      ensures Valid() && failed == !ok
      ensures ok ==> !old(failed) && |key| == 32 && H(value) == key && contents == old(contents)[key := value]
      ensures !old(failed) && |key| == 32 && H(value) == key ==> ok || interruptible
    {
      hide Holds, ShardOf;
      ok := false;
      if failed {
        return;
      }
      if |key| != 32 || H(value) != key {
        failed := true;
        return;
      }
      var i := ShardOf(key, |shards|);
      ok := true;
      if key in shards[i].pending {
        assert shards[i].pending[key] == value;
        Same(db, shards, contents, key);
        return;
      }
      var size := shards[i].size + |key| + |value|;
      PutHolds(H, db, shards, contents, key, value, size);
      shards := shards[i := Shard(shards[i].pending[key := value], size)];
      contents := contents[key := value];
      if size >= IDEAL_BATCH_SIZE {
        ok := Flush(i);
        failed := !ok;
      }
    }

    /** close: after the last flush the database holds exactly what was put. */
    method Close() returns (ok: bool)
      requires Valid()
      modifies this`db, this`shards, this`failed
      ensures Valid() && (ok ==> !old(failed) && db == contents)
      ensures !old(failed) ==> ok || interruptible
    {
      hide Holds;
      if failed {
        return false;
      }
      ghost var n := |shards|;
      for i := 0 to |shards|
        invariant Valid() && |shards| == n
        invariant forall j :: 0 <= j < i ==> shards[j].pending == map[]
      {
        ok := Flush(i);
        if !ok {
          failed := true;
          return;
        }
      }
      AllWritten(db, shards, contents);
      ok := true;
    }
  }

  lemma Same(db: Database, shards: seq<Shard>, contents: Database, key: Bytes)
    requires shards != [] && Holds(db, shards, contents) && key in shards[ShardOf(key, |shards|)].pending
    ensures contents == contents[key := shards[ShardOf(key, |shards|)].pending[key]]
  {
    hide ShardOf;
    assert Held(db, shards, key) == Lookup(contents, key);
  }
}
