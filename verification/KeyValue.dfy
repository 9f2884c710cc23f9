/** A database as its iterator shows it: records in strictly increasing key order,
    and the map they stand for. */
module KeyValue {
  import opened ByteStrings

  type Database = map<Bytes, Bytes>

  datatype Record = Record(key: Bytes, value: Bytes)

  ghost predicate Sorted(records: seq<Record>) {
    forall i, j :: 0 <= i < j < |records| ==> Less(records[i].key, records[j].key)
  }

  predicate HasKey(records: seq<Record>, key: Bytes) {
    exists i :: 0 <= i < |records| && records[i].key == key
  }

  function AsMap(records: seq<Record>): Database
    requires Sorted(records)
  {
    DistinctKeys(records);
    map i | 0 <= i < |records| :: records[i].key := records[i].value
  }

  lemma DistinctKeys(records: seq<Record>)
    requires Sorted(records)
    ensures forall i, j :: 0 <= i < j < |records| ==> records[i].key != records[j].key
  {
    forall i, j | 0 <= i < j < |records|
      ensures records[i].key != records[j].key
    {
      LessTrichotomy(records[i].key, records[j].key);
    }
  }

  lemma AsMapHolds(records: seq<Record>, r: Record)
    requires Sorted(records)
    ensures r in records <==> r.key in AsMap(records) && AsMap(records)[r.key] == r.value
    ensures HasKey(records, r.key) <==> r.key in AsMap(records)
  {
    DistinctKeys(records);
    if r.key in AsMap(records) {
      var i :| 0 <= i < |records| && records[i].key == r.key;
      if AsMap(records)[r.key] == r.value {
        assert records[i] == r;
      }
    }
  }

  // Iterating a map in key order.

  /** Where a key belongs among sorted records. */
  method Position(records: seq<Record>, key: Bytes) returns (at: nat)
    requires Sorted(records) && !HasKey(records, key)
    ensures at <= |records|
    ensures forall i :: 0 <= i < at ==> Less(records[i].key, key)
    ensures forall i :: at <= i < |records| ==> Less(key, records[i].key)
  {
    hide Less;
    at := 0;
    while at < |records| && Less(records[at].key, key)
      invariant at <= |records|
      invariant forall i :: 0 <= i < at ==> Less(records[i].key, key)
    {
      at := at + 1;
    }
    if at < |records| {
      LessTrichotomy(records[at].key, key);
      forall i | at <= i < |records|
        ensures Less(key, records[i].key)
      {
        if at < i {
          LessTransitive(key, records[at].key, records[i].key);
        }
      }
    }
  }

  lemma InsertSorted(records: seq<Record>, r: Record, at: nat)
    requires Sorted(records) && at <= |records|
    requires forall i :: 0 <= i < at ==> Less(records[i].key, r.key)
    requires forall i :: at <= i < |records| ==> Less(r.key, records[i].key)
    ensures Sorted(records[..at] + [r] + records[at..])
    ensures forall x :: x in records[..at] + [r] + records[at..] <==> x in records || x == r
  {
    hide Less;
    assert records == records[..at] + records[at..];
    var s := records[..at] + [r] + records[at..];
    forall i | 0 <= i < |s|
      ensures s[i] == if i < at then records[i] else if i == at then r else records[i - 1]
    {
    }
  }

  lemma SortedUnique(records: seq<Record>, db: Database)
    requires Sorted(records)
    requires forall r: Record :: r in records <==> r.key in db && db[r.key] == r.value
    ensures AsMap(records) == db
  {
    hide Sorted, AsMap;
    forall k
      ensures (k in AsMap(records) <==> k in db) && (k in db ==> AsMap(records)[k] == db[k])
    {
      if k in db {
        AsMapHolds(records, Record.Record(k, db[k]));
      }
      if k in AsMap(records) {
        AsMapHolds(records, Record.Record(k, AsMap(records)[k]));
      }
    }
  }

  /** An iterator's view of a database. */
  method Iterate(db: Database) returns (records: seq<Record>)
    ensures Sorted(records) && AsMap(records) == db
  {
    hide AsMap;
    records := [];
    var keys := db.Keys;
    while keys != {}
      invariant keys <= db.Keys && Sorted(records)
      invariant forall r: Record :: r in records <==> r.key in db && r.key !in keys && db[r.key] == r.value
      decreases |keys|
    {
      var key :| key in keys;
      assert !HasKey(records, key) by {
        assert forall i :: 0 <= i < |records| ==> records[i] in records;
      }
      var at := Position(records, key);
      InsertSorted(records, Record.Record(key, db[key]), at);
      records := records[..at] + [Record.Record(key, db[key])] + records[at..];
      keys := keys - {key};
    }
    SortedUnique(records, db);
  }
}
