/** Classifying storage slots through cursors that mostly step forward:
    internal/migration/ovm_storage_cursor.go and classifySlot. */
module OvmCursor {
  import opened ByteStrings
  import opened KeyValue

  const CURSOR_STEPS: nat := 8

  /** Where an iterator opened at a start key stands: the first key not below it. */
  function LowerBound(entries: seq<Record>, key: Bytes, from: nat): (at: nat)
    requires from <= |entries|
    ensures from <= at <= |entries|
    ensures forall j :: from <= j < at ==> Less(entries[j].key, key)
    ensures at < |entries| ==> !Less(entries[at].key, key)
    decreases |entries| - from
  {
    if from < |entries| && Less(entries[from].key, key) then LowerBound(entries, key, from + 1) else from
  }

  function Lookup(entries: seq<Record>, key: Bytes, at: nat): Option<Bytes> {
    if at < |entries| && entries[at].key == key then Some(entries[at].value) else None
  }

  /** One namespace of the evidence index, in key order and unchanging during the scan. */
  class Cursor {
    const entries: seq<Record>
    var open: bool
    var at: nat
    /** The last key asked for. */
    ghost var last: Option<Bytes>

    /** Everything the iterator has passed lies below the last key asked for. */
    ghost predicate Valid()
      reads this
    {
      && Sorted(entries) && at <= |entries|
      && (open ==> last.Some? && forall j :: 0 <= j < at ==> Less(entries[j].key, last.value))
    }

    constructor (entries: seq<Record>)
      requires Sorted(entries)
      ensures Valid() && this.entries == entries && last == None
    {
      this.entries := entries;
      open, at, last := false, 0, None;
    }

    /** get: the namespace's value at the key, as a map lookup would find it, after at
        most eight forward steps and one seek. Keys come in increasing order. */
    method Get(key: Bytes) returns (value: Option<Bytes>, steps: nat, seeks: nat)
      requires Valid() && (last.Some? ==> Less(last.value, key))
      modifies this
      ensures Valid() && last == Some(key)
      ensures value == if key in AsMap(entries) then Some(AsMap(entries)[key]) else None
      ensures steps <= 8 && seeks <= 1
    {
      steps, seeks := 0, 0;
      if open {
        StillBelow(entries, at, last.value, key);
      } else {
        at := LowerBound(entries, key, 0);
        open := true;
        seeks := 1;
      }
      while at < |entries| && Less(entries[at].key, key)
        invariant open && at <= |entries| && steps <= CURSOR_STEPS && seeks <= 1
        invariant forall j :: 0 <= j < at ==> Less(entries[j].key, key)
        invariant seeks == 1 ==> at == |entries| || !Less(entries[at].key, key)
        decreases |entries| - at
      {
        if steps == CURSOR_STEPS {
          at := LowerBound(entries, key, 0);
          seeks := 1;
          break;
        }
        at := at + 1;
        steps := steps + 1;
      }
      last := Some(key);
      value := Lookup(entries, key, at);
      FoundThere(entries, key, at);
    }
  }

  lemma StillBelow(entries: seq<Record>, at: nat, last: Bytes, key: Bytes)
    requires at <= |entries| && Less(last, key) && forall j :: 0 <= j < at ==> Less(entries[j].key, last)
    ensures forall j :: 0 <= j < at ==> Less(entries[j].key, key)
  {
    forall j | 0 <= j < at
      ensures Less(entries[j].key, key)
    {
      LessTransitive(entries[j].key, last, key);
    }
  }

  /** With everything before it below the key, and itself not below, the position decides membership. */
  lemma FoundThere(entries: seq<Record>, key: Bytes, at: nat)
    requires Sorted(entries) && at <= |entries|
    requires forall j :: 0 <= j < at ==> Less(entries[j].key, key)
    requires at < |entries| ==> !Less(entries[at].key, key)
    ensures Lookup(entries, key, at) == if key in AsMap(entries) then Some(AsMap(entries)[key]) else None
  {
    hide AsMap;
    LessTrichotomy(key, key);
    if at < |entries| && entries[at].key == key {
      AsMapHolds(entries, entries[at]);
    } else {
      forall j | 0 <= j < |entries|
        ensures entries[j].key != key
      {
        if j > at {
          LessTrichotomy(entries[at].key, key);
          LessTransitive(key, entries[at].key, entries[j].key);
        } else if j == at {
          LessTrichotomy(entries[at].key, key);
        }
      }
      AsMapHolds(entries, Record.Record(key, []));
    }
  }

  // Classification.

  /** What a storage slot is: a balance (of an address), some other known slot, or
      unknown or ambiguous. */
  datatype Class = Balance(address: Bytes) | Other | Unowned

  /** The three namespaces decide by exact-one membership. */
  function ClassOf(balances: Database, allowances: Database, known: Database, key: Bytes): Class {
    var found := (if key in balances then 1 else 0) + (if key in allowances then 1 else 0) + (if key in known then 1
        else 0);
    if found != 1 then Unowned else if key in balances then Balance(balances[key]) else Other
  }

  method ClassifySlot(balances: Cursor, allowances: Cursor, known: Cursor, key: Bytes) returns (c: Class)
    requires balances != allowances && balances != known && allowances != known
    requires balances.Valid() && allowances.Valid() && known.Valid()
    requires balances.last == allowances.last == known.last
    requires balances.last.Some? ==> Less(balances.last.value, key)
    modifies balances, allowances, known
    ensures balances.Valid() && allowances.Valid() && known.Valid()
    ensures balances.last == allowances.last == known.last == Some(key)
    ensures c == ClassOf(AsMap(balances.entries), AsMap(allowances.entries), AsMap(known.entries), key)
  {
    hide AsMap, Sorted;
    var b, _, _ := balances.Get(key);
    var a, _, _ := allowances.Get(key);
    var k, _, _ := known.Get(key);
    var found := (if b.Some? then 1 else 0) + (if a.Some? then 1 else 0) + (if k.Some? then 1 else 0);
    if found != 1 {
      return Unowned;
    }
    c := if b.Some? then Balance(b.value) else Other;
  }

  /** classifyStorage's scan: every slot of the storage trie, in order, gets the
      class that exact-one membership gives it. */
  method ClassifyStorage(slots: seq<Bytes>, balances: seq<Record>, allowances: seq<Record>, known: seq<Record>)
    returns (classes: seq<Class>)
    requires Sorted(balances) && Sorted(allowances) && Sorted(known)
    requires forall i, j :: 0 <= i < j < |slots| ==> Less(slots[i], slots[j])
    ensures |classes| == |slots|
    ensures forall i :: 0 <= i < |slots| ==>
              classes[i] == ClassOf(AsMap(balances), AsMap(allowances), AsMap(known), slots[i])
  {
    hide AsMap, Sorted, ClassOf;
    var b := new Cursor(balances);
    var a := new Cursor(allowances);
    var k := new Cursor(known);
    classes := [];
    for i := 0 to |slots|
      invariant fresh(b) && fresh(a) && fresh(k)
      invariant b != a && b != k && a != k
      invariant b.Valid() && a.Valid() && k.Valid()
      invariant b.entries == balances && a.entries == allowances && k.entries == known
      invariant b.last == a.last == k.last && (i == 0 ==> b.last.None?) && (i > 0 ==> b.last == Some(slots[i - 1]))
      invariant |classes| == i
      invariant forall j :: 0 <= j < i ==> classes[j] == ClassOf(AsMap(balances), AsMap(allowances), AsMap(known),
                slots[j])
    {
      var c := ClassifySlot(b, a, k, slots[i]);
      classes := classes + [c];
    }
  }
}
