/** Rebuilding a trie from its leaves and a sorted list of patches:
    rebuildPatchedTriePrefix in internal/migration/ovm_transform.go. */
module PatchedTrie {
  import opened ByteStrings
  import opened KeyValue

  /** The leaves after patching: a patch replaces its key's leaf, an empty value is no leaf. */
  function Patched(leaves: Database, patches: Database): Database {
    map k | k in leaves.Keys + patches.Keys && (if k in patches then patches[k] else leaves[k]) != []
      :: if k in patches then patches[k] else leaves[k]
  }

  /** A record of the first a leaves or first b patches that belongs in the result. */
  ghost predicate Taken(original: seq<Record>, patches: seq<Record>, a: nat, b: nat, r: Record)
    requires a <= |original| && b <= |patches|
  {
    r.value != [] && (r in patches[..b] || (r in original[..a] && !HasKey(patches, r.key)))
  }

  /** Consumed keys lie below the keys still ahead. */
  ghost predicate Below(consumed: seq<Record>, ahead: seq<Record>, at: nat)
    requires at <= |ahead|
  {
    forall i, j :: 0 <= i < |consumed| && at <= j < |ahead| ==> Less(consumed[i].key, ahead[j].key)
  }

  lemma BelowGrows(consumed: seq<Record>, r: Record, ahead: seq<Record>, at: nat, next: nat)
    requires at <= next <= |ahead| && Sorted(ahead) && Below(consumed, ahead, at)
    requires next < |ahead| ==> Less(r.key, ahead[next].key)
    ensures Below(consumed + [r], ahead, next)
  {
    hide Less;
    forall i, j | 0 <= i < |consumed + [r]| && next <= j < |ahead|
      ensures Less((consumed + [r])[i].key, ahead[j].key)
    {
      if i == |consumed| && j > next {
        LessTransitive(r.key, ahead[next].key, ahead[j].key);
      }
    }
  }

  lemma TakePatch(original: seq<Record>, patches: seq<Record>, a: nat, b: nat, next: nat)
    requires Sorted(original) && Sorted(patches) && a <= |original| && b < |patches|
    requires next == if a < |original| && original[a].key == patches[b].key then a + 1 else a
    ensures forall r :: Taken(original, patches, next, b + 1, r) <==>
                        Taken(original, patches, a, b, r) || (r == patches[b] && r.value != [])
  {
    assert patches[..b + 1] == patches[..b] + [patches[b]];
    if next == a + 1 {
      assert original[..a + 1] == original[..a] + [original[a]];
      assert HasKey(patches, original[a].key);
    }
  }

  lemma TakeOriginal(original: seq<Record>, patches: seq<Record>, a: nat, b: nat)
    requires Sorted(patches) && a < |original| && b <= |patches|
    requires Below(patches[..b], original, a)
    requires b < |patches| ==> Less(original[a].key, patches[b].key)
    ensures forall r :: Taken(original, patches, a + 1, b, r) <==>
                        Taken(original, patches, a, b, r) || (r == original[a] && r.value != [])
  {
    assert original[..a + 1] == original[..a] + [original[a]];
    var key := original[a].key;
    LessTrichotomy(key, key);
    forall j | 0 <= j < |patches|
      ensures patches[j].key != key
    {
      if j < b {
        assert patches[..b][j] == patches[j];
      } else if j > b {
        LessTransitive(key, patches[b].key, patches[j].key);
      }
    }
    assert !HasKey(patches, key);
  }

  lemma TakenAll(original: seq<Record>, patches: seq<Record>, updates: seq<Record>)
    requires Sorted(original) && Sorted(patches) && Sorted(updates)
    requires forall r :: r in updates <==> Taken(original, patches, |original|, |patches|, r)
    ensures AsMap(updates) == Patched(AsMap(original), AsMap(patches))
  {
    hide AsMap, Sorted, HasKey;
    assert original[..|original|] == original && patches[..|patches|] == patches;
    var m := AsMap(updates);
    var want := Patched(AsMap(original), AsMap(patches));
    forall k
      ensures (k in m <==> k in want) && (k in m ==> m[k] == want[k])
    {
      if k in m {
        var r := Record.Record(k, m[k]);
        AsMapHolds(updates, r);
        AsMapHolds(original, r);
        AsMapHolds(patches, r);
      } else if k in want {
        var r := Record.Record(k, want[k]);
        AsMapHolds(updates, r);
        AsMapHolds(original, r);
        AsMapHolds(patches, r);
      }
    }
    assert m == want;
  }

  /** The merge loop: the trie builder receives keys in strictly increasing order,
      and what it receives is the old leaves overridden by the patches. */
  method RebuildPatchedTrie(original: seq<Record>, patches: seq<Record>) returns (updates: seq<Record>)
    requires Sorted(original) && Sorted(patches)
    ensures Sorted(updates)
    ensures AsMap(updates) == Patched(AsMap(original), AsMap(patches))
  {
    hide AsMap, Patched, Taken, HasKey;
    var a, b := 0, 0;
    updates := [];
    NothingTaken(original, patches);
    while a < |original| || b < |patches|
      invariant a <= |original| && b <= |patches|
      invariant Sorted(updates) && Below(updates, original, a) && Below(updates, patches, b)
      invariant Below(patches[..b], original, a)
      invariant forall r :: r in updates <==> Taken(original, patches, a, b, r)
      decreases |original| - a + |patches| - b
    {
      var usePatch := b < |patches| && (a == |original| || !Less(original[a].key, patches[b].key));
      var r := if usePatch then patches[b] else original[a];
      if usePatch {
        var next := if a < |original| && original[a].key == r.key then a + 1 else a;
        TakePatch(original, patches, a, b, next);
        PatchAhead(original, patches, a, b, next);
        assert patches[..b + 1] == patches[..b] + [patches[b]];
        BelowGrows(patches[..b], r, original, a, next);
        BelowGrows(updates, r, original, a, next);
        BelowGrows(updates, r, patches, b, b + 1);
        updates := Append(updates, r, original, a, patches, b);
        a := next;
        b := b + 1;
      } else {
        TakeOriginal(original, patches, a, b);
        BelowGrows(updates, r, original, a, a + 1);
        BelowGrows(updates, r, patches, b, b);
        updates := Append(updates, r, original, a, patches, b);
        a := a + 1;
      }
    }
    TakenAll(original, patches, updates);
  }

  lemma NothingTaken(original: seq<Record>, patches: seq<Record>)
    ensures forall r :: !Taken(original, patches, 0, 0, r)
  {
  }

  lemma PatchAhead(original: seq<Record>, patches: seq<Record>, a: nat, b: nat, next: nat)
    requires Sorted(original) && a <= |original| && b < |patches|
    requires a == |original| || !Less(original[a].key, patches[b].key)
    requires next == if a < |original| && original[a].key == patches[b].key then a + 1 else a
    ensures next < |original| ==> Less(patches[b].key, original[next].key)
  {
    if a < |original| {
      LessTrichotomy(original[a].key, patches[b].key);
    }
  }

  /** stack.Update, skipped for an empty value. */
  method Append(updates: seq<Record>, r: Record, ghost original: seq<Record>, ghost a: nat,
                ghost patches: seq<Record>, ghost b: nat)
    returns (next: seq<Record>)
    requires Sorted(updates) && a <= |original| && b <= |patches|
    requires (a < |original| && r == original[a]) || (b < |patches| && r == patches[b])
    requires Below(updates, original, a) && Below(updates, patches, b)
    ensures Sorted(next) && next == if r.value == [] then updates else updates + [r]
  {
    next := if r.value == [] then updates else updates + [r];
  }

  /** The whole rebuild of one trie. */
  method Rebuild(leaves: Database, patches: Database) returns (updated: Database)
    ensures updated == Patched(leaves, patches)
  {
    hide AsMap, Patched, Sorted;
    var a := Iterate(leaves);
    var b := Iterate(patches);
    var updates := RebuildPatchedTrie(a, b);
    updated := AsMap(updates);
  }

  /** A patched leaf. */
  lemma PatchedAt(leaves: Database, patches: Database, k: Bytes)
    ensures var v := if k in patches then patches[k] else if k in leaves then leaves[k] else [];
            && (k in Patched(leaves, patches) <==> v != [])
            && (v != [] ==> Patched(leaves, patches)[k] == v)
  {
  }
}
