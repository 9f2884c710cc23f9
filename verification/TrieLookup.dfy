/** Reading a path-scheme trie node by node: a reader that knows nothing of the leaves the
    trie was built from, and what it finds in the nodes of PathNodes. */
module TrieLookup {
  import opened ByteStrings
  import opened Rlp
  import opened Trie

  /** What a reader finds for a key, having come to an item at depth i: a hash is followed to
      the node stored at the path so far, which must have that hash. */
  function Find(H: Hasher, nodes: map<Nibbles, Bytes>, item: Item, key: Nibbles, i: nat): Option<Bytes>
    requires i <= |key|
    decreases |key| - i, if item.Str? then 2 else 1
  {
    match item
    case Str(s) =>
      if s == [] || key[..i] !in nodes || H(nodes[key[..i]]) != s then None
      else
        var node := DecodeBytes(nodes[key[..i]]);
        if node.None? || node.value.Str? then None else Find(H, nodes, node.value, key, i)
    case List(items) =>
      if |items| == 17 then if i < |key| then Find(H, nodes, items[key[i]], key, i + 1) else None
      else if |items| != 2 || items[0].List? then None
      else
        var path := HexPrefixDecode(items[0].s);
        if path.None? || !(path.value.0 <= key[i..]) then None
        else FindBelow(H, nodes, items[1], key, i, |path.value.0|, path.value.1)
  }

  /** Below a leaf or an extension of n nibbles. */
  function FindBelow(H: Hasher, nodes: map<Nibbles, Bytes>, child: Item, key: Nibbles, i: nat, n: nat, leaf: bool):
      Option<Bytes>
    requires i + n <= |key|
    decreases |key| - i, 0
  {
    if leaf then if i + n == |key| && child.Str? then Some(child.s) else None
    else if n == 0 then None
    else Find(H, nodes, child, key, i + n)
  }

  /** What a reader starting at the root finds. */
  function Lookup(H: Hasher, nodes: map<Nibbles, Bytes>, root: Hash, key: Nibbles): Option<Bytes> {
    if root == H([0x80]) then None else Find(H, nodes, Str(root), key, 0)
  }

  // The nodes along a key.

  ghost predicate Along(H: Hasher, leaves: Leaves, nodes: map<Nibbles, Bytes>, key: Nibbles, i: nat, from: nat)
    requires Subtrie(leaves, i)
  {
    && |key| == KEY_NIBBLES && i <= from
    && (leaves != map[] ==> AnyKey(leaves)[..i] == key[..i])
    && forall n :: from <= n <= KEY_NIBBLES ==> Holds(nodes, key[..n], NodeAt(H, leaves, i, false, key[..n]))
  }

  ghost function Answer(leaves: Leaves, key: Nibbles): Option<Bytes> {
    if key in leaves then Some(leaves[key]) else None
  }

  lemma AlongFork(H: Hasher, leaves: Leaves, nodes: map<Nibbles, Bytes>, key: Nibbles, i: nat)
    requires Subtrie(leaves, i) && |leaves| > 1 && Fork(leaves, i) > i && Along(H, leaves, nodes, key, i, i + 1)
    requires AnyKey(leaves)[..Fork(leaves, i)] == key[..Fork(leaves, i)]
    ensures Along(H, leaves, nodes, key, Fork(leaves, i), Fork(leaves, i))
  {
    hide Compose;
    var j := Fork(leaves, i);
    forall n | j <= n <= KEY_NIBBLES
      ensures Holds(nodes, key[..n], NodeAt(H, leaves, j, false, key[..n]))
    {
      assert key[..n][..i] == key[..i];
    }
  }

  lemma AlongBranch(H: Hasher, leaves: Leaves, nodes: map<Nibbles, Bytes>, key: Nibbles, i: nat)
    requires Subtrie(leaves, i) && |leaves| > 1 && Fork(leaves, i) == i && Along(H, leaves, nodes, key, i, i + 1)
    ensures Along(H, Slice(leaves, i, key[i]), nodes, key, i + 1, i + 1)
  {
    hide Compose, Slice;
    var part := Slice(leaves, i, key[i]);
    SlicePrefix(leaves, key, i);
    forall n | i + 1 <= n <= KEY_NIBBLES
      ensures Holds(nodes, key[..n], NodeAt(H, part, i + 1, false, key[..n]))
    {
      assert key[..n][..i] == key[..i] && key[..n][i] == key[i];
    }
  }

  lemma SlicePrefix(leaves: Leaves, key: Nibbles, i: nat)
    requires Subtrie(leaves, i) && leaves != map[] && i < KEY_NIBBLES == |key| && AnyKey(leaves)[..i] == key[..i]
    ensures var part := Slice(leaves, i, key[i]);
            part != map[] ==> AnyKey(part)[..i + 1] == key[..i + 1]
  {
    var part := Slice(leaves, i, key[i]);
    if part != map[] {
      var k := AnyKey(part);
      assert k in leaves && k[..i] == AnyKey(leaves)[..i] == key[..i];
      assert k[..i + 1] == k[..i] + [k[i]] && key[..i + 1] == key[..i] + [key[i]];
    }
  }

  // Leaves, extensions and branches.

  lemma SplitKey(k: Nibbles, key: Nibbles, i: nat, j: nat)
    requires i <= j <= |k| == |key| && k[..i] == key[..i]
    ensures k[i..j] <= key[i..] <==> k[..j] == key[..j]
  {
    assert k[..j] == k[..i] + k[i..j] && key[..j] == key[..i] + key[i..j];
    assert key[i..][..j - i] == key[i..j];
    assert k[..j][i..] == k[i..j] && key[..j][i..] == key[i..j];
  }

  lemma FindPair(H: Hasher, nodes: map<Nibbles, Bytes>, path: Nibbles, leaf: bool, child: Item, key: Nibbles, i: nat)
    requires i <= |key|
    ensures Find(H, nodes, List([Str(HexPrefix(path, leaf)), child]), key, i)
            == if path <= key[i..] then FindBelow(H, nodes, child, key, i, |path|, leaf) else None
  {
    hide HexPrefix, HexPrefixDecode, FindBelow;
    HexPrefixInverse(path, leaf);
  }

  lemma FindLeaf(H: Hasher, leaves: Leaves, nodes: map<Nibbles, Bytes>, key: Nibbles, i: nat)
    requires Subtrie(leaves, i) && |leaves| == 1 && Along(H, leaves, nodes, key, i, i + 1)
    ensures Find(H, nodes, Compose(H, leaves, i), key, i) == Answer(leaves, key)
  {
    hide NodeAt, HexPrefix, Find;
    var k := AnyKey(leaves);
    OnlyKey(leaves);
    FindPair(H, nodes, k[i..], true, Str(leaves[k]), key, i);
    SplitKey(k, key, i, KEY_NIBBLES);
    assert k[i..KEY_NIBBLES] == k[i..] && k[..KEY_NIBBLES] == k && key[..KEY_NIBBLES] == key;
  }

  lemma OnlyKey(leaves: Leaves)
    requires |leaves| == 1
    ensures forall k :: k in leaves <==> k == AnyKey(leaves)
  {
    var k := AnyKey(leaves);
    assert |leaves.Keys - {k}| == 0;
    forall l | l in leaves
      ensures l == k
    {
      assert l != k ==> l in leaves.Keys - {k};
    }
  }

  lemma {:induction false} FindExtension(H: Hasher, leaves: Leaves, nodes: map<Nibbles, Bytes>, key: Nibbles, i: nat)
    requires Subtrie(leaves, i) && |leaves| > 1 && Fork(leaves, i) > i && Along(H, leaves, nodes, key, i, i + 1)
    ensures Find(H, nodes, Compose(H, leaves, i), key, i) == Answer(leaves, key)
    decreases KEY_NIBBLES - i, 0
  {
    hide NodeAt, HexPrefix, Find, Reference, Holds, Slice;
    var k, j := AnyKey(leaves), Fork(leaves, i);
    FindPair(H, nodes, k[i..j], false, Reference(H, leaves, j), key, i);
    SplitKey(k, key, i, j);
    assert key in leaves ==> k[..j] == key[..j];
    if k[..j] == key[..j] {
      AlongFork(H, leaves, nodes, key, i);
      FindReference(H, leaves, nodes, key, j);
    }
  }

  lemma {:induction false} FindBranch(H: Hasher, leaves: Leaves, nodes: map<Nibbles, Bytes>, key: Nibbles, i: nat)
    requires Subtrie(leaves, i) && |leaves| > 1 && Fork(leaves, i) == i && Along(H, leaves, nodes, key, i, i + 1)
    ensures Find(H, nodes, Compose(H, leaves, i), key, i) == Answer(leaves, key)
    decreases KEY_NIBBLES - i, 0
  {
    hide NodeAt, Reference, Holds;
    AlongBranch(H, leaves, nodes, key, i);
    var part := Slice(leaves, i, key[i]);
    FindReference(H, part, nodes, key, i + 1);
    assert Compose(H, leaves, i) == List(BranchItems(H, leaves, i));
    assert BranchItems(H, leaves, i)[key[i]] == Reference(H, part, i + 1);
  }

  lemma {:induction false} FindNode(H: Hasher, leaves: Leaves, nodes: map<Nibbles, Bytes>, key: Nibbles, i: nat)
    requires Subtrie(leaves, i) && leaves != map[] && Along(H, leaves, nodes, key, i, i + 1)
    ensures Find(H, nodes, Compose(H, leaves, i), key, i) == Answer(leaves, key)
    decreases KEY_NIBBLES - i, 1
  {
    hide Find, Compose, NodeAt, Along;
    if |leaves| == 1 {
      FindLeaf(H, leaves, nodes, key, i);
    } else if Fork(leaves, i) > i {
      FindExtension(H, leaves, nodes, key, i);
    } else {
      FindBranch(H, leaves, nodes, key, i);
    }
  }

  lemma StoredNode(H: Hasher, leaves: Leaves, nodes: map<Nibbles, Bytes>, key: Nibbles, i: nat)
    requires Subtrie(leaves, i) && leaves != map[] && |key| == KEY_NIBBLES
    requires key[..i] in nodes && nodes[key[..i]] == Blob(H, leaves, i)
    ensures var node := Compose(H, leaves, i);
            Find(H, nodes, Str(H(Encode(node))), key, i) == Find(H, nodes, node, key, i)
  {
    hide Encode, DecodeBytes, Encodable;
    NodeSize(H, leaves, i);
    DecodeBytesEncoded(Compose(H, leaves, i));
    assert H(Blob(H, leaves, i)) != [];
    assert Compose(H, leaves, i).List?;
  }

  lemma {:induction false} FindReference(H: Hasher, leaves: Leaves, nodes: map<Nibbles, Bytes>, key: Nibbles, i: nat)
    requires Subtrie(leaves, i) && Along(H, leaves, nodes, key, i, i)
    ensures Find(H, nodes, Reference(H, leaves, i), key, i) == Answer(leaves, key)
    decreases KEY_NIBBLES - i, 2
  {
    if leaves != map[] {
      FindNode(H, leaves, nodes, key, i);
      if |Blob(H, leaves, i)| >= 32 {
        assert Holds(nodes, key[..i], NodeAt(H, leaves, i, false, key[..i]));
        assert key[..i][..i] == key[..i];
        StoredNode(H, leaves, nodes, key, i);
      }
    }
  }

  // The theorem.

  lemma RootAlong(H: Hasher, leaves: Leaves, key: Nibbles)
    requires Subtrie(leaves, 0) && leaves != map[] && |key| == KEY_NIBBLES
    ensures Along(H, leaves, PathNodes(H, leaves), key, 0, 1)
    ensures key[..0] in PathNodes(H, leaves) && PathNodes(H, leaves)[key[..0]] == Blob(H, leaves, 0)
  {
    hide Compose;
    var nodes := PathNodes(H, leaves);
    forall n | 0 <= n <= KEY_NIBBLES
      ensures Holds(nodes, key[..n], NodeAt(H, leaves, 0, true, key[..n]))
    {
      if NodeAt(H, leaves, 0, true, key[..n]).Some? {
        NodeAtIsPrefix(H, leaves, 0, true, key[..n]);
      }
    }
    assert key[..0] == AnyKey(leaves)[..0];
    assert Holds(nodes, key[..0], NodeAt(H, leaves, 0, true, key[..0]));
    forall n | 1 <= n <= KEY_NIBBLES
      ensures Holds(nodes, key[..n], NodeAt(H, leaves, 0, false, key[..n]))
    {
      assert Holds(nodes, key[..n], NodeAt(H, leaves, 0, true, key[..n]));
    }
  }

  /** A path-scheme trie read from its root gives every leaf its value and finds nothing
      under any other key. */
  lemma LookupFinds(H: Hasher, leaves: Leaves, key: Nibbles)
    requires Subtrie(leaves, 0) && |key| == KEY_NIBBLES
    requires leaves != map[] ==> Root(H, leaves) != H([0x80])
    ensures Lookup(H, PathNodes(H, leaves), Root(H, leaves), key)
            == if key in leaves then Some(leaves[key]) else None
  {
    hide Find, Compose, NodeAt, PathNodes;
    if leaves != map[] {
      RootAlong(H, leaves, key);
      FindNode(H, leaves, PathNodes(H, leaves), key, 0);
      StoredNode(H, leaves, PathNodes(H, leaves), key, 0);
    }
  }

  lemma {:induction false} NodesAreLong(H: Hasher, leaves: Leaves, i: nat, path: Nibbles)
    requires Subtrie(leaves, i) && NodeAt(H, leaves, i, false, path).Some?
    ensures |NodeAt(H, leaves, i, false, path).value| >= 32
    decreases KEY_NIBBLES - i
  {
    hide Compose;
    if |path| > i {
      var j := Fork(leaves, i);
      if j > i {
        NodesAreLong(H, leaves, j, path);
      } else {
        NodesAreLong(H, Slice(leaves, i, path[i]), i + 1, path);
      }
    }
  }

  /** Below the root only nodes of at least 32 bytes are stored: shorter ones live inside their
      parent. */
  lemma ShortNodesAreInline(H: Hasher, leaves: Leaves, path: Nibbles)
    requires Subtrie(leaves, 0) && path != [] && path in PathNodes(H, leaves)
    ensures |PathNodes(H, leaves)[path]| >= 32
  {
    hide Compose;
    assert NodeAt(H, leaves, 0, false, path) == NodeAt(H, leaves, 0, true, path);
    NodesAreLong(H, leaves, 0, path);
  }
}
