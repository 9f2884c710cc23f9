/** The modified Merkle Patricia trie of Appendix D of the Ethereum Yellow Paper,
    over 32-byte keys, and the nodes a path-scheme database holds for it. */
module Trie {
  import opened ByteStrings
  import opened Rlp

  type nibble = x: int | 0 <= x < 16
  type Nibbles = seq<nibble>

  /** The leaves of a trie: 64-nibble keys and their non-empty values. */
  type Leaves = map<Nibbles, Bytes>

  const KEY_NIBBLES: nat := 64

  // Hex-prefix encoding, Appendix C.

  function Pack(x: Nibbles): Bytes
    requires |x| % 2 == 0
  {
    if x == [] then [] else [16 * x[0] as int + x[1]] + Pack(x[2..])
  }

  function Unpack(b: Bytes): Nibbles {
    if b == [] then [] else [b[0] / 16, b[0] % 16] + Unpack(b[1..])
  }

  function HexPrefix(x: Nibbles, leaf: bool): (b: Bytes)
    ensures b != [] && b[0] < 0x80
  {
    var flag := if leaf then 2 else 0;
    if |x| % 2 == 0 then [16 * flag] + Pack(x) else [16 * (flag + 1) + x[0]] + Pack(x[1..])
  }

  function HexPrefixDecode(b: Bytes): Option<(Nibbles, bool)> {
    if b == [] || b[0] >= 0x40 then None
    else
      var leaf := b[0] >= 0x20;
      if b[0] / 16 % 2 == 1 then Some(([b[0] % 16] + Unpack(b[1..]), leaf))
      else if b[0] % 16 == 0 then Some((Unpack(b[1..]), leaf))
      else None
  }

  lemma {:induction false} PackInverse(x: Nibbles)
    requires |x| % 2 == 0
    ensures |Pack(x)| == |x| / 2
    ensures Unpack(Pack(x)) == x
  {
    if x != [] {
      PackInverse(x[2..]);
      assert Pack(x)[1..] == Pack(x[2..]);
      assert x == [x[0], x[1]] + x[2..];
    }
  }

  lemma HexPrefixInverse(x: Nibbles, leaf: bool)
    ensures |HexPrefix(x, leaf)| == 1 + |x| / 2
    ensures HexPrefixDecode(HexPrefix(x, leaf)) == Some((x, leaf))
  {
    var b := HexPrefix(x, leaf);
    if |x| % 2 == 0 {
      PackInverse(x);
      assert b[1..] == Pack(x);
    } else {
      PackInverse(x[1..]);
      assert b[1..] == Pack(x[1..]);
      assert x == [x[0]] + x[1..];
    }
  }

  // The trie.

  /** Leaves that agree on their first i nibbles. */
  ghost predicate Subtrie(leaves: Leaves, i: nat) {
    && i <= KEY_NIBBLES
    && (forall k :: k in leaves ==> |k| == KEY_NIBBLES && 0 < |leaves[k]| < 0x8000_0000_0000_0000)
    && (forall k, l :: k in leaves && l in leaves ==> k[..i] == l[..i])
  }

  /** The leaves whose nibble at position i is n. */
  ghost function Slice(leaves: Leaves, i: nat, n: nibble): (r: Leaves)
    requires Subtrie(leaves, i) && i < KEY_NIBBLES
    ensures Subtrie(r, i + 1)
  {
    var r := map k | k in leaves && k[i] == n :: leaves[k];
    SliceSubtrie(leaves, i, n, r);
    r
  }

  lemma SliceSubtrie(leaves: Leaves, i: nat, n: nibble, r: Leaves)
    requires Subtrie(leaves, i) && i < KEY_NIBBLES
    requires r == map k | k in leaves && k[i] == n :: leaves[k]
    ensures Subtrie(r, i + 1)
  {
    forall k, l | k in r && l in r
      ensures k[..i + 1] == l[..i + 1]
    {
      assert k[..i + 1] == k[..i] + [n] && l[..i + 1] == l[..i] + [n];
    }
  }

  ghost function AnyKey(leaves: Leaves): (k: Nibbles)
    requires leaves != map[]
    ensures k in leaves
  {
    assert leaves.Keys != {};
    var k :| k in leaves;
    k
  }

  /** The first position from i on where two leaves differ. */
  ghost function Fork(leaves: Leaves, i: nat): (j: nat)
    requires Subtrie(leaves, i) && |leaves| > 1
    ensures i <= j < KEY_NIBBLES
    ensures Subtrie(leaves, j)
    ensures exists k, l :: k in leaves && l in leaves && k[j] != l[j]
    decreases KEY_NIBBLES - i
  {
    ForkStep(leaves, i);
    if exists k, l :: k in leaves && l in leaves && k[i] != l[i] then i else Fork(leaves, i + 1)
  }

  lemma FullKeys(leaves: Leaves)
    requires Subtrie(leaves, KEY_NIBBLES)
    ensures |leaves| <= 1
  {
    if leaves != map[] {
      var k := AnyKey(leaves);
      forall l | l in leaves ensures l == k {
        assert l == l[..KEY_NIBBLES] && k == k[..KEY_NIBBLES];
      }
      assert leaves.Keys == {k};
      assert |leaves| == |leaves.Keys|;
    }
  }

  lemma ForkStep(leaves: Leaves, i: nat)
    requires Subtrie(leaves, i) && |leaves| > 1
    ensures i < KEY_NIBBLES
    ensures (forall k, l :: k in leaves && l in leaves ==> k[i] == l[i]) ==> Subtrie(leaves, i + 1)
  {
    if i == KEY_NIBBLES {
      FullKeys(leaves);
    }
    if forall k, l :: k in leaves && l in leaves ==> k[i] == l[i] {
      forall k, l | k in leaves && l in leaves
        ensures k[..i + 1] == l[..i + 1]
      {
        assert k[..i + 1] == k[..i] + [k[i]] && l[..i + 1] == l[..i] + [l[i]];
      }
    }
  }

  /** Structural composition c(J, i). */
  ghost function Compose(H: Hasher, leaves: Leaves, i: nat): Item
    requires Subtrie(leaves, i) && leaves != map[]
    decreases KEY_NIBBLES - i, 0
  {
    var k := AnyKey(leaves);
    if |leaves| == 1 then List([Str(HexPrefix(k[i..], true)), Str(leaves[k])])
    else
      var j := Fork(leaves, i);
      if j > i then List([Str(HexPrefix(k[i..j], false)), Reference(H, leaves, j)])
      else List(seq(16, (n: int) requires 0 <= n < 16 => Reference(H, Slice(leaves, i, n), i + 1)) + [Str([])])
  }

  /** Node composition n(J, i): nothing, the node itself, or its hash. */
  ghost function Reference(H: Hasher, leaves: Leaves, i: nat): Item
    requires Subtrie(leaves, i)
    decreases KEY_NIBBLES - i, 1
  {
    if leaves == map[] then Str([])
    else
      var node := Compose(H, leaves, i);
      if |Encode(node)| < 32 then node else Str(H(Encode(node)))
  }

  /** The bytes of the subtrie's top node. */
  ghost function Blob(H: Hasher, leaves: Leaves, i: nat): Bytes
    requires Subtrie(leaves, i) && leaves != map[]
  {
    Encode(Compose(H, leaves, i))
  }

  /** TRIE(J): the root hash. */
  ghost function Root(H: Hasher, leaves: Leaves): Hash
    requires Subtrie(leaves, 0)
  {
    if leaves == map[] then H([0x80]) else H(Blob(H, leaves, 0))
  }

  /** What the path-scheme database holds at a path, for the subtrie at depth i
      built with its own top node always stored when top is set: nodes shorter
      than 32 bytes live inside their parent. */
  ghost function NodeAt(H: Hasher, leaves: Leaves, i: nat, top: bool, path: Nibbles): Option<Bytes>
    requires Subtrie(leaves, i)
    decreases KEY_NIBBLES - i
  {
    if leaves == map[] || |path| < i || path[..i] != AnyKey(leaves)[..i] then None
    else if |path| == i then
      if top || |Blob(H, leaves, i)| >= 32 then Some(Blob(H, leaves, i)) else None
    else if |leaves| == 1 then None
    else
      var j := Fork(leaves, i);
      if j > i then NodeAt(H, leaves, j, false, path)
      else NodeAt(H, Slice(leaves, i, path[i]), i + 1, false, path)
  }

  lemma {:induction false} NodeAtIsPrefix(H: Hasher, leaves: Leaves, i: nat, top: bool, path: Nibbles)
    requires Subtrie(leaves, i)
    requires NodeAt(H, leaves, i, top, path).Some?
    ensures |path| <= KEY_NIBBLES && exists k :: k in leaves && k[..|path|] == path
    decreases KEY_NIBBLES - i
  {
    if |path| == i {
      assert path[..i] == path;
    } else {
      var j := Fork(leaves, i);
      if j > i {
        NodeAtIsPrefix(H, leaves, j, false, path);
      } else {
        NodeAtIsPrefix(H, Slice(leaves, i, path[i]), i + 1, false, path);
      }
    }
  }

  /** The path-scheme database of one trie. */
  ghost function PathNodes(H: Hasher, leaves: Leaves): map<Nibbles, Bytes>
    requires Subtrie(leaves, 0)
  {
    map path | path in Prefixes(leaves) && NodeAt(H, leaves, 0, true, path).Some?
      :: NodeAt(H, leaves, 0, true, path).value
  }

  ghost function Prefixes(leaves: Leaves): set<Nibbles>
    requires Subtrie(leaves, 0)
  {
    set k, n | k in leaves && 0 <= n <= KEY_NIBBLES :: k[..n]
  }

  ghost predicate Holds(nodes: map<Nibbles, Bytes>, path: Nibbles, node: Option<Bytes>) {
    if node.Some? then path in nodes && nodes[path] == node.value else path !in nodes
  }

  lemma PathNodesUnique(H: Hasher, leaves: Leaves, nodes: map<Nibbles, Bytes>)
    requires Subtrie(leaves, 0)
    requires forall path :: Holds(nodes, path, NodeAt(H, leaves, 0, true, path))
    ensures nodes == PathNodes(H, leaves)
  {
    var whole := PathNodes(H, leaves);
    forall path: Nibbles
      ensures Holds(whole, path, NodeAt(H, leaves, 0, true, path))
    {
      if NodeAt(H, leaves, 0, true, path).Some? {
        NodeAtIsPrefix(H, leaves, 0, true, path);
      }
    }
    assert forall path :: path in nodes ==> Holds(nodes, path, NodeAt(H, leaves, 0, true, path));
    assert forall path :: path in whole ==> Holds(whole, path, NodeAt(H, leaves, 0, true, path));
    assert nodes.Keys == whole.Keys;
  }

  // Sizes.

  lemma StringSize(s: Bytes)
    requires |s| < Power256(8)
    ensures |Encode(Str(s))| >= 1 && |Encode(Str(s))| >= |s|
    ensures |s| >= 2 ==> |Encode(Str(s))| >= |s| + 1
    ensures |s| < 56 ==> |Encode(Str(s))| <= |s| + 1
    ensures |Encode(Str(s))| <= |s| + 9
  {
    HeaderSize(0x80, |s|);
  }

  lemma PairSize(a: Item, b: Item)
    requires Encodable(a) && Encodable(b)
    requires |Encode(a)| + |Encode(b)| < Power256(8)
    ensures Encodable(List([a, b]))
    ensures |Encode(List([a, b]))| >= 1 + |Encode(a)| + |Encode(b)|
  {
    var items := [a, b];
    assert items[1..] == [b] && items[1..][1..] == [];
    assert EncodeAll([b]) == Encode(b) + EncodeAll([]);
    assert EncodeAll(items) == Encode(a) + Encode(b);
    HeaderSize(0xc0, |EncodeAll(items)|);
  }

  lemma {:induction false} ManySize(items: seq<Item>)
    requires forall i :: 0 <= i < |items| ==> Encodable(items[i]) && 1 <= |Encode(items[i])| <= 33
    ensures |items| <= |EncodeAll(items)| <= 33 * |items|
    ensures forall i :: 0 <= i < |items| ==> |EncodeAll(items)| >= |items| - 1 + |Encode(items[i])|
    ensures forall i, j :: 0 <= i < j < |items| ==>
              |EncodeAll(items)| >= |items| - 2 + |Encode(items[i])| + |Encode(items[j])|
  {
    if items != [] {
      var rest := items[1..];
      ManySize(rest);
      forall i | 0 <= i < |items|
        ensures |EncodeAll(items)| >= |items| - 1 + |Encode(items[i])|
      {
        if i > 0 { assert items[i] == rest[i - 1]; }
      }
      forall i, j | 0 <= i < j < |items|
        ensures |EncodeAll(items)| >= |items| - 2 + |Encode(items[i])| + |Encode(items[j])|
      {
        assert items[j] == rest[j - 1];
        if i > 0 { assert items[i] == rest[i - 1]; }
      }
    }
  }

  /** A floor for the size of a subtrie whose keys have 64 - i nibbles left. */
  ghost function Floor(i: nat): nat
    requires i <= KEY_NIBBLES
  {
    var n := 3 + (KEY_NIBBLES - i) / 2;
    if n < 32 then n else 32
  }

  /** The branch node's items. */
  ghost function BranchItems(H: Hasher, leaves: Leaves, i: nat): (items: seq<Item>)
    requires Subtrie(leaves, i) && i < KEY_NIBBLES
    ensures |items| == 17 && items[16] == Str([])
    ensures forall n: nibble :: items[n] == Reference(H, Slice(leaves, i, n), i + 1)
  {
    seq(16, (n: int) requires 0 <= n < 16 => Reference(H, Slice(leaves, i, n), i + 1)) + [Str([])]
  }

  lemma LeafSize(H: Hasher, leaves: Leaves, i: nat)
    requires Subtrie(leaves, i) && |leaves| == 1
    ensures Encodable(Compose(H, leaves, i)) && |Blob(H, leaves, i)| >= Floor(i)
  {
    var k := AnyKey(leaves);
    HexPrefixInverse(k[i..], true);
    var path, value := HexPrefix(k[i..], true), leaves[k];
    assert Power256(8) == 0x1_0000_0000_0000_0000;
    StringSize(path);
    StringSize(value);
    PairSize(Str(path), Str(value));
  }

  /** A reference is either as long as the node it stands for, or a 33-byte hash. */
  lemma ReferenceFloor(H: Hasher, leaves: Leaves, i: nat)
    requires Subtrie(leaves, i) && leaves != map[]
    ensures var n := |Encode(Reference(H, leaves, i))|; n == |Blob(H, leaves, i)| || n == 33
  {
    hide Compose;
    assert Power256(8) == 0x1_0000_0000_0000_0000;
    StringSize(H(Blob(H, leaves, i)));
  }

  lemma {:induction false} ExtensionSize(H: Hasher, leaves: Leaves, i: nat)
    requires Subtrie(leaves, i) && |leaves| > 1 && Fork(leaves, i) > i
    ensures Encodable(Compose(H, leaves, i)) && |Blob(H, leaves, i)| >= Floor(i)
    decreases KEY_NIBBLES - i, 0
  {
    hide HexPrefix, Reference, Encode;
    var j := Fork(leaves, i);
    var path := HexPrefix(AnyKey(leaves)[i..j], false);
    HexPrefixInverse(AnyKey(leaves)[i..j], false);
    assert Power256(8) == 0x1_0000_0000_0000_0000;
    StringSize(path);
    ReferenceSize(H, leaves, j);
    BranchFloor(H, leaves, j);
    ReferenceFloor(H, leaves, j);
    PairSize(Str(path), Reference(H, leaves, j));
  }

  /** The branch's items are short references, and the populated ones reach the floor. */
  lemma {:induction false} BranchItemSizes(H: Hasher, leaves: Leaves, i: nat)
    requires Subtrie(leaves, i) && i < KEY_NIBBLES
    ensures var items := BranchItems(H, leaves, i);
            && (forall m :: 0 <= m < 17 ==> Encodable(items[m]) && 1 <= |Encode(items[m])| <= 33)
            && (forall n: nibble :: Slice(leaves, i, n) != map[] ==> |Encode(items[n])| >= Floor(i + 1))
    decreases KEY_NIBBLES - i, 0
  {
    hide Encode, Encodable, Reference, Slice, Power256;
    var items := BranchItems(H, leaves, i);
    forall n: nibble
      ensures Encodable(items[n]) && 1 <= |Encode(items[n])| <= 33
      ensures Slice(leaves, i, n) != map[] ==> |Encode(items[n])| >= Floor(i + 1)
    {
      ReferenceSize(H, Slice(leaves, i, n), i + 1);
    }
    forall m | 0 <= m < 17
      ensures Encodable(items[m]) && 1 <= |Encode(items[m])| <= 33
    {
      if m < 16 {
        var n: nibble := m;
      } else {
        EmptySize();
      }
    }
  }

  lemma EmptySize()
    ensures Encodable(Str([])) && |Encode(Str([]))| == 1
  {
  }

  ghost predicate ForksAt(leaves: Leaves, i: nat, k: Nibbles, l: Nibbles)
    requires Subtrie(leaves, i) && i < KEY_NIBBLES
  {
    k in leaves && l in leaves && k[i] < l[i]
  }

  lemma ComposeBranch(H: Hasher, leaves: Leaves, i: nat, k: Nibbles, l: Nibbles)
    requires Subtrie(leaves, i) && |leaves| > 1 && i < KEY_NIBBLES && ForksAt(leaves, i, k, l)
    ensures Fork(leaves, i) == i
    ensures Compose(H, leaves, i) == List(BranchItems(H, leaves, i))
    ensures k in Slice(leaves, i, k[i]) && l in Slice(leaves, i, l[i])
  {
  }

  /** A branch has two populated children, so it outweighs the path above it. */
  lemma {:induction false} BranchFloor(H: Hasher, leaves: Leaves, i: nat)
    requires Subtrie(leaves, i) && |leaves| > 1 && i < KEY_NIBBLES
    requires exists k, l :: k in leaves && l in leaves && k[i] != l[i]
    ensures Encodable(Compose(H, leaves, i))
    ensures |Blob(H, leaves, i)| >= 22 + (62 - i) || |Blob(H, leaves, i)| >= 32
    decreases KEY_NIBBLES - i, 1
  {
    var m, n :| m in leaves && n in leaves && m[i] != n[i];
    var k, l := if m[i] < n[i] then m else n, if m[i] < n[i] then n else m;
    ComposeBranch(H, leaves, i, k, l);
    BranchItemSizes(H, leaves, i);
    BranchTotal(BranchItems(H, leaves, i), k[i] as int, l[i] as int, Floor(i + 1));
  }

  lemma BranchTotal(items: seq<Item>, a: nat, b: nat, floor: nat)
    requires |items| == 17 && 0 <= a < b < 17
    requires forall m :: 0 <= m < 17 ==> Encodable(items[m]) && 1 <= |Encode(items[m])| <= 33
    requires |Encode(items[a])| >= floor && |Encode(items[b])| >= floor
    ensures Encodable(List(items)) && |Encode(List(items))| >= 16 + 2 * floor
  {
    ManySize(items);
    assert Power256(8) == 0x1_0000_0000_0000_0000;
    HeaderSize(0xc0, |EncodeAll(items)|);
  }

  lemma {:induction false} ReferenceSize(H: Hasher, leaves: Leaves, i: nat)
    requires Subtrie(leaves, i)
    ensures Encodable(Reference(H, leaves, i)) && 1 <= |Encode(Reference(H, leaves, i))| <= 33
    ensures leaves != map[] ==> |Encode(Reference(H, leaves, i))| >= Floor(i)
    decreases KEY_NIBBLES - i, 3
  {
    assert Power256(8) == 0x1_0000_0000_0000_0000;
    if leaves == map[] {
      StringSize([]);
    } else {
      NodeSize(H, leaves, i);
      StringSize(H(Blob(H, leaves, i)));
    }
  }

  /** Every node of a subtrie at depth i has an encoding of at least Floor(i) bytes. */
  lemma {:induction false} NodeSize(H: Hasher, leaves: Leaves, i: nat)
    requires Subtrie(leaves, i) && leaves != map[]
    ensures Encodable(Compose(H, leaves, i)) && |Blob(H, leaves, i)| >= Floor(i)
    decreases KEY_NIBBLES - i, 2
  {
    if |leaves| == 1 {
      LeafSize(H, leaves, i);
    } else if Fork(leaves, i) > i {
      ExtensionSize(H, leaves, i);
    } else {
      BranchFloor(H, leaves, i);
    }
  }
}
