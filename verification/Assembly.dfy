/** Sixteen partitions of a trie, split by the first nibble of the key, put back
    together: internal/migration/migrate_partitioned.go. */
module Assembly {
  import opened ByteStrings
  import opened Rlp
  import opened Trie
  import opened TrieLookup

  const PARTITIONS: nat := 16

  /** A built partition: its depth-1 node and that node's hash. */
  datatype PartitionResult = PartitionResult(populated: bool, root: Hash, rootBlob: Bytes)

  datatype Mounted = Mounted(hash: Hash, blob: Bytes, orphaned: bool)

  // Ranges.

  /** The half-open key range of a partition; None is an open end. */
  function MigratePartitionRange(partition: nibble): (Option<Bytes>, Option<Bytes>) {
    (if partition > 0 then Some([16 * partition as int] + seq(31, _ => 0)) else None,
     if partition < 15 then Some([16 * (partition as int + 1)] + seq(31, _ => 0)) else None)
  }

  predicate InRange(key: Bytes, bounds: (Option<Bytes>, Option<Bytes>)) {
    && (bounds.0.Some? ==> !Less(key, bounds.0.value))
    && (bounds.1.Some? ==> Less(key, bounds.1.value))
  }

  lemma {:induction false} NotBelowZeros(key: Bytes, n: nat)
    requires |key| == n
    ensures !Less(key, seq(n, _ => 0))
  {
    if n > 0 {
      assert seq(n, _ => 0 as byte)[1..] == seq(n - 1, _ => 0 as byte);
      NotBelowZeros(key[1..], n - 1);
    }
  }

  /** The ranges cut the key space by top nibble: each 32-byte key lies in exactly
      the partition its first nibble names. */
  lemma RangeIsTopNibble(key: Bytes, partition: nibble)
    requires |key| == 32
    ensures InRange(key, MigratePartitionRange(partition)) <==> Unpack(key)[0] == partition
  {
    var zeros := seq(31, _ => 0 as byte);
    NotBelowZeros(key[1..], 31);
    var low := [16 * partition as int] + zeros;
    assert low[1..] == zeros;
    if partition < 15 {
      var high := [16 * (partition as int + 1)] + zeros;
      assert high[1..] == zeros;
    }
  }

  // What each partition produces.

  ghost function PartitionOf(H: Hasher, leaves: Leaves, partition: nibble): PartitionResult
    requires Subtrie(leaves, 0)
  {
    var part := Slice(leaves, 0, partition);
    if part == map[] then PartitionResult(false, H([0x80]), [])
    else PartitionResult(true, H(Blob(H, part, 1)), Blob(H, part, 1))
  }

  /** The database holds exactly the nodes the sixteen partition builders emitted. */
  ghost predicate HoldsPartitions(H: Hasher, leaves: Leaves, nodes: map<Nibbles, Bytes>)
    requires Subtrie(leaves, 0)
  {
    && [] !in nodes
    && (forall path: Nibbles | path != [] ::
          Holds(nodes, path, NodeAt(H, Slice(leaves, 0, path[0]), 1, true, path)))
  }

  function ValidateMigratePartitionResult(H: Hasher, result: PartitionResult): bool {
    if !result.populated then result.root == H([0x80]) && result.rootBlob == []
    else result.rootBlob != [] && H(result.rootBlob) == result.root
  }

  lemma PartitionValidates(H: Hasher, leaves: Leaves, partition: nibble)
    requires Subtrie(leaves, 0)
    ensures ValidateMigratePartitionResult(H, PartitionOf(H, leaves, partition))
  {
    var part := Slice(leaves, 0, partition);
    if part != map[] {
      NodeSize(H, part, 1);
    }
  }

  /** A populated partition's depth-1 node never fits inside its parent, so its
      hash is the reference Appendix D prescribes. */
  lemma PartitionNodeIsHashed(H: Hasher, leaves: Leaves)
    requires Subtrie(leaves, 1) && leaves != map[]
    ensures |Blob(H, leaves, 1)| >= 32
    ensures Reference(H, leaves, 1) == Str(H(Blob(H, leaves, 1)))
  {
    NodeSize(H, leaves, 1);
  }

  // Assembly.

  function AsStrings(children: seq<Bytes>): (items: seq<Item>)
    ensures |items| == |children|
    ensures forall i :: 0 <= i < |children| ==> items[i] == Str(children[i])
  {
    seq(|children|, i requires 0 <= i < |children| => Str(children[i]))
  }

  function AssembleBranch(children: seq<Bytes>): Bytes {
    Encode(List(AsStrings(children)))
  }

  /** Moves a lone partition's root up to depth 0: a leaf or an extension absorbs
      the nibble and leaves the depth-1 node orphaned, a branch gets an extension
      of one nibble above it. */
  function MountPartitionRoot(H: Hasher, blob: Bytes, partition: nibble): Option<Mounted> {
    var item := DecodeBytes(blob);
    if item.None? || !item.value.List? then None
    else
      var items := item.value.items;
      if |items| == 2 && items[0].Str? then
        var path := HexPrefixDecode(items[0].s);
        if path.None? then None
        else
          var mounted := Encode(List([Str(HexPrefix([partition] + path.value.0, path.value.1)), items[1]]));
          Some(Mounted(H(mounted), mounted, true))
      else if |items| == 17 then
        var mounted := Encode(List([Str(HexPrefix([partition], false)), Str(H(blob))]));
        Some(Mounted(H(mounted), mounted, false))
      else None
  }

  lemma TwoPopulated(H: Hasher, leaves: Leaves, p: nibble, q: nibble)
    requires Subtrie(leaves, 0) && p != q
    requires Slice(leaves, 0, p) != map[] && Slice(leaves, 0, q) != map[]
    ensures |leaves| > 1 && Fork(leaves, 0) == 0
    ensures Compose(H, leaves, 0) == List(BranchItems(H, leaves, 0))
  {
    var k, l := AnyKey(Slice(leaves, 0, p)), AnyKey(Slice(leaves, 0, q));
    assert k in leaves && l in leaves && k[0] != l[0];
    assert |leaves.Keys| > 1 by {
      assert {k, l} <= leaves.Keys;
      assert |leaves.Keys - {k, l}| == |leaves.Keys| - |{k, l}|;
    }
  }

  /** Several populated partitions: the branch of their hashes is the whole trie's root. */
  lemma BranchAssembled(H: Hasher, leaves: Leaves, p: nibble, q: nibble, children: seq<Bytes>)
    requires Subtrie(leaves, 0) && p != q
    requires Slice(leaves, 0, p) != map[] && Slice(leaves, 0, q) != map[]
    requires |children| == 17 && children[16] == []
    requires forall n: nibble :: children[n] ==
                                 if Slice(leaves, 0, n) == map[] then [] else H(Blob(H, Slice(leaves, 0, n), 1))
    ensures AssembleBranch(children) == Blob(H, leaves, 0)
  {
    TwoPopulated(H, leaves, p, q);
    var items := BranchItems(H, leaves, 0);
    forall m | 0 <= m < 17
      ensures AsStrings(children)[m] == items[m]
    {
      if m < 16 {
        var n: nibble := m;
        if Slice(leaves, 0, n) != map[] {
          PartitionNodeIsHashed(H, Slice(leaves, 0, n));
        }
      }
    }
    assert AsStrings(children) == items;
  }

  ghost predicate OnlyPartition(leaves: Leaves, p: nibble)
    requires Subtrie(leaves, 0)
  {
    leaves != map[] && forall k :: k in leaves ==> k[0] == p
  }

  lemma OnlySlice(leaves: Leaves, p: nibble)
    requires Subtrie(leaves, 0) && OnlyPartition(leaves, p)
    ensures Slice(leaves, 0, p) == leaves && Subtrie(leaves, 1)
    ensures |leaves| > 1 ==> Fork(leaves, 0) == Fork(leaves, 1) >= 1
  {
    assert Slice(leaves, 0, p) == leaves;
  }

  lemma MountPair(H: Hasher, path: Nibbles, leaf: bool, child: Item, p: nibble)
    requires Encodable(List([Str(HexPrefix(path, leaf)), child]))
    ensures var mounted := Encode(List([Str(HexPrefix([p] + path, leaf)), child]));
            MountPartitionRoot(H, Encode(List([Str(HexPrefix(path, leaf)), child])), p)
            == Some(Mounted(H(mounted), mounted, true))
  {
    HexPrefixInverse(path, leaf);
    DecodeBytesEncoded(List([Str(HexPrefix(path, leaf)), child]));
  }

  lemma MountBranch(H: Hasher, items: seq<Item>, p: nibble)
    requires |items| == 17 && Encodable(List(items))
    ensures var mounted := Encode(List([Str(HexPrefix([p], false)), Str(H(Encode(List(items))))]));
            MountPartitionRoot(H, Encode(List(items)), p) == Some(Mounted(H(mounted), mounted, false))
  {
    DecodeBytesEncoded(List(items));
  }

  lemma LeafMounted(H: Hasher, leaves: Leaves, p: nibble)
    requires Subtrie(leaves, 0) && OnlyPartition(leaves, p) && |leaves| == 1 && Subtrie(leaves, 1)
    ensures MountPartitionRoot(H, Blob(H, leaves, 1), p) == Some(Mounted(Root(H, leaves), Blob(H, leaves, 0), true))
  {
    hide MountPartitionRoot, Encode, Encodable, HexPrefix, Slice;
    NodeSize(H, leaves, 1);
    var k := AnyKey(leaves);
    assert [p] + k[1..] == k[0..];
    MountPair(H, k[1..], true, Str(leaves[k]), p);
  }

  lemma ExtensionMounted(H: Hasher, leaves: Leaves, p: nibble)
    requires Subtrie(leaves, 0) && OnlyPartition(leaves, p) && |leaves| > 1 && Subtrie(leaves, 1)
    requires Fork(leaves, 0) == Fork(leaves, 1) > 1
    ensures MountPartitionRoot(H, Blob(H, leaves, 1), p) == Some(Mounted(Root(H, leaves), Blob(H, leaves, 0), true))
  {
    hide MountPartitionRoot, Encode, Encodable, HexPrefix, Slice, Reference, Fork;
    NodeSize(H, leaves, 1);
    var k, j := AnyKey(leaves), Fork(leaves, 0);
    assert [p] + k[1..j] == k[0..j];
    MountPair(H, k[1..j], false, Reference(H, leaves, j), p);
  }

  lemma BranchMounted(H: Hasher, leaves: Leaves, p: nibble)
    requires Subtrie(leaves, 0) && OnlyPartition(leaves, p) && |leaves| > 1 && Subtrie(leaves, 1)
    requires Fork(leaves, 0) == Fork(leaves, 1) == 1
    ensures MountPartitionRoot(H, Blob(H, leaves, 1), p) == Some(Mounted(Root(H, leaves), Blob(H, leaves, 0), false))
  {
    hide MountPartitionRoot, Encode, Encodable, HexPrefix, Slice, Reference, Fork;
    NodeSize(H, leaves, 1);
    PartitionNodeIsHashed(H, leaves);
    assert [p] == AnyKey(leaves)[0..1];
    MountBranch(H, BranchItems(H, leaves, 1), p);
  }

  /** One populated partition: mounting its root yields the whole trie's root node,
      and the depth-1 node is orphaned exactly when the trie has no node there. */
  lemma RootMounted(H: Hasher, leaves: Leaves, p: nibble)
    requires Subtrie(leaves, 0) && OnlyPartition(leaves, p)
    ensures Subtrie(leaves, 1)
    ensures MountPartitionRoot(H, Blob(H, leaves, 1), p)
            == Some(Mounted(Root(H, leaves), Blob(H, leaves, 0), |leaves| == 1 || Fork(leaves, 0) > 1))
  {
    hide MountPartitionRoot, Compose, Slice, Fork;
    OnlySlice(leaves, p);
    if |leaves| == 1 {
      LeafMounted(H, leaves, p);
    } else if Fork(leaves, 0) > 1 {
      ExtensionMounted(H, leaves, p);
    } else {
      BranchMounted(H, leaves, p);
    }
  }

  // The node map.

  lemma ManyNodes(H: Hasher, leaves: Leaves, p: nibble, q: nibble, path: Nibbles)
    requires Subtrie(leaves, 0) && p != q && path != []
    requires Slice(leaves, 0, p) != map[] && Slice(leaves, 0, q) != map[]
    ensures NodeAt(H, leaves, 0, true, path) == NodeAt(H, Slice(leaves, 0, path[0]), 1, true, path)
  {
    hide Compose, Encode;
    TwoPopulated(H, leaves, p, q);
    var part := Slice(leaves, 0, path[0]);
    if part != map[] {
      PartitionNodeIsHashed(H, part);
    }
  }

  lemma OneNode(H: Hasher, leaves: Leaves, p: nibble, path: Nibbles)
    requires Subtrie(leaves, 0) && OnlyPartition(leaves, p) && path != []
    ensures NodeAt(H, leaves, 0, true, path)
            == if path == [p] && (|leaves| == 1 || Fork(leaves, 0) > 1) then None
               else NodeAt(H, Slice(leaves, 0, path[0]), 1, true, path)
  {
    OnlySlice(leaves, p);
    var k := AnyKey(leaves);
    assert path[..0] == k[..0];
    if path[0] != p {
      assert Slice(leaves, 0, path[0]) == map[];
      if |leaves| > 1 {
        var j := Fork(leaves, 0);
        assert |path| >= j ==> path[..j][0] != k[..j][0];
      }
    } else {
      assert path[..1] == [p] == k[..1];
      assert |path| == 1 ==> path == [p];
      PartitionNodeIsHashed(H, leaves);
    }
  }

  ghost predicate Orphaned(leaves: Leaves, p: nibble, q: nibble)
    requires Subtrie(leaves, 0)
  {
    p == q && (|leaves| == 1 || (|leaves| > 1 && Fork(leaves, 0) > 1))
  }

  ghost predicate Assembled(H: Hasher, leaves: Leaves, p: nibble, q: nibble,
                            written: map<Nibbles, Bytes>, nodes: map<Nibbles, Bytes>)
    requires Subtrie(leaves, 0)
  {
    && leaves != map[]
    && (if p == q then OnlyPartition(leaves, p) else Slice(leaves, 0, p) != map[] && Slice(leaves, 0, q) != map[])
    && var rooted := written[[] := Blob(H, leaves, 0)];
    nodes == if Orphaned(leaves, p, q) then rooted - {[p]} else rooted
  }

  lemma NodeAssembled(H: Hasher, leaves: Leaves, p: nibble, q: nibble,
                      written: map<Nibbles, Bytes>, nodes: map<Nibbles, Bytes>, path: Nibbles)
    requires Subtrie(leaves, 0) && path != []
    requires Holds(written, path, NodeAt(H, Slice(leaves, 0, path[0]), 1, true, path))
    requires Assembled(H, leaves, p, q, written, nodes)
    ensures Holds(nodes, path, NodeAt(H, leaves, 0, true, path))
  {
    hide NodeAt, Compose, Slice;
    if p == q {
      OneNode(H, leaves, p, path);
    } else {
      ManyNodes(H, leaves, p, q, path);
    }
  }

  /** Setting the root and dropping the orphan turns the partitions' nodes into
      the whole trie's. */
  lemma NodesAssembled(H: Hasher, leaves: Leaves, p: nibble, q: nibble,
                       written: map<Nibbles, Bytes>, nodes: map<Nibbles, Bytes>)
    requires Subtrie(leaves, 0) && HoldsPartitions(H, leaves, written)
    requires Assembled(H, leaves, p, q, written, nodes)
    ensures nodes == PathNodes(H, leaves)
  {
    forall path: Nibbles
      ensures Holds(nodes, path, NodeAt(H, leaves, 0, true, path))
    {
      if path == [] {
        assert path[..0] == AnyKey(leaves)[..0];
      } else {
        NodeAssembled(H, leaves, p, q, written, nodes, path);
      }
    }
    PathNodesUnique(H, leaves, nodes);
  }

  lemma NoLeaves(H: Hasher, leaves: Leaves, written: map<Nibbles, Bytes>)
    requires Subtrie(leaves, 0) && HoldsPartitions(H, leaves, written)
    requires forall n: nibble :: Slice(leaves, 0, n) == map[]
    ensures leaves == map[] && written == PathNodes(H, leaves)
  {
    assert forall k :: k in leaves ==> k in Slice(leaves, 0, k[0]);
    assert leaves == map[];
    forall path: Nibbles
      ensures path !in written
    {
      assert path != [] ==> NodeAt(H, Slice(leaves, 0, path[0]), 1, true, path) == None;
    }
    assert written == map[] && PathNodes(H, leaves) == map[];
  }

  lemma OnlyOne(leaves: Leaves, p: nibble)
    requires Subtrie(leaves, 0) && Slice(leaves, 0, p) != map[]
    requires forall n: nibble :: n != p ==> Slice(leaves, 0, n) == map[]
    ensures OnlyPartition(leaves, p)
  {
    forall k | k in leaves
      ensures k[0] == p
    {
      assert k in Slice(leaves, 0, k[0]);
    }
    var k := AnyKey(Slice(leaves, 0, p));
    assert k in leaves;
  }

  /** The loop over the partitions: how many are populated, the last of them, and
      the branch children (the hash of each populated partition, else empty). */
  method Populated(H: Hasher, ghost leaves: Leaves, partitions: seq<PartitionResult>)
    returns (populated: nat, only: nibble, children: seq<Bytes>, ghost another: nibble)
    requires Subtrie(leaves, 0)
    requires |partitions| == PARTITIONS
    requires forall p: nibble :: partitions[p] == PartitionOf(H, leaves, p)
    ensures |children| == 17 && children[16] == []
    ensures forall n: nibble :: children[n] ==
                                if Slice(leaves, 0, n) == map[] then [] else H(Blob(H, Slice(leaves, 0, n), 1))
    ensures populated == 0 ==> forall n: nibble :: Slice(leaves, 0, n) == map[]
    ensures populated > 0 ==> Slice(leaves, 0, only) != map[] && Slice(leaves, 0, another) != map[]
    ensures populated == 1 ==> another == only && forall n: nibble :: n != only ==> Slice(leaves, 0, n) == map[]
    ensures populated > 1 ==> another != only
  {
    hide Blob, Slice;
    populated, only, another := 0, 0, 0;
    children := seq(17, _ => []);
    for index := 0 to PARTITIONS
      invariant |children| == 17 && children[16] == []
      invariant forall n: nibble :: children[n] ==
                                    if n >= index || Slice(leaves, 0, n) == map[] then []
                                        else H(Blob(H, Slice(leaves, 0, n), 1))
      invariant populated == 0 ==> forall n: nibble :: n < index ==> Slice(leaves, 0, n) == map[]
      invariant populated > 0 ==> another <= only < index
      invariant populated > 0 ==> Slice(leaves, 0, only) != map[] && Slice(leaves, 0, another) != map[]
      invariant populated == 1 ==> another == only
      invariant populated == 1 ==> forall n: nibble :: n < index && n != only ==> Slice(leaves, 0, n) == map[]
      invariant populated > 1 ==> another < only
    {
      if partitions[index].populated {
        another := if populated == 0 then index else only;
        populated := populated + 1;
        only := index;
        children := children[index := partitions[index].root];
      }
      assert partitions[index as nibble] == PartitionOf(H, leaves, index as nibble);
    }
  }

  /** The top node of the assembled trie is the top node of the whole trie. */
  method TopNode(H: Hasher, ghost leaves: Leaves, partitions: seq<PartitionResult>, populated: nat,
                 only: nibble, children: seq<Bytes>, ghost another: nibble)
    returns (top: Mounted)
    requires Subtrie(leaves, 0) && populated > 0
    requires |partitions| == PARTITIONS && partitions[only] == PartitionOf(H, leaves, only)
    requires |children| == 17 && children[16] == []
    requires forall n: nibble :: children[n] ==
                                 if Slice(leaves, 0, n) == map[] then [] else H(Blob(H, Slice(leaves, 0, n), 1))
    requires Slice(leaves, 0, only) != map[] && Slice(leaves, 0, another) != map[]
    requires if populated == 1 then another == only && OnlyPartition(leaves, only) else another != only
    ensures leaves != map[]
    ensures top == Mounted(Root(H, leaves), Blob(H, leaves, 0), Orphaned(leaves, only, another))
  {
    if populated == 1 {
      OnlySlice(leaves, only);
      RootMounted(H, leaves, only);
      top := MountPartitionRoot(H, partitions[only].rootBlob, only).value;
    } else {
      TwoPopulated(H, leaves, another, only);
      BranchAssembled(H, leaves, another, only, children);
      var blob := AssembleBranch(children);
      top := Mounted(H(blob), blob, false);
    }
  }

  /** assembleMigratedTrie, run over the partitions of any set of leaves: it
      accepts exactly the whole trie's root, and then the database holds exactly
      the nodes a single builder would have stored, path by path, and reading it from
      the root finds each leaf and nothing else. */
  method AssembleMigratedTrie(H: Hasher, ghost leaves: Leaves, expectedRoot: Hash,
                              partitions: seq<PartitionResult>, written: map<Nibbles, Bytes>)
    returns (root: Option<Hash>, nodes: map<Nibbles, Bytes>)
    requires Subtrie(leaves, 0)
    requires |partitions| == PARTITIONS
    requires forall p: nibble :: partitions[p] == PartitionOf(H, leaves, p)
    requires HoldsPartitions(H, leaves, written)
    ensures root == if Root(H, leaves) == expectedRoot then Some(expectedRoot) else None
    ensures nodes == if root.Some? then PathNodes(H, leaves) else written
    ensures root.Some? && (leaves != map[] ==> expectedRoot != H([0x80])) ==>
              forall key: Nibbles | |key| == KEY_NIBBLES ::
                Lookup(H, nodes, expectedRoot, key) == if key in leaves then Some(leaves[key]) else None
  {
    hide Lookup;
    var populated, only, children, another := Populated(H, leaves, partitions);
    if populated == 0 {
      NoLeaves(H, leaves, written);
      root := if expectedRoot == H([0x80]) then Some(expectedRoot) else None;
      nodes := written;
      Answers(H, leaves, expectedRoot, nodes);
      return;
    }
    if populated == 1 {
      OnlyOne(leaves, only);
    }
    var top := TopNode(H, leaves, partitions, populated, only, children, another);
    if top.hash != expectedRoot {
      return None, written;
    }
    root := Some(expectedRoot);
    nodes := written[[] := top.blob];
    if top.orphaned {
      nodes := nodes - {[only]};
    }
    NodesAssembled(H, leaves, only, another, written, nodes);
    Answers(H, leaves, expectedRoot, nodes);
  }

  lemma Answers(H: Hasher, leaves: Leaves, expectedRoot: Hash, nodes: map<Nibbles, Bytes>)
    requires Subtrie(leaves, 0) && nodes == PathNodes(H, leaves)
    ensures expectedRoot == Root(H, leaves) && (leaves != map[] ==> expectedRoot != H([0x80])) ==>
              forall key: Nibbles | |key| == KEY_NIBBLES ::
                Lookup(H, nodes, expectedRoot, key) == if key in leaves then Some(leaves[key]) else None
  {
    hide Lookup, PathNodes;
    if expectedRoot == Root(H, leaves) && (leaves != map[] ==> expectedRoot != H([0x80])) {
      forall key: Nibbles | |key| == KEY_NIBBLES
        ensures Lookup(H, nodes, expectedRoot, key) == if key in leaves then Some(leaves[key]) else None
      {
        LookupFinds(H, leaves, key);
      }
    }
  }
}
