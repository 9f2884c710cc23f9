/** Scanning block history with bounded, concurrently decoded batches:
    internal/migration/ovm_history_pipeline.go. */
module History {
  import opened ByteStrings
  import opened Sums

  /** What the databases hold at a height: the canonical block, the size of its raw bytes,
      whether its receipts decode against the header and whether its events are well formed. */
  datatype Block = Block(number: nat, hash: Hash, parent: Hash, size: nat, decodes: bool, accepts: bool)

  function PreviousHash(chain: seq<Option<Block>>, n: nat): Hash
    requires n <= |chain|
  {
    if n == 0 || chain[n - 1].None? then NoHash() else chain[n - 1].value.hash
  }

  /** readBlock: a block of the right number whose parent is the block before. */
  predicate Readable(chain: seq<Option<Block>>, n: nat)
    requires n < |chain|
  {
    chain[n].Some? && chain[n].value.number == n && chain[n].value.parent == PreviousHash(chain, n)
  }

  /** A block that decodes and is accepted. */
  predicate Passes(chain: seq<Option<Block>>, i: nat) {
    i < |chain| && chain[i].Some? && chain[i].value.decodes && chain[i].value.accepts
  }

  /** The first n blocks are readable, linked, decodable and acceptable. */
  ghost predicate Good(chain: seq<Option<Block>>, n: nat)
    requires n <= |chain|
  {
    forall i: nat :: i < n ==> Readable(chain, i) && Passes(chain, i)
  }

  /** A good chain starts at height zero with no parent, and every other block's parent is the
      block one height below. */
  lemma GoodMeans(chain: seq<Option<Block>>, n: nat)
    requires n <= |chain|
    ensures Good(chain, n) <==>
              && (forall i: nat :: i < n ==>
                    chain[i].Some? && chain[i].value.number == i && chain[i].value.decodes && chain[i].value.accepts)
              && (n > 0 ==> chain[0].value.parent == NoHash())
              && (forall i: nat :: 0 < i < n ==> chain[i].value.parent == chain[i - 1].value.hash)
  {
    if Good(chain, n) {
      forall i: nat | i < n
        ensures chain[i].Some? && chain[i].value.number == i && chain[i].value.decodes && chain[i].value.accepts
        ensures chain[i].value.parent == if i == 0 then NoHash() else PreviousHash(chain, i)
      {
        assert Readable(chain, i) && Passes(chain, i);
      }
    }
  }

  function Sizes(blocks: seq<Block>): nat {
    if blocks == [] then 0 else Sizes(blocks[..|blocks| - 1]) + blocks[|blocks| - 1].size
  }

  lemma SizesAppend(blocks: seq<Block>, b: Block)
    ensures Sizes(blocks + [b]) == Sizes(blocks) + b.size
  {
    assert (blocks + [b])[..|blocks|] == blocks;
  }

  /** The chain's blocks from one height to another. */
  ghost predicate IsRange(chain: seq<Option<Block>>, from: nat, blocks: seq<Block>) {
    from + |blocks| <= |chain| && forall i :: 0 <= i < |blocks| ==> chain[from + i] == Some(blocks[i])
  }

  class Scanner {
    const chain: seq<Option<Block>>
    const capacity: nat
    const budget: nat
    var blocks: seq<Block>
    var bytes: nat
    /** The queued blocks whose decoding has ended, and those it failed for. */
    var finished: set<nat>
    var errors: set<nat>
    var accepted: seq<Block>
    var completed: nat
    var previous: Hash

    /** Accepted blocks, then queued blocks, are the chain in order from height zero, and the
        queue is within its budgets. */
    ghost predicate Valid()
      reads this
    {
      && capacity > 0 && |blocks| <= capacity && bytes == Sizes(blocks) <= budget
      && IsRange(chain, 0, accepted) && IsRange(chain, |accepted|, blocks) && completed == |accepted|
      && (forall i :: i in finished ==> i < |blocks|)
      && (forall i :: i in errors <==> i in finished && !blocks[i].decodes)
    }

    constructor (chain: seq<Option<Block>>, capacity: nat, budget: nat)
      requires capacity > 0
      ensures Valid() && this.chain == chain && blocks == [] && accepted == [] && previous == NoHash()
    {
      this.chain, this.capacity, this.budget := chain, capacity, budget;
      blocks, bytes, finished, errors, accepted, completed, previous := [], 0, {}, {}, [], 0, NoHash();
    }

    /** Height of the next block to read. */
    ghost function Next(): nat
      reads this
    {
      |accepted| + |blocks|
    }

    /** Some queued block's decoding ends. */
    method Work(i: nat)
      requires Valid() && i < |blocks| && i !in finished
      modifies this`finished, this`errors
      ensures Valid() && finished == old(finished) + {i}
    {
      finished := finished + {i};
      if !blocks[i].decodes {
        errors := errors + {i};
      }
    }

    /** Decoding goes on in the background, in any order. */
    method Progress()
      requires Valid()
      modifies this`finished, this`errors
      ensures Valid()
    {
      hide Valid;
      var steps: nat := *;
      while steps > 0
        invariant Valid()
      {
        var i: nat := *;
        if i < |blocks| && i !in finished {
          Work(i);
        }
        steps := steps - 1;
      }
    }

    method Wait()
      requires Valid()
      modifies this`finished, this`errors
      ensures Valid() && forall i: nat :: i < |blocks| ==> i in finished
    {
      hide Valid;
      while exists i: nat :: i < |blocks| && i !in finished
        invariant Valid()
        decreases Indices(|blocks|) - finished
      {
        var i: nat :| i < |blocks| && i !in finished;
        assert i in Indices(|blocks|);
        Work(i);
      }
    }

    /** acceptBlock. */
    method Accept(b: Block) returns (ok: bool)
      requires |accepted| < |chain| && chain[|accepted|] == Some(b) && IsRange(chain, 0, accepted)
               && completed == |accepted|
      modifies this`accepted, this`completed
      ensures ok == b.accepts && accepted == old(accepted) + (if ok then [b] else []) && completed == |accepted|
      ensures IsRange(chain, 0, accepted)
    {
      ok := b.accepts;
      if ok {
        accepted := accepted + [b];
        completed := completed + 1;
      }
    }

    /** Accepting the queued blocks in order, up to the first that fails. */
    method AcceptAll() returns (ok: bool)
      requires IsRange(chain, 0, accepted) && IsRange(chain, |accepted|, blocks) && completed == |accepted|
      modifies this`accepted, this`completed
      ensures IsRange(chain, 0, accepted) && completed == |accepted| && old(accepted) <= accepted
      ensures ok ==> |accepted| == |old(accepted)| + |blocks|
      ensures ok <==> forall i :: 0 <= i < |blocks| ==> blocks[i].accepts
    {
      for n := 0 to |blocks|
        invariant |accepted| == |old(accepted)| + n && IsRange(chain, 0, accepted) && completed == |accepted|
        invariant old(accepted) <= accepted
        invariant forall i :: 0 <= i < n ==> blocks[i].accepts
      {
        ok := Accept(blocks[n]);
        if !ok {
          assert !blocks[n].accepts;
          return;
        }
      }
      ok := true;
    }

    /** drainHistory: every queued block decoded, then accepted in order. */
    method Drain() returns (ok: bool)
      requires Valid()
      modifies this
      ensures previous == old(previous) && old(accepted) <= accepted && IsRange(chain, 0, accepted)
              && completed == |accepted|
      ensures ok ==> Valid() && blocks == [] && Next() == old(Next())
      ensures ok <==> forall i: nat :: |old(accepted)| <= i < old(Next()) ==> Passes(chain, i)
    {
      hide Sizes;
      Wait();
      RangePasses(chain, |accepted|, blocks);
      if errors != {} {
        ghost var i :| i in errors;
        assert !blocks[i].decodes;
        return false;
      }
      assert forall i :: 0 <= i < |blocks| ==> blocks[i].decodes;
      ok := AcceptAll();
      if ok {
        blocks, bytes, finished, errors := [], 0, {}, {};
        NoSizes();
      }
    }

    /** readBlock at the next height. */
    method Read() returns (b: Option<Block>)
      requires Valid() && Next() < |chain| && previous == PreviousHash(chain, Next())
      modifies this`previous
      ensures b.Some? <==> Readable(chain, Next())
      ensures b.Some? ==> b == chain[Next()] && previous == b.value.hash == PreviousHash(chain, Next() + 1)
    {
      var n := completed + |blocks|;
      var c := chain[n];
      if c.None? || c.value.number != n || c.value.parent != previous {
        return None;
      }
      previous := c.value.hash;
      b := c;
    }

    /** One height of scanParallel: queue the block, draining first when it would not fit; a
        block over the whole budget is decoded and accepted on its own. */
    method Take(b: Block) returns (ok: bool)
      requires Valid() && Next() < |chain| && chain[Next()] == Some(b)
      modifies this
      ensures previous == old(previous) && old(accepted) <= accepted && IsRange(chain, 0, accepted)
      ensures ok ==> Valid() && Next() == old(Next()) + 1
      ensures !ok ==> exists i: nat :: |old(accepted)| <= i <= old(Next()) && !Passes(chain, i)
      ensures ok ==> forall i: nat :: |old(accepted)| <= i < |accepted| ==> Passes(chain, i)
    {
      hide Sizes;
      ghost var height := Next();
      if |blocks| == capacity || b.size + bytes > budget {
        ok := Drain();
        if !ok {
          return;
        }
        NoSizes();
      }
      if b.size > budget {
        if !b.decodes {
          assert !Passes(chain, height);
          return false;
        }
        ok := Accept(b);
        assert Passes(chain, height) == b.accepts;
        return;
      }
      SizesAppend(blocks, b);
      blocks, bytes := blocks + [b], bytes + b.size;
      ok := true;
    }
  }

  lemma RangePasses(chain: seq<Option<Block>>, from: nat, blocks: seq<Block>)
    requires IsRange(chain, from, blocks)
    ensures (forall i: nat :: from <= i < from + |blocks| ==> Passes(chain, i)) <==>
            forall i :: 0 <= i < |blocks| ==> blocks[i].decodes && blocks[i].accepts
  {
    if forall i: nat :: from <= i < from + |blocks| ==> Passes(chain, i) {
      forall i | 0 <= i < |blocks|
        ensures blocks[i].decodes && blocks[i].accepts
      {
        assert Passes(chain, from + i);
      }
    }
    if forall i :: 0 <= i < |blocks| ==> blocks[i].decodes && blocks[i].accepts {
      forall i: nat | from <= i < from + |blocks|
        ensures Passes(chain, i)
      {
        assert chain[from + (i - from)] == Some(blocks[i - from]);
      }
    }
  }

  lemma NoSizes()
    ensures Sizes([]) == 0
  {
  }

  /** scanParallel: it succeeds exactly when every block is good, and then has accepted the
      whole chain, once each and in order, whatever order the decoding ended in. */
  method ScanParallel(chain: seq<Option<Block>>, capacity: nat, budget: nat) returns (ok: bool, accepted: seq<Block>)
    requires chain != [] && capacity > 0
    ensures ok <==> Good(chain, |chain|)
    ensures ok ==> |accepted| == |chain| && forall i :: 0 <= i < |chain| ==> chain[i] == Some(accepted[i])
    ensures IsRange(chain, 0, accepted)
  {
    var s := new Scanner(chain, capacity, budget);
    for n := 0 to |chain|
      invariant fresh(s) && s.Valid() && s.chain == chain && s.Next() == n && s.previous == PreviousHash(chain, n)
      invariant forall i: nat :: i < n ==> Readable(chain, i)
      invariant forall i: nat :: i < |s.accepted| ==> Passes(chain, i)
    {
      s.Progress();
      var b := s.Read();
      if b.None? {
        return false, s.accepted;
      }
      ok := s.Take(b.value);
      if !ok {
        return false, s.accepted;
      }
    }
    ok := s.Drain();
    accepted := s.accepted;
  }
}
