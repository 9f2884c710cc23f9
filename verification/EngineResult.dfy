/** What a run of the engine has produced when it succeeds, whatever the schedule:
    the serial traversal's result, partition by partition. */
module EngineResult {
  import opened ByteStrings
  import opened Sums
  import opened Traversal
  import opened Engine
  import opened EngineInvariant
  import opened EngineSteps
  import opened EngineRuns
  import opened EngineProgress
  import opened EngineFailure

  ghost predicate Succeeded(s: State) { forall p :: 0 <= p < |s.parts| ==> s.parts[p].pc.Done? }

  /** run()'s sum over the partition results. */
  function TotalCounts(parts: seq<Part>, n: nat): Counts
    requires n <= |parts|
  {
    if n == 0 then ZERO else Add(TotalCounts(parts, n - 1), parts[n - 1].counts)
  }

  ghost function Written(h: Hash): Part -> nat { (part: Part) => multiset(part.codes)[h] }

  // A finished partition.

  lemma {:induction false} FlagCountsList(size: Hash -> nat, accounts: seq<Account>, flags: seq<bool>, n: nat)
    requires n <= |accounts| && n <= |flags|
    ensures var codes := Codes(accounts, flags, n);
            FlagCounts(size, accounts, flags, n) == Counts(0, 0, 0, |codes|, |codes|, Sum(codes, size))
  {
    hide Sum;
    if n > 0 {
      FlagCountsList(size, accounts, flags, n - 1);
      if flags[n - 1] && accounts[n - 1].code.Some? {
        SumAppend(Codes(accounts, flags, n - 1), accounts[n - 1].code.value, size);
      }
    } else {
      NoCodes(Codes(accounts, flags, n), size);
    }
  }

  lemma NoCodes(codes: seq<Hash>, size: Hash -> nat)
    requires codes == []
    ensures Sum(codes, size) == 0
  {
  }

  ghost function ClaimCounts(size: Hash -> nat, part: Part): Counts {
    Counts(0, 0, 0, |ClaimList(part)|, |ClaimList(part)|, Sum(ClaimList(part), size))
  }

  lemma DonePart(size: Hash -> nat, part: Part)
    requires PartInv(size, part) && part.pc.Done?
    ensures part.leaves == Keys(part.accounts, |part.accounts|)
    ensures part.codes == ClaimList(part)
    ensures part.counts == Add(BaseCounts(part.accounts, |part.accounts|), ClaimCounts(size, part))
    ensures |part.flags| == |part.accounts|
  {
    hide Add, Sum, BaseCounts;
    FlagCountsList(size, part.accounts, part.flags, |part.accounts|);
  }

  // Totals.

  function BaseTotal(inputs: seq<seq<Account>>, n: nat): Counts
    requires n <= |inputs|
  {
    if n == 0 then ZERO else Add(BaseTotal(inputs, n - 1), BaseCounts(inputs[n - 1], |inputs[n - 1]|))
  }

  ghost function ClaimTotal(size: Hash -> nat, parts: seq<Part>): Counts {
    Counts(0, 0, 0, Sum(parts, ClaimNumber()), Sum(parts, ClaimNumber()), Sum(parts, ClaimSize(size)))
  }

  lemma ClaimTotalStep(size: Hash -> nat, parts: seq<Part>, n: nat)
    requires n < |parts|
    ensures ClaimTotal(size, parts[..n + 1]) == Add(ClaimTotal(size, parts[..n]), ClaimCounts(size, parts[n]))
  {
    hide Sum, ClaimList;
    assert parts[..n + 1] == parts[..n] + [parts[n]];
    SumAppend(parts[..n], parts[n], ClaimNumber());
    SumAppend(parts[..n], parts[n], ClaimSize(size));
  }

  lemma ClaimTotalEmpty(size: Hash -> nat, parts: seq<Part>)
    ensures ClaimTotal(size, parts[..0]) == ZERO
  {
    assert parts[..0] == [];
  }

  lemma {:induction false} TotalsSplit(c: Config, s: State, n: nat)
    requires PartsInv(c, s) && Succeeded(s) && n <= |s.parts|
    ensures TotalCounts(s.parts, n) == Add(BaseTotal(c.inputs, n), ClaimTotal(c.size, s.parts[..n]))
  {
    hide Add, Sum, BaseCounts, ClaimTotal, ClaimCounts, PartInv;
    if n > 0 {
      TotalsSplit(c, s, n - 1);
      var part := s.parts[n - 1];
      DonePart(c.size, part);
      ClaimTotalStep(c.size, s.parts, n - 1);
      AddRegroup(BaseTotal(c.inputs, n - 1), ClaimTotal(c.size, s.parts[..n - 1]),
                 BaseCounts(part.accounts, |part.accounts|), ClaimCounts(c.size, part));
    } else {
      ClaimTotalEmpty(c.size, s.parts);
      AddRegroup(ZERO, ZERO, ZERO, ZERO);
    }
  }

  lemma {:induction false} BaseTotalConcat(inputs: seq<seq<Account>>, n: nat)
    requires n <= |inputs|
    ensures BaseTotal(inputs, n) == BaseCounts(Concat(inputs, n), |Concat(inputs, n)|)
  {
    hide Add, AccountCounts;
    if n > 0 {
      BaseTotalConcat(inputs, n - 1);
      BaseConcat(Concat(inputs, n - 1), inputs[n - 1], |inputs[n - 1]|);
    }
  }

  // Codes.

  lemma {:induction false} ConcatMember(inputs: seq<seq<Account>>, n: nat, p: nat, i: nat)
    requires n <= |inputs| && p < n && i < |inputs[p]|
    ensures inputs[p][i] in Concat(inputs, n)
  {
    if p < n - 1 {
      ConcatMember(inputs, n - 1, p, i);
    } else {
      assert Concat(inputs, n)[|Concat(inputs, n - 1)| + i] == inputs[p][i];
    }
  }

  lemma {:induction false} ConcatOrigin(inputs: seq<seq<Account>>, n: nat, a: Account)
    requires n <= |inputs| && a in Concat(inputs, n)
    ensures exists p :: 0 <= p < n && a in inputs[p]
  {
    if n > 0 && a !in inputs[n - 1] {
      ConcatOrigin(inputs, n - 1, a);
    }
  }

  lemma {:induction false} CodesOrigin(accounts: seq<Account>, flags: seq<bool>, n: nat, h: Hash)
    requires n <= |accounts| && n <= |flags| && h in Codes(accounts, flags, n)
    ensures exists i :: 0 <= i < n && accounts[i].code == Some(h)
  {
    if n > 0 && accounts[n - 1].code != Some(h) {
      CodesOrigin(accounts, flags, n - 1, h);
    }
  }

  ghost function AllHashes(c: Config): set<Hash> {
    var all := Concat(c.inputs, |c.inputs|);
    CodeHashes(all, |all|)
  }

  lemma HashesOf(c: Config, p: nat, i: nat)
    requires p < |c.inputs| && i < |c.inputs[p]| && c.inputs[p][i].code.Some?
    ensures c.inputs[p][i].code.value in AllHashes(c)
  {
    hide Concat, CodeHashes;
    var all := Concat(c.inputs, |c.inputs|);
    ConcatMember(c.inputs, |c.inputs|, p, i);
    var j :| 0 <= j < |all| && all[j] == c.inputs[p][i];
    HashesMember(all, |all|, c.inputs[p][i].code.value);
  }

  lemma HashesFrom(c: Config, h: Hash)
    requires h in AllHashes(c)
    ensures exists p, i :: 0 <= p < |c.inputs| && 0 <= i < |c.inputs[p]| && c.inputs[p][i].code == Some(h)
  {
    hide Concat, CodeHashes;
    var all := Concat(c.inputs, |c.inputs|);
    HashesMember(all, |all|, h);
    var j :| 0 <= j < |all| && all[j].code == Some(h);
    ConcatOrigin(c.inputs, |c.inputs|, all[j]);
    var p :| 0 <= p < |c.inputs| && all[j] in c.inputs[p];
    var i :| 0 <= i < |c.inputs[p]| && c.inputs[p][i] == all[j];
  }

  /** After success the claimed hashes are exactly those some account refers to. */
  lemma SeenIsAll(c: Config, s: State)
    requires Inv(c, s) && Succeeded(s)
    ensures s.seen == AllHashes(c)
  {
    hide Sum, SetSum, AllHashes, Output, BaseCounts;
    forall h | h in s.seen
      ensures h in AllHashes(c)
    {
      SumZero(s.parts, ClaimsOf(h));
      var p :| 0 <= p < |s.parts| && ClaimsOf(h)(s.parts[p]) != 0;
      ClaimedIsReferred(c, s, p, h);
    }
    forall h | h in AllHashes(c)
      ensures h in s.seen
    {
      HashesFrom(c, h);
      var p, i :| 0 <= p < |c.inputs| && 0 <= i < |c.inputs[p]| && c.inputs[p][i].code == Some(h);
      DonePart(c.size, s.parts[p]);
      assert PreparedSeen(s.parts[p], s.seen);
    }
  }

  lemma ClaimedIsReferred(c: Config, s: State, p: nat, h: Hash)
    requires PartsInv(c, s) && p < |s.parts| && ClaimsOf(h)(s.parts[p]) != 0
    ensures h in AllHashes(c)
  {
    hide AllHashes, PartInv;
    var part := s.parts[p];
    FlagsBounded(c.size, part);
    assert h in ClaimList(part);
    CodesOrigin(part.accounts, part.flags, |part.flags|, h);
    var i :| 0 <= i < |part.flags| && part.accounts[i].code == Some(h);
    HashesOf(c, p, i);
  }

  // Results.

  /** The summed counts of every successful run are the serial traverser's. */
  lemma CountsAreSerial(c: Config, s: State)
    requires Inv(c, s) && Succeeded(s)
    ensures var all := Concat(c.inputs, |c.inputs|);
            TotalCounts(s.parts, |s.parts|) == Traverse(all, c.size, |all|)
  {
    hide Add, Sum, SetSum, PartsInv, BaseCounts, Traverse, BaseTotal, TotalCounts, Concat;
    SameLength(c, s);
    var n := |s.parts|;
    var all := Concat(c.inputs, n);
    TotalsSplit(c, s, n);
    BaseTotalConcat(c.inputs, n);
    TraverseTotal(all, c.size, |all|);
    SeenIsAll(c, s);
    assert s.parts[..n] == s.parts;
    assert ClaimTotal(c.size, s.parts) == CodeSetCounts(s.seen, c.size);
  }

  lemma SameLength(c: Config, s: State)
    requires PartsInv(c, s)
    ensures |s.parts| == |c.inputs|
  {
  }

  /** Each distinct code hash is written exactly once over all partitions. */
  lemma CodesWrittenOnce(c: Config, s: State, h: Hash)
    requires Inv(c, s) && Succeeded(s)
    ensures Sum(s.parts, Written(h)) == if h in AllHashes(c) then 1 else 0
  {
    hide Sum, PartInv, AllHashes;
    SeenIsAll(c, s);
    forall p | 0 <= p < |s.parts|
      ensures Written(h)(s.parts[p]) == ClaimsOf(h)(s.parts[p])
    {
      DonePart(c.size, s.parts[p]);
    }
    SumAgree(s.parts, s.parts, Written(h), ClaimsOf(h));
  }

  lemma {:induction false} KeysAt(accounts: seq<Account>, n: nat)
    requires n <= |accounts|
    ensures |Keys(accounts, n)| == n && forall i :: 0 <= i < n ==> Keys(accounts, n)[i] == accounts[i].key
  {
    if n > 0 {
      KeysAt(accounts, n - 1);
    }
  }

  ghost predicate Increasing(keys: seq<Hash>) {
    forall i, j :: 0 <= i < j < |keys| ==> Less(keys[i], keys[j])
  }

  ghost predicate SortedInputs(c: Config) {
    forall p, i, j :: 0 <= p < |c.inputs| && 0 <= i < j < |c.inputs[p]| ==> Less(c.inputs[p][i].key, c.inputs[p][j].key)
  }

  /** In every state, also of a run that fails later, a partition's trie has
      received a prefix of its keys, in strictly increasing order. */
  lemma LeavesInOrder(c: Config, s: State, p: nat)
    requires Inv(c, s) && SortedInputs(c) && p < |s.parts|
    ensures Increasing(s.parts[p].leaves)
    ensures |s.parts[p].leaves| <= |c.inputs[p]|
    ensures forall i :: 0 <= i < |s.parts[p].leaves| ==> s.parts[p].leaves[i] == c.inputs[p][i].key
  {
    hide Sum, SetSum, Shape, BaseCounts, FlagCounts, Codes;
    var part := s.parts[p];
    FlagsBounded(c.size, part);
    KeysAt(part.accounts, part.merged);
  }

  /** No goroutine has a step left; cancellation from outside is not one. */
  ghost predicate NobodyMoves(c: Config, s: State) {
    forall s', p, action :: !PartStep(c, s, s', p, action)
  }

  /** The theorem. Every run of the engine, under any interleaving, any failures and
      cancellation at any moment, is finite, and in each of its states the tries have
      received keys in strictly increasing order. If no goroutine can move, the run has
      finished with every slot and lease returned, and it has succeeded unless something
      failed or cancelled it. A partition in which a read, write, assembly or wait ended in
      an error is done in no later state. And if every partition succeeded, no step was such
      an error, the tries have received all their keys, every code has been written once,
      and the counts are those of the serial traversal. */
  lemma EveryRun(c: Config, states: seq<State>)
    requires ValidConfig(c) && SortedInputs(c) && Run(c, states)
    ensures |states| <= TotalRank(states[0]) + 1
    ensures forall i :: 0 <= i < |states| ==> Conserved(c, states[i])
    ensures forall i, p :: 0 <= i < |states| && 0 <= p < |states[i].parts| ==>
              !states[i].parts[p].pc.Unmerged? && Increasing(states[i].parts[p].leaves)
    ensures forall i: nat, p: nat, action, j :: ErrorAt(c, states, i, p, action) && i < j < |states| ==>
              p < |states[j].parts| && !states[j].parts[p].pc.Done?
    ensures var last := states[|states| - 1];
            && (NobodyMoves(c, last) ==>
                  && AllFinished(last) && last.window == 0 && last.tokens == 0
                  && (!last.cancelled ==> Succeeded(last)))
            && |last.parts| == |c.inputs|
            && (Succeeded(last) ==>
                  && (forall i: nat, p: nat, action :: !ErrorAt(c, states, i, p, action))
                  && (forall p :: 0 <= p < |last.parts| ==> last.parts[p].leaves == Keys(c.inputs[p], |c.inputs[p]|))
                  && (forall h :: Sum(last.parts, Written(h)) == if h in AllHashes(c) then 1 else 0)
                  && TotalCounts(last.parts, |last.parts|)
                     == Traverse(Concat(c.inputs, |c.inputs|), c.size, |Concat(c.inputs, |c.inputs|)|))
  {
    hide Sum, SetSum, PartInv, Conserved, Step, PartStep, ErrorAt, Traverse, TotalCounts, Concat, AllHashes, Keys,
         TotalRank;
    var last := states[|states| - 1];
    forall i | 0 <= i < |states|
      ensures Inv(c, states[i])
    {
      RunKeeps(c, states, i);
    }
    forall i, p | 0 <= i < |states| && 0 <= p < |states[i].parts|
      ensures !states[i].parts[p].pc.Unmerged? && Increasing(states[i].parts[p].leaves)
    {
      NeverUnmerged(c, states[i], p);
      LeavesInOrder(c, states[i], p);
    }
    forall i: nat, p: nat, action, j | ErrorAt(c, states, i, p, action) && i < j < |states|
      ensures p < |states[j].parts| && !states[j].parts[p].pc.Done?
    {
      ErrorsAreKept(c, states, i, p, action, j);
    }
    RunKeeps(c, states, |states| - 1);
    if NobodyMoves(c, last) {
      StuckIsFinished(c, last);
    }
    if Succeeded(last) {
      CountsAreSerial(c, last);
      forall i: nat, p: nat, action
        ensures !ErrorAt(c, states, i, p, action)
      {
        SuccessHasNoError(c, states, i, p, action);
      }
      forall h ensures Sum(last.parts, Written(h)) == if h in AllHashes(c) then 1 else 0 {
        CodesWrittenOnce(c, last, h);
      }
      forall p | 0 <= p < |last.parts|
        ensures last.parts[p].leaves == Keys(c.inputs[p], |c.inputs[p]|)
      {
        DonePart(c.size, last.parts[p]);
      }
    }
  }

  lemma SuccessHasNoError(c: Config, states: seq<State>, i: nat, p: nat, action: Action)
    requires Run(c, states) && Succeeded(states[|states| - 1])
    ensures !ErrorAt(c, states, i, p, action)
  {
    hide Step, PartStep, Errs;
    if ErrorAt(c, states, i, p, action) {
      ErrorsAreKept(c, states, i, p, action, |states| - 1);
    }
  }

  /** A run that can go no further has finished and returned everything, and without a
      failure or cancellation every partition has succeeded. */
  lemma StuckIsFinished(c: Config, s: State)
    requires Inv(c, s) && NobodyMoves(c, s)
    ensures AllFinished(s) && s.window == 0 && s.tokens == 0
    ensures !s.cancelled ==> Succeeded(s)
  {
    hide PartInv, PartStep, ClaimedOnce, Sum;
    if !AllFinished(s) {
      NeverStuck(c, s);
    }
    FinishedReturnsAll(c, s);
    forall p | 0 <= p < |s.parts|
      ensures !s.cancelled ==> s.parts[p].pc.Done?
    {
      NeverUnmerged(c, s, p);
    }
  }
}
