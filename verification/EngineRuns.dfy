/** The engine's theorems: what holds in every state of every run, that no run
    gets stuck or goes on forever, and what a run that succeeds has produced. */
module EngineRuns {
  import opened ByteStrings
  import opened Sums
  import opened Traversal
  import opened Engine
  import opened EngineInvariant
  import opened EngineSteps

  // The invariant of the whole system.

  /** The code hashes a partition's prepared accounts have claimed, in order. */
  ghost function ClaimList(part: Part): seq<Hash> {
    if |part.flags| <= |part.accounts| then Codes(part.accounts, part.flags, |part.flags|) else []
  }

  ghost function ClaimsOf(h: Hash): Part -> nat { part => multiset(ClaimList(part))[h] }
  ghost function ClaimNumber(): Part -> nat { part => |ClaimList(part)| }
  ghost function ClaimSize(size: Hash -> nat): Part -> nat { part => Sum(ClaimList(part), size) }

  ghost predicate PartsInv(c: Config, s: State) {
    && |s.parts| == |c.inputs|
    && (forall p :: 0 <= p < |s.parts| ==> s.parts[p].accounts == c.inputs[p] && PartInv(c.size, s.parts[p]))
    && (forall p :: 0 <= p < |s.parts| && (s.parts[p].failed || s.parts[p].pc.Failed?) ==> s.cancelled)
  }

  /** The window and the limiter hold exactly what the goroutines account for. */
  ghost predicate Conserved(c: Config, s: State) {
    && s.window == Sum(s.parts, Slots) <= 2 * c.workers
    && s.tokens == Sum(s.parts, Leases) <= c.workers
  }

  ghost predicate PreparedSeen(part: Part, seen: set<Hash>) {
    forall i :: 0 <= i < |part.flags| && i < |part.accounts| && part.accounts[i].code.Some? ==>
                  part.accounts[i].code.value in seen
  }

  /** Each code hash has been claimed once if a prepared account refers to it, else never. */
  ghost predicate ClaimedOnce(c: Config, s: State) {
    && (forall h :: Sum(s.parts, ClaimsOf(h)) == if h in s.seen then 1 else 0)
    && Sum(s.parts, ClaimNumber()) == |s.seen|
    && Sum(s.parts, ClaimSize(c.size)) == SetSum(s.seen, c.size)
    && (forall p :: 0 <= p < |s.parts| ==> PreparedSeen(s.parts[p], s.seen))
  }

  ghost predicate Inv(c: Config, s: State) {
    ValidConfig(c) && PartsInv(c, s) && Conserved(c, s) && ClaimedOnce(c, s)
  }

  ghost function TotalRank(s: State): nat {
    Sum(s.parts, Rank) + if s.cancelled then 0 else 1
  }

  // One step.

  lemma StepConserves(c: Config, s: State, s': State, p: nat, action: Action)
    requires Inv(c, s) && PartStep(c, s, s', p, action)
    ensures PartsInv(c, s') && Conserved(c, s') && TotalRank(s') < TotalRank(s)
  {
    hide PartInv, Move, Slots, Leases, Rank, Sum, ClaimedOnce, ClaimStep;
    var env := EnvOf(c, s);
    MoveSound(env, s.parts[p], action);
    var e := Move(env, s.parts[p], action).value;
    SumUpdate(s.parts, p, e.part, Slots);
    SumUpdate(s.parts, p, e.part, Leases);
    SumUpdate(s.parts, p, e.part, Rank);
  }

  lemma CodesAppend(part: Part, next: Part, flag: bool, size: Hash -> nat)
    requires |part.flags| < |part.accounts| && next.accounts == part.accounts && next.flags == part.flags + [flag]
    ensures ClaimList(next) == if flag && part.accounts[|part.flags|].code.Some?
                               then ClaimList(part) + [part.accounts[|part.flags|].code.value] else ClaimList(part)
  {
    CodesStable(part.accounts, part.flags, [flag], |part.flags|, size);
  }

  /** A step leaves the claims alone, or adds the one hash it adds to the shared set. */
  lemma ClaimsGrow(env: Env, part: Part, e: Effect)
    requires ClaimStep(env, part, e) && |part.flags| <= |part.accounts| && e.part.accounts == part.accounts
    ensures || (e.seen == env.seen && ClaimList(e.part) == ClaimList(part))
            || (exists h :: h !in env.seen && e.seen == env.seen + {h} && ClaimList(e.part) == ClaimList(part) + [h])
    ensures PreparedSeen(part, env.seen) ==> PreparedSeen(e.part, e.seen)
  {
    hide ClaimList;
    if e.part.flags == part.flags {
      assert ClaimList(e.part) == ClaimList(part) by { SameClaims(part, e.part); }
    } else {
      var a := part.accounts[|part.flags|];
      CodesAppend(part, e.part, Claims(a, env.seen), env.size);
      if Claims(a, env.seen) {
        assert a.code.value !in env.seen && e.seen == env.seen + {a.code.value};
      }
    }
  }

  lemma SameClaims(part: Part, next: Part)
    requires next.accounts == part.accounts && next.flags == part.flags
    ensures ClaimList(next) == ClaimList(part)
  {
  }

  lemma StepClaims(c: Config, s: State, s': State, p: nat, action: Action)
    requires Inv(c, s) && PartStep(c, s, s', p, action)
    ensures ClaimedOnce(c, s')
  {
    hide PartInv, Move, Slots, Leases, Rank, Sum, SetSum, Balanced, ClaimList, PreparedSeen, ClaimStep;
    var env, part := EnvOf(c, s), s.parts[p];
    MoveSound(env, part, action);
    var e := Move(env, part, action).value;
    assert |part.flags| <= |part.accounts| by { FlagsBounded(c.size, part); }
    ClaimsGrow(env, part, e);
    forall h
      ensures Sum(s'.parts, ClaimsOf(h)) == if h in s'.seen then 1 else 0
    {
      SumUpdate(s.parts, p, e.part, ClaimsOf(h));
    }
    SumUpdate(s.parts, p, e.part, ClaimNumber());
    SumUpdate(s.parts, p, e.part, ClaimSize(c.size));
    if e.seen != env.seen {
      var h :| h !in env.seen && e.seen == env.seen + {h} && ClaimList(e.part) == ClaimList(part) + [h];
      SumAppend(ClaimList(part), h, c.size);
      SetSumAdd(env.seen, h, c.size);
    }
    forall q | 0 <= q < |s'.parts|
      ensures PreparedSeen(s'.parts[q], s'.seen)
    {
      if q != p {
        SeenGrows(s.parts[q], s.seen, s'.seen);
      }
    }
  }

  lemma SeenGrows(part: Part, seen: set<Hash>, more: set<Hash>)
    requires PreparedSeen(part, seen) && seen <= more
    ensures PreparedSeen(part, more)
  {
  }

  lemma FlagsBounded(size: Hash -> nat, part: Part)
    requires PartInv(size, part)
    ensures part.merged <= |part.flags| <= |part.accounts|
  {
  }

  /** Every step keeps the invariant and lowers the rank. */
  lemma StepKeeps(c: Config, s: State, s': State)
    requires Inv(c, s) && Step(c, s, s')
    ensures Inv(c, s') && TotalRank(s') < TotalRank(s)
  {
    hide PartsInv, Conserved, ClaimedOnce, PartStep, Sum;
    if p, action :| PartStep(c, s, s', p, action) {
      StepConserves(c, s, s', p, action);
      StepClaims(c, s, s', p, action);
    } else {
      CancelKeeps(c, s, s');
    }
  }

  lemma CancelKeeps(c: Config, s: State, s': State)
    requires Inv(c, s) && Cancel(s, s')
    ensures Inv(c, s') && TotalRank(s') < TotalRank(s)
  {
    hide PartInv, Sum, SetSum;
  }

  lemma InitKeeps(c: Config, s: State)
    requires ValidConfig(c) && Init(c, s)
    ensures Inv(c, s)
  {
    hide Add;
    NoJobs();
    AddRegroup(ZERO, ZERO, ZERO, ZERO);
    forall p | 0 <= p < |s.parts|
      ensures PartInv(c.size, s.parts[p]) && Slots(s.parts[p]) == 0 && Leases(s.parts[p]) == 0
      ensures ClaimList(s.parts[p]) == []
    {
      assert s.parts[p] == NewPart(c.inputs[p]);
    }
    SumZero(s.parts, Slots);
    SumZero(s.parts, Leases);
    forall h
      ensures Sum(s.parts, ClaimsOf(h)) == 0
    {
      SumZero(s.parts, ClaimsOf(h));
    }
    SumZero(s.parts, ClaimNumber());
    SumZero(s.parts, ClaimSize(c.size));
  }

  // Runs.

  lemma {:induction false} RunKeeps(c: Config, states: seq<State>, i: nat)
    requires ValidConfig(c) && Run(c, states) && i < |states|
    ensures Inv(c, states[i]) && TotalRank(states[i]) + i <= TotalRank(states[0])
  {
    hide Inv, Step, TotalRank;
    if i == 0 {
      InitKeeps(c, states[0]);
    } else {
      RunKeeps(c, states, i - 1);
      assert Step(c, states[i - 1], states[i - 1 + 1]);
      StepKeeps(c, states[i - 1], states[i]);
    }
  }
}
