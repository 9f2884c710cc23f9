/** Finite sums over sequences and sets. */
module Sums {

  ghost function Sum<T>(s: seq<T>, f: T -> nat): nat {
    if s == [] then 0 else Sum(s[..|s| - 1], f) + f(s[|s| - 1])
  }

  lemma {:induction false} SumAppend<T>(s: seq<T>, x: T, f: T -> nat)
    ensures Sum(s + [x], f) == Sum(s, f) + f(x)
  {
    assert (s + [x])[..|s|] == s;
  }

  lemma {:induction false} SumFront<T>(s: seq<T>, f: T -> nat)
    requires s != []
    ensures Sum(s, f) == f(s[0]) + Sum(s[1..], f)
  {
    var n := |s| - 1;
    if n > 0 {
      SumFront(s[..n], f);
      assert s[..n][1..] == s[1..][..n - 1];
    }
  }

  lemma {:induction false} SumUpdate<T>(s: seq<T>, i: nat, x: T, f: T -> nat)
    requires i < |s|
    ensures Sum(s[i := x], f) + f(s[i]) == Sum(s, f) + f(x)
  {
    var n := |s| - 1;
    if i < n {
      SumUpdate(s[..n], i, x, f);
      assert s[i := x][..n] == s[..n][i := x];
    } else {
      assert s[i := x][..n] == s[..n];
    }
  }

  /** One term is at most the sum. */
  lemma {:induction false} SumTerm<T>(s: seq<T>, i: nat, f: T -> nat)
    requires i < |s|
    ensures f(s[i]) <= Sum(s, f)
  {
    var n := |s| - 1;
    if i < n {
      SumTerm(s[..n], i, f);
    }
  }

  /** A sum is positive exactly when some term is. */
  lemma {:induction false} SumZero<T>(s: seq<T>, f: T -> nat)
    ensures Sum(s, f) == 0 <==> forall i :: 0 <= i < |s| ==> f(s[i]) == 0
  {
    if s != [] {
      var n := |s| - 1;
      SumZero(s[..n], f);
      assert forall i :: 0 <= i < n ==> s[..n][i] == s[i];
    }
  }

  /** Terms that agree (pairwise) give sums that agree. */
  lemma {:induction false} SumAgree<T>(s: seq<T>, t: seq<T>, f: T -> nat, g: T -> nat)
    requires |s| == |t| && forall i :: 0 <= i < |s| ==> f(s[i]) == g(t[i])
    ensures Sum(s, f) == Sum(t, g)
  {
    if s != [] {
      var n := |s| - 1;
      SumAgree(s[..n], t[..n], f, g);
    }
  }

  lemma {:induction false} SumBelow<T>(s: seq<T>, t: seq<T>, f: T -> nat, g: T -> nat)
    requires |s| == |t| && forall i :: 0 <= i < |s| ==> f(s[i]) <= g(t[i])
    ensures Sum(s, f) <= Sum(t, g)
  {
    if s != [] {
      var n := |s| - 1;
      SumBelow(s[..n], t[..n], f, g);
    }
  }

  ghost function Pick<T>(s: set<T>): (x: T)
    requires s != {}
    ensures x in s
  {
    var x :| x in s;
    x
  }

  ghost function SetSum<T>(s: set<T>, f: T -> nat): nat {
    if s == {} then 0 else var x := Pick(s); SetSum(s - {x}, f) + f(x)
  }

  lemma {:induction false} SetSumRemove<T>(s: set<T>, x: T, f: T -> nat)
    requires x in s
    ensures SetSum(s, f) == SetSum(s - {x}, f) + f(x)
    decreases |s|
  {
    var y := Pick(s);
    if y != x {
      SetSumRemove(s - {y}, x, f);
      SetSumRemove(s - {x}, y, f);
      assert s - {y} - {x} == s - {x} - {y};
    }
  }

  lemma SetSumAdd<T>(s: set<T>, x: T, f: T -> nat)
    requires x !in s
    ensures SetSum(s + {x}, f) == SetSum(s, f) + f(x)
  {
    SetSumRemove(s + {x}, x, f);
    assert s + {x} - {x} == s;
  }

  lemma {:induction false} SetSumAgree<T>(s: set<T>, f: T -> nat, g: T -> nat)
    requires forall x :: x in s ==> f(x) == g(x)
    ensures SetSum(s, f) == SetSum(s, g)
    decreases |s|
  {
    if s != {} {
      SetSumAgree(s - {Pick(s)}, f, g);
    }
  }

  lemma {:induction false} SetSumUnion<T>(s: set<T>, t: set<T>, f: T -> nat)
    requires s !! t
    ensures SetSum(s + t, f) == SetSum(s, f) + SetSum(t, f)
    decreases |t|
  {
    if t == {} {
      assert s + t == s;
    } else {
      var x := Pick(t);
      SetSumUnion(s, t - {x}, f);
      assert s + t == s + (t - {x}) + {x};
      SetSumAdd(s + (t - {x}), x, f);
    }
  }

  lemma {:induction false} SetSumPlus<T>(s: set<T>, f: T -> nat, g: T -> nat, h: T -> nat)
    requires forall x :: x in s ==> h(x) == f(x) + g(x)
    ensures SetSum(s, h) == SetSum(s, f) + SetSum(s, g)
    decreases |s|
  {
    if s != {} {
      SetSumPlus(s - {Pick(s)}, f, g, h);
    }
  }

  lemma SetSumSubset<T>(s: set<T>, t: set<T>, f: T -> nat)
    requires s <= t
    ensures SetSum(s, f) <= SetSum(t, f)
  {
    SetSumUnion(s, t - s, f);
    assert s + (t - s) == t;
  }

  /** A sum over an injective image. */
  lemma {:induction false} SetSumImage<T(!new), U(!new)>(s: set<T>, image: set<U>, g: T -> U, f: U -> nat, h: T -> nat)
    requires forall x, y :: x in s && y in s && g(x) == g(y) ==> x == y
    requires forall x :: x in s ==> g(x) in image && f(g(x)) == h(x)
    requires forall u :: u in image ==> exists x :: x in s && g(x) == u
    ensures SetSum(image, f) == SetSum(s, h)
    decreases |s|
  {
    if s == {} {
      assert image == {};
    } else {
      var x := Pick(s);
      SetSumImage(s - {x}, image - {g(x)}, g, f, h);
      SetSumRemove(image, g(x), f);
    }
  }

  lemma {:induction false} SetSumNone<T>(s: set<T>, f: T -> nat)
    requires forall x :: x in s ==> f(x) == 0
    ensures SetSum(s, f) == 0
    decreases |s|
  {
    if s != {} {
      SetSumNone(s - {Pick(s)}, f);
    }
  }

  /** The numbers below n. */
  ghost function Indices(n: nat): (s: set<nat>)
    ensures forall i: nat :: i in s <==> i < n
  {
    if n == 0 then {} else Indices(n - 1) + {n - 1}
  }
}
