/** The downward Fisher–Yates sweep the games use to shuffle letters, word lists
    and quiz questions: for `i` from the last index down, swap `s[i]` with
    `s[floor(draw * (i + 1))]`, each draw taken from `[0, 1)`. */
module Shuffle {

  /** Every draw is a value `Math.random()` can return. */
  predicate UnitDraws(draws: seq<real>) {
    forall k :: 0 <= k < |draws| ==> 0.0 <= draws[k] < 1.0
  }

  /** `Math.floor(draw * (i + 1))`: an index in `0..i`. */
  function DrawIndex(draw: real, i: nat): (j: nat)
    requires 0.0 <= draw < 1.0
    ensures j <= i
    ensures j as real <= draw * (i + 1) as real < (j + 1) as real
  {
    ScaledFloorBelow(draw, i + 1);
    (draw * (i + 1) as real).Floor
  }

  /** Scaling a draw below one by `n` and taking the floor gives an index below `n`. */
  lemma ScaledFloorBelow(draw: real, n: nat)
    requires 0.0 <= draw < 1.0 && n > 0
    ensures 0.0 <= draw * n as real < n as real
    ensures 0 <= (draw * n as real).Floor < n
  {
    ScaledBelow(draw, n as real);
    FloorBelow(draw * n as real, n);
  }

  /** A draw below one scales a positive bound to something below it. */
  lemma ScaledBelow(draw: real, n: real)
    requires 0.0 <= draw < 1.0 && n > 0.0
    ensures 0.0 <= draw * n < n
  {
    assert n - draw * n == (1.0 - draw) * n;
  }

  /** The floor of a value in `[0, n)` is an index below `n`. */
  lemma FloorBelow(x: real, n: nat)
    requires 0.0 <= x < n as real
    ensures 0 <= x.Floor < n
  {
    assert x.Floor as real <= x;
  }

  /** The destructuring swap `[s[i], s[j]] = [s[j], s[i]]`. */
  function Swap<T>(s: seq<T>, i: nat, j: nat): (r: seq<T>)
    requires i < |s| && j < |s|
    ensures |r| == |s| && multiset(r) == multiset(s)
    ensures r[i] == s[j] && r[j] == s[i]
    ensures forall k :: 0 <= k < |s| && k != i && k != j ==> r[k] == s[k]
  {
    s[i := s[j]][j := s[i]]
  }

  /** The remaining steps of a sweep of which `done` steps have been taken: step
      `done` swaps index `|s| - 1 - done` with the index its draw picks. */
  function Steps<T>(s: seq<T>, draws: seq<real>, done: nat): (r: seq<T>)
    requires done + |draws| <= |s| && UnitDraws(draws)
    ensures |r| == |s| && multiset(r) == multiset(s)
    ensures forall k :: |s| - done <= k < |s| ==> r[k] == s[k]
    decreases |draws|
  {
    if |draws| == 0 then s
    else
      var i := |s| - 1 - done;
      Steps(Swap(s, i, DrawIndex(draws[0], i)), draws[1..], done + 1)
  }

  /** A whole sweep: one step per draw, starting at the last index. */
  function Sweep<T>(s: seq<T>, draws: seq<real>): (r: seq<T>)
    requires |draws| <= |s| && UnitDraws(draws)
    ensures |r| == |s| && multiset(r) == multiset(s)
  {
    Steps(s, draws, 0)
  }

  /** The loop as the source writes it. */
  method FisherYates<T>(s: seq<T>, draws: seq<real>) returns (r: seq<T>)
    requires |draws| <= |s| && UnitDraws(draws)
    ensures r == Sweep(s, draws)
    ensures multiset(r) == multiset(s)
  {
    r := s;
    var k := 0;
    while k < |draws|
      invariant 0 <= k <= |draws|
      invariant |r| == |s|
      invariant Steps(r, draws[k..], k) == Sweep(s, draws)
    {
      r := SwapStep(r, draws, k);
      k := k + 1;
    }
    assert draws[k..] == [];
  }

  /** One pass of the loop body: swap index `i = |r| - 1 - k` with the index the
      draw picks in `0..i`. */
  method SwapStep<T>(r: seq<T>, draws: seq<real>, k: nat) returns (r': seq<T>)
    requires k < |draws| <= |r| && UnitDraws(draws)
    ensures |r'| == |r| && multiset(r') == multiset(r)
    ensures Steps(r', draws[k + 1..], k + 1) == Steps(r, draws[k..], k)
  {
    var i := |r| - 1 - k;
    var j := DrawIndex(draws[k], i);
    StepUnfold(r, draws, k);
    r' := Swap(r, i, j);
  }

  /** Taking step `k` of the sweep and continuing is the sweep from step `k`. */
  lemma StepUnfold<T>(s: seq<T>, draws: seq<real>, k: nat)
    requires k < |draws| <= |s| && UnitDraws(draws)
    ensures Steps(s, draws[k..], k)
         == Steps(Swap(s, |s| - 1 - k, DrawIndex(draws[k], |s| - 1 - k)), draws[k + 1..], k + 1)
  {
    assert draws[k..][1..] == draws[k + 1..];
  }

  /** A sweep over a sequence whose elements are all equal returns it unchanged:
      such a word can never be scrambled. */
  lemma UniformSweepIsIdentity<T>(s: seq<T>, draws: seq<real>)
    requires |draws| <= |s| && UnitDraws(draws)
    requires forall k :: 0 <= k < |s| ==> s[k] == s[0]
    ensures Sweep(s, draws) == s
  {
    var r := Sweep(s, draws);
    forall k | 0 <= k < |r|
      ensures r[k] == s[k]
    {
      assert r[k] in multiset(s);
      var m :| 0 <= m < |s| && s[m] == r[k];
    }
  }
  /** No element occurs twice. */
  predicate Distinct<T(==)>(s: seq<T>) {
    forall i, j :: 0 <= i < j < |s| ==> s[i] != s[j]
  }

  /** In a sequence without repeats every element occurs at most once. */
  lemma {:induction false} DistinctCountsOne<T>(s: seq<T>, x: T)
    requires Distinct(s)
    ensures multiset(s)[x] <= 1
  {
    if |s| > 0 {
      assert s == [s[0]] + s[1..];
      assert Distinct(s[1..]) by {
        forall i, j | 0 <= i < j < |s[1..]|
          ensures s[1..][i] != s[1..][j]
        {
          assert s[1..][i] == s[i + 1] && s[1..][j] == s[j + 1];
        }
      }
      DistinctCountsOne(s[1..], x);
      if s[0] == x {
        assert x !in s[1..];
      }
    }
  }

  /** A permutation of a sequence without repeats has none either, and neither
      does any prefix of it. */
  lemma PermutationKeepsDistinct<T>(a: seq<T>, b: seq<T>, n: nat)
    requires multiset(a) == multiset(b) && Distinct(b) && n <= |a|
    ensures Distinct(a) && Distinct(a[..n])
  {
    forall i, j | 0 <= i < j < |a|
      ensures a[i] != a[j]
    {
      if a[i] == a[j] {
        assert a == a[..j] + a[j..];
        assert a[i] in multiset(a[..j]) && a[j] in multiset(a[j..]);
        assert multiset(a)[a[i]] >= 2;
        DistinctCountsOne(b, a[i]);
      }
    }
  }
}
