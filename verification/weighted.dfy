/** Cumulative-weight selection, as the slot machine, Target Rush and Click
    Challenge pick an outcome: add the weights in table order and take the first
    entry whose running total reaches the draw; if none does, take entry 0. */
module Weighted {

  /** Sum of the first `k` weights. */
  function Prefix(ws: seq<nat>, k: nat): nat
    requires k <= |ws|
  {
    if k == 0 then 0 else Prefix(ws, k - 1) + ws[k - 1]
  }

  function Total(ws: seq<nat>): nat {
    Prefix(ws, |ws|)
  }

  /** Entry `k` is the first whose running total is at least `r`. */
  predicate FirstCovering(ws: seq<nat>, r: real, k: nat) {
    && k < |ws|
    && r <= Prefix(ws, k + 1) as real
    && Below(ws, r, k)
  }

  /** Every running total up to entry `k` (exclusive) is below the draw. */
  predicate Below(ws: seq<nat>, r: real, k: nat)
    requires k <= |ws|
  {
    forall j :: 0 < j <= k ==> Prefix(ws, j) as real < r
  }

  /** The selection from entry `from` on. */
  function SelectFrom(ws: seq<nat>, r: real, from: nat): (k: nat)
    requires from <= |ws|
    requires Below(ws, r, from)
    ensures FirstCovering(ws, r, k) || (k == 0 && Below(ws, r, |ws|))
    decreases |ws| - from
  {
    if from == |ws| then 0
    else if r <= Prefix(ws, from + 1) as real then from
    else SelectFrom(ws, r, from + 1)
  }

  /** The selected entry for draw `r`: the first covering entry, or the fallback 0
      when the draw exceeds the total weight. */
  function Select(ws: seq<nat>, r: real): (k: nat)
    ensures FirstCovering(ws, r, k) || (k == 0 && Below(ws, r, |ws|))
  {
    SelectFrom(ws, r, 0)
  }

  /** The source's loop: an accumulator of weights and an early return. */
  method Pick(ws: seq<nat>, r: real) returns (k: nat)
    ensures k == Select(ws, r)
  {
    var acc: nat := 0;
    var i: nat := 0;
    while i < |ws|
      invariant i <= |ws|
      invariant acc == Prefix(ws, i)
      invariant Below(ws, r, i)
    {
      acc := acc + ws[i];
      if r <= acc as real {
        FirstCoveringUnique(ws, r, i, Select(ws, r));
        return i;
      }
      i := i + 1;
    }
    return 0;
  }

  /** At most one entry is the first covering one. */
  lemma FirstCoveringUnique(ws: seq<nat>, r: real, a: nat, b: nat)
    requires FirstCovering(ws, r, a)
    requires FirstCovering(ws, r, b) || (b == 0 && Below(ws, r, |ws|))
    ensures a == b
  {
  }

  lemma {:induction false} PrefixMonotone(ws: seq<nat>, a: nat, b: nat)
    requires a <= b <= |ws|
    ensures Prefix(ws, a) <= Prefix(ws, b)
    decreases b - a
  {
    if a < b {
      PrefixMonotone(ws, a, b - 1);
    }
  }

  /** A draw no larger than the total weight never reaches the fallback. */
  lemma NoFallbackWithinTotal(ws: seq<nat>, r: real)
    requires |ws| > 0 && r <= Total(ws) as real
    ensures FirstCovering(ws, r, Select(ws, r))
  {
  }

  predicate AllPositive(ws: seq<nat>) {
    forall i :: 0 <= i < |ws| ==> ws[i] > 0
  }

  lemma {:induction false} PrefixStrict(ws: seq<nat>, a: nat, b: nat)
    requires AllPositive(ws) && a < b <= |ws|
    ensures Prefix(ws, a) < Prefix(ws, b)
    decreases b - a
  {
    if a < b - 1 {
      PrefixStrict(ws, a, b - 1);
    }
  }

  /** With positive weights and a draw in `[0, Total]`, entry `k` is selected
      exactly when the draw lies in its slice `(Prefix(k), Prefix(k+1)]` (the
      first slice also takes 0): a draw on a boundary goes to the earlier entry,
      and each entry's chance is its share of the total. */
  lemma SelectedIffInSlice(ws: seq<nat>, r: real, k: nat)
    requires AllPositive(ws) && |ws| > 0
    requires 0.0 <= r <= Total(ws) as real
    ensures Select(ws, r) == k <==>
              k < |ws| && (k == 0 || Prefix(ws, k) as real < r) && r <= Prefix(ws, k + 1) as real
  {
    var s := Select(ws, r);
    NoFallbackWithinTotal(ws, r);
    if k < |ws| && (k == 0 || Prefix(ws, k) as real < r) && r <= Prefix(ws, k + 1) as real {
      forall j | 0 < j <= k
        ensures Prefix(ws, j) as real < r
      {
        PrefixMonotone(ws, j, k);
      }
      FirstCoveringUnique(ws, r, k, s);
    }
    if s == k && k > 0 {
      assert Below(ws, r, k);
    }
  }

  /** A draw exactly on the running total of entry `k` selects entry `k`. */
  lemma BoundaryGoesToEarlier(ws: seq<nat>, k: nat)
    requires AllPositive(ws) && k < |ws|
    ensures Select(ws, Prefix(ws, k + 1) as real) == k
  {
    PrefixMonotone(ws, k + 1, |ws|);
    if k > 0 {
      PrefixStrict(ws, k, k + 1);
    }
    SelectedIffInSlice(ws, Prefix(ws, k + 1) as real, k);
  }
}
