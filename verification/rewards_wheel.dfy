/** The rewards wheel: eight prizes, a two-stage draw that favours the point
    prizes, and the same ledger write as the slot machine. */
module RewardsWheel {
  import opened Wrappers
  import opened Store
  import opened Auth
  import opened Shuffle
  import opened Ledger

  /** The wheel's segments, clockwise from the top. */
  const Prizes: seq<Prize> := [
    Prize("Free Credit Card", 0, true),
    Prize("1000 Points", 1000, false),
    Prize("Gaming Subscription", 0, true),
    Prize("100 Points", 100, false),
    Prize("Exclusive Card Access", 0, true),
    Prize("10 Points", 10, false),
    Prize("Extra Spin", 0, true),
    Prize("1 Point", 1, false)
  ]

  /** The segments the first stage restricts itself to. */
  const PointIndices: seq<nat> := [1, 3, 5, 7]

  /** The selection: a first draw below 0.7 picks uniformly among the point
      segments with the second draw; otherwise the second draw picks uniformly
      among all eight. */
  function SelectIndex(rand: real, rand2: real): (k: nat)
    requires 0.0 <= rand < 1.0 && 0.0 <= rand2 < 1.0
    ensures k < |Prizes|
  {
    if rand < 0.7 then PointIndices[DrawIndex(rand2, |PointIndices| - 1)]
    else DrawIndex(rand2, |Prizes| - 1)
  }

  /** The point segments are exactly the odd ones, and exactly the non-special ones. */
  lemma PointIndicesAreThePointPrizes()
    ensures forall k :: 0 <= k < |Prizes| ==> (k in PointIndices <==> !Prizes[k].special)
    ensures forall k :: 0 <= k < |Prizes| ==> (k in PointIndices <==> k % 2 == 1)
  {
  }

  /** A special prize (including "Extra Spin") can only come from the second
      branch: whenever the first draw is below 0.7 the wheel pays points. */
  lemma SpecialNeedsSecondBranch(rand: real, rand2: real)
    requires 0.0 <= rand < 1.0 && 0.0 <= rand2 < 1.0
    ensures Prizes[SelectIndex(rand, rand2)].special ==> rand >= 0.7
    ensures rand < 0.7 ==> Prizes[SelectIndex(rand, rand2)].points > 0
  {
  }

  /** Every segment can come up: segment `k` is hit by a first draw of 0.7 and a
      second draw of `k / 8`, and each point segment also by a first draw of 0
      and a second draw of `i / 4` for its position `i` among the point segments. */
  lemma EverySegmentReachable(k: nat)
    requires k < |Prizes|
    ensures SelectIndex(0.7, k as real / 8.0) == k
    ensures k % 2 == 1 ==> SelectIndex(0.0, (k / 2) as real / 4.0) == k
  {
    FloorOfWhole(k as real / 8.0 * 8.0, k);
    FloorOfWhole((k / 2) as real / 4.0 * 4.0, k / 2);
  }

  /** The floor of a whole number is that number. */
  lemma FloorOfWhole(x: real, n: nat)
    requires x == n as real
    ensures x.Floor == n
  {
  }

  /** What the wheel shows. */
  datatype Wheel = Wheel(spinning: bool, result: Option<string>)

  /** `spin`: ignored without a user, a cached profile, a spin to spend, or while a
      spin is running; otherwise the selected prize goes through the ledger and the
      wheel stops spinning whatever the ledger's outcome. The rotation is animation. */
  function Spin(st: AuthState, rows: seq<Profile>, w: Wheel, rand: real, rand2: real, now: int,
                writeFails: bool, refreshFails: bool): (r: (AuthState, seq<Profile>, Wheel, Status))
    requires 0.0 <= rand < 1.0 && 0.0 <= rand2 < 1.0
    ensures r.3 == Ignored <==>
              st.user.None? || st.profile.None? || SpinsOf(st.profile.value) < 1 || w.spinning
    ensures r.3 == Ignored ==> r.0 == st && r.1 == rows && r.2 == w
    ensures r.3 != Ignored ==>
              var k := SelectIndex(rand, rand2);
              && r.2 == Wheel(false, Some(Prizes[k].name))
              && (r.0, r.1, r.3) == ApplyPrize(st, rows, false, Prizes[k], now, writeFails, refreshFails)
  {
    if st.user.None? || st.profile.None? || SpinsOf(st.profile.value) < 1 || w.spinning then
      (st, rows, w, Ignored)
    else
      var k := SelectIndex(rand, rand2);
      var applied := ApplyPrize(st, rows, false, Prizes[k], now, writeFails, refreshFails);
      (applied.0, applied.1, Wheel(false, Some(Prizes[k].name)), applied.2)
  }

  /** A completed wheel spin in the first branch costs one spin and pays the
      selected point segment's points. */
  lemma PointBranchSettles(st: AuthState, rows: seq<Profile>, w: Wheel, rand: real, rand2: real, now: int)
    requires UniqueIds(rows) && 0.0 <= rand < 0.7 && 0.0 <= rand2 < 1.0
    requires Spin(st, rows, w, rand, rand2, now, false, false).3 == Applied
    ensures var rows' := Spin(st, rows, w, rand, rand2, now, false, false).1;
            var snap := st.profile.value;
            var p' := Find(rows', st.user.value).value;
            && HasId(rows', st.user.value)
            && SpinsOf(p') == SpinsOf(snap) - 1
            && PointsOf(p') == PointsOf(snap) + Prizes[SelectIndex(rand, rand2)].points
            && PointsOf(p') > PointsOf(snap)
  {
    var k := SelectIndex(rand, rand2);
    AppliedPrizeBalances(st, rows, false, Prizes[k], now, false, false);
    PrizeMovesSpinsByOne(SpinsOf(st.profile.value), Prizes[k]);
  }
}
