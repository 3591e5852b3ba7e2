/** The slot machine: a weighted draw over seven symbols, three identical reels
    showing the result, and the prize applied to the signed-in user's balances. */
module SlotMachine {
  import opened Wrappers
  import opened Store
  import opened Auth
  import opened Weighted
  import opened Ledger

  /** The symbol table, in the order the draw walks it. */
  const Symbols: seq<Prize> := [
    Prize("100 Points", 100, false),
    Prize("500 Points", 500, false),
    Prize("1000 Points", 1000, false),
    Prize("Gaming Headset", 0, true),
    Prize("Nintendo Switch", 0, true),
    Prize("Free Credit Card", 0, true),
    Prize("Extra Spin", 0, true)
  ]

  /** Each symbol's rarity, its share of the 0–100 draw. */
  const Rarities: seq<nat> := [35, 25, 15, 10, 2, 5, 8]

  /** The running totals the draw is compared against. */
  const Bounds: seq<nat> := [0, 35, 60, 75, 85, 87, 92, 100]

  /** The running totals are the rarities' prefix sums and add up to 100. */
  lemma BoundsArePrefixSums()
    ensures |Bounds| == |Rarities| + 1 == |Symbols| + 1
    ensures forall k :: 0 <= k <= |Rarities| ==> Bounds[k] == Prefix(Rarities, k)
    ensures Total(Rarities) == 100
  {
    assert Prefix(Rarities, 7) == 100;
  }

  /** `getRandomSymbol`, given `Math.random() * 100`. */
  function RandomSymbol(draw: real): (k: nat)
    requires 0.0 <= draw < 100.0
    ensures k < |Symbols|
  {
    BoundsArePrefixSums();
    NoFallbackWithinTotal(Rarities, draw);
    Select(Rarities, draw)
  }

  /** Symbol `k` comes up exactly for draws in its slice `(Bounds[k], Bounds[k+1]]`
      (with 0 itself going to the first symbol), and that slice is as wide as the
      symbol's rarity: rarity is the symbol's percentage chance. */
  lemma SymbolSlices(draw: real, k: nat)
    requires 0.0 <= draw < 100.0 && k < |Symbols|
    ensures RandomSymbol(draw) == k <==>
              (k == 0 || Bounds[k] as real < draw) && draw <= Bounds[k + 1] as real
    ensures Bounds[k + 1] - Bounds[k] == Rarities[k]
  {
    BoundsArePrefixSums();
    SelectedIffInSlice(Rarities, draw, k);
  }

  /** The jackpot ("Nintendo Switch") comes up exactly for draws in `(85, 87]`. */
  lemma JackpotSlice(draw: real)
    requires 0.0 <= draw < 100.0
    ensures Symbols[RandomSymbol(draw)].name == "Nintendo Switch" <==> 85.0 < draw <= 87.0
  {
    SymbolSlices(draw, 4);
    assert forall k :: 0 <= k < |Symbols| && k != 4 ==> Symbols[k].name != "Nintendo Switch";
  }

  /** What the machine shows. */
  datatype Machine = Machine(spinning: bool, reels: seq<nat>, result: Option<string>)

  /** `spin`: ignored without a user, a cached profile, a spin to spend, or while a
      spin is running; otherwise the draw picks a symbol, all three reels show it,
      the prize goes through the ledger, and the machine stops spinning whatever the
      ledger's outcome. */
  function Spin(st: AuthState, rows: seq<Profile>, m: Machine, draw: real, now: int,
                writeFails: bool, refreshFails: bool): (r: (AuthState, seq<Profile>, Machine, Status))
    requires 0.0 <= draw < 100.0
    ensures r.3 == Ignored <==>
              st.user.None? || st.profile.None? || SpinsOf(st.profile.value) < 1 || m.spinning
    ensures r.3 == Ignored ==> r.0 == st && r.1 == rows && r.2 == m
    ensures r.3 != Ignored ==>
              var k := RandomSymbol(draw);
              && r.2 == Machine(false, [k, k, k], Some(Symbols[k].name))
              && (r.0, r.1, r.3) == ApplyPrize(st, rows, false, Symbols[k], now, writeFails, refreshFails)
  {
    if st.user.None? || st.profile.None? || SpinsOf(st.profile.value) < 1 || m.spinning then
      (st, rows, m, Ignored)
    else
      var k := RandomSymbol(draw);
      var applied := ApplyPrize(st, rows, false, Symbols[k], now, writeFails, refreshFails);
      (applied.0, applied.1, Machine(false, [k, k, k], Some(Symbols[k].name)), applied.2)
  }

  /** A completed spin of the slot machine moves the stored spin balance by one —
      up for "Extra Spin" (draws in `(92, 100)`), down otherwise — and adds the
      symbol's points for a point symbol. */
  lemma SpinSettles(st: AuthState, rows: seq<Profile>, m: Machine, draw: real, now: int)
    requires UniqueIds(rows) && 0.0 <= draw < 100.0
    requires Spin(st, rows, m, draw, now, false, false).3 == Applied
    ensures var rows' := Spin(st, rows, m, draw, now, false, false).1;
            var snap := st.profile.value;
            var p' := Find(rows', st.user.value).value;
            && HasId(rows', st.user.value)
            && SpinsOf(p') == (if 92.0 < draw then SpinsOf(snap) + 1 else SpinsOf(snap) - 1)
            && PointsOf(p') == PointsOf(snap) + (if draw <= 75.0 then Symbols[RandomSymbol(draw)].points else 0)
  {
    var k := RandomSymbol(draw);
    AppliedPrizeBalances(st, rows, false, Symbols[k], now, false, false);
    PrizeMovesSpinsByOne(SpinsOf(st.profile.value), Symbols[k]);
    SymbolSlices(draw, 6);
    SymbolSlices(draw, 2);
    SymbolSlices(draw, k);
  }
}
