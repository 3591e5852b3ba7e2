/** The reward ledger: how a spin prize or a finished game becomes a write of
    absolute `points` / `spins` values to the signed-in user's profile, computed
    from the profile snapshot the context holds, followed by a refresh. */
module Ledger {
  import opened Wrappers
  import opened Store
  import opened Auth

  /** A prize of the slot machine or the rewards wheel. */
  datatype Prize = Prize(name: string, points: nat, special: bool)

  const ExtraSpin: string := "Extra Spin"

  /** What a prize does to the balances: points to add, spins to deduct, spins to add. */
  datatype Delta = Delta(points: nat, deduct: nat, add: nat)

  /** A point prize adds its points; a special prize adds none; every prize costs
      one spin except "Extra Spin", which costs none and adds one. */
  function PrizeDelta(p: Prize): (d: Delta)
    ensures d.points == (if p.special then 0 else p.points)
    ensures d.deduct + d.add == 1
    ensures d.add == 1 <==> p.special && p.name == ExtraSpin
  {
    if p.special then
      if p.name == ExtraSpin then Delta(0, 0, 1) else Delta(0, 1, 0)
    else Delta(p.points, 1, 0)
  }

  /** `Math.max(0, (spins || 0) - spinsToDeduct + spinsToAdd)`. */
  function ClampedSpins(spins: int, d: Delta): (n: int)
    ensures n >= 0
    ensures n >= spins - d.deduct + d.add
    ensures n == spins - d.deduct + d.add || n == 0
  {
    if spins - d.deduct + d.add > 0 then spins - d.deduct + d.add else 0
  }

  /** With at least one spin, a prize moves the spin balance by exactly one: up for
      "Extra Spin", down for everything else; points grow by the prize's points
      only for a point prize. */
  lemma PrizeMovesSpinsByOne(spins: int, p: Prize)
    requires spins >= 1
    ensures ClampedSpins(spins, PrizeDelta(p)) == (if p.special && p.name == ExtraSpin then spins + 1 else spins - 1)
  {
  }

  /** How a ledger call ended. */
  datatype Status =
    | Ignored                       // guard failed; nothing was written
    | WriteFailed                   // the update was rejected; nothing changed
    | RefreshFailed                 // the update happened, the re-read failed
    | Applied                       // the update happened and the cache was refreshed

  /** The write and refresh both spin components perform once a prize is known:
      guarded by a signed-in user, a cached profile, at least one spin and no spin
      in progress; writes `points + pointsToAdd` and the clamped spins computed from
      the cached snapshot, with `.single()` (so a missing row is an error). */
  function ApplyPrize(st: AuthState, rows: seq<Profile>, spinning: bool, prize: Prize, now: int,
                      writeFails: bool, refreshFails: bool): (r: (AuthState, seq<Profile>, Status))
    ensures (st.user.None? || st.profile.None? || SpinsOf(st.profile.value) < 1 || spinning)
              ==> r == (st, rows, Ignored)
    ensures r.2 == WriteFailed ==> r.0 == st && r.1 == rows
    ensures r.2 == RefreshFailed ==> r.0 == st
    ensures r.2 == Applied || r.2 == RefreshFailed ==>
              var snap := st.profile.value;
              var d := PrizeDelta(prize);
              && st.user.Some? && st.profile.Some? && HasId(rows, st.user.value)
              && r.1 == UpdateById(rows, st.user.value,
                          Patch(Some(PointsOf(snap) + d.points), Some(ClampedSpins(SpinsOf(snap), d)), now))
    ensures r.2 == Applied ==> r.0.user == st.user && r.0.profile.Some? && r.0.profile.value in r.1
  {
    if st.user.None? || st.profile.None? || SpinsOf(st.profile.value) < 1 || spinning then (st, rows, Ignored)
    else
      var uid := st.user.value;
      var snap := st.profile.value;
      var d := PrizeDelta(prize);
      if writeFails || !HasId(rows, uid) then (st, rows, WriteFailed)
      else
        var rows' := UpdateById(rows, uid, Patch(Some(PointsOf(snap) + d.points), Some(ClampedSpins(SpinsOf(snap), d)), now));
        var refreshed := RefreshProfile(st, rows', refreshFails);
        if refreshed.1.Err? then (st, rows', RefreshFailed)
        else (refreshed.0, rows', Applied)
  }

  /** A spin that was applied leaves the user's stored spins at
      `max(0, spins - deduct + add)` of the snapshot, never negative, and the stored
      points at snapshot points plus the prize's points; other profiles are untouched. */
  lemma AppliedPrizeBalances(st: AuthState, rows: seq<Profile>, spinning: bool, prize: Prize, now: int,
                             writeFails: bool, refreshFails: bool)
    requires UniqueIds(rows)
    requires ApplyPrize(st, rows, spinning, prize, now, writeFails, refreshFails).2 == Applied
    ensures var rows' := ApplyPrize(st, rows, spinning, prize, now, writeFails, refreshFails).1;
            var snap := st.profile.value;
            var p' := Find(rows', st.user.value);
            && p'.Some?
            && p'.value.spins == Some(ClampedSpins(SpinsOf(snap), PrizeDelta(prize)))
            && SpinsOf(p'.value) >= 0
            && p'.value.points == Some(PointsOf(snap) + PrizeDelta(prize).points)
            && (forall other :: other != st.user.value ==> Find(rows', other) == Find(rows, other))
  {
    var snap := st.profile.value;
    var d := PrizeDelta(prize);
    var patch := Patch(Some(PointsOf(snap) + d.points), Some(ClampedSpins(SpinsOf(snap), d)), now);
    var rows' := ApplyPrize(st, rows, spinning, prize, now, writeFails, refreshFails).1;
    assert rows' == UpdateById(rows, st.user.value, patch);
    PatchedBalances(rows, st.user.value, patch);
    assert Find(rows', st.user.value).value.spins == patch.spins;
  }

  /** After an update by id the row carries the patched balances and nothing else moved. */
  lemma PatchedBalances(rows: seq<Profile>, id: UserId, patch: Patch)
    requires UniqueIds(rows) && HasId(rows, id)
    ensures var p' := Find(UpdateById(rows, id, patch), id);
            && p'.Some?
            && p'.value.points == (if patch.points.Some? then patch.points else Find(rows, id).value.points)
            && p'.value.spins == (if patch.spins.Some? then patch.spins else Find(rows, id).value.spins)
            && (forall other :: other != id ==> Find(UpdateById(rows, id, patch), other) == Find(rows, other))
  {
    FindAfterUpdate(rows, id, patch, id);
    OthersUntouched(rows, id, patch);
  }

  // ---------------------------------------------------------------------------
  // End-of-game credit

  /** `Math.floor(score / divisor)`: the platform points a game score is worth. */
  function PointsEarned(score: int, divisor: nat): (e: int)
    requires divisor > 0
    ensures divisor * e <= score < divisor * (e + 1)
    ensures score >= 0 ==> e >= 0
  {
    score / divisor
  }

  /** A game's `endGame` write: with a signed-in user and a cached profile, write
      `points := (snapshot points or 0) + earned` by id (no `.single()`, so a missing
      row is silently skipped), then refresh. */
  function CreditPoints(st: AuthState, rows: seq<Profile>, earned: int, now: int, writeFails: bool, refreshFails: bool)
    : (r: (AuthState, seq<Profile>, Status))
    ensures st.user.None? || st.profile.None? ==> r == (st, rows, Ignored)
    ensures r.2 == WriteFailed ==> r.0 == st && r.1 == rows
    ensures r.2 == Applied || r.2 == RefreshFailed ==>
              r.1 == UpdateById(rows, st.user.value, Patch(Some(PointsOf(st.profile.value) + earned), None, now))
    ensures r.2 != Ignored ==> st.user.Some? && st.profile.Some?
  {
    if st.user.None? || st.profile.None? then (st, rows, Ignored)
    else if writeFails then (st, rows, WriteFailed)
    else
      var rows' := UpdateById(rows, st.user.value, Patch(Some(PointsOf(st.profile.value) + earned), None, now));
      var refreshed := RefreshProfile(st, rows', refreshFails);
      if refreshed.1.Err? then (st, rows', RefreshFailed) else (refreshed.0, rows', Applied)
  }

  /** A credited game leaves the user's stored points at snapshot points plus the
      earned points and the stored spins as they were. */
  lemma CreditPointsBalances(st: AuthState, rows: seq<Profile>, earned: int, now: int, writeFails: bool, refreshFails: bool)
    requires UniqueIds(rows) && st.user.Some? && HasId(rows, st.user.value)
    requires CreditPoints(st, rows, earned, now, writeFails, refreshFails).2 in {Applied, RefreshFailed}
    ensures var rows' := CreditPoints(st, rows, earned, now, writeFails, refreshFails).1;
            var before := Find(rows, st.user.value).value;
            var after := Find(rows', st.user.value).value;
            && HasId(rows', st.user.value)
            && PointsOf(after) == PointsOf(st.profile.value) + earned
            && after.spins == before.spins
            && (forall other :: other != st.user.value ==> Find(rows', other) == Find(rows, other))
  {
    PatchedBalances(rows, st.user.value, Patch(Some(PointsOf(st.profile.value) + earned), None, now));
  }

  /** The ledger writes absolute values computed from the cached snapshot, so two
      credits issued from the same snapshot keep only the second: the first credit
      is lost (the last-write-wins race of the reward ledger). */
  lemma StaleSnapshotLosesCredit(st: AuthState, rows: seq<Profile>, first: int, second: int, now1: int, now2: int)
    requires UniqueIds(rows) && st.user.Some? && st.profile.Some? && HasId(rows, st.user.value)
    ensures var rows1 := CreditPoints(st, rows, first, now1, false, true).1;
            var rows2 := CreditPoints(st, rows1, second, now2, false, true).1;
            PointsOf(Find(rows2, st.user.value).value) == PointsOf(st.profile.value) + second
  {
    var rows1 := CreditPoints(st, rows, first, now1, false, true).1;
    CreditPointsBalances(st, rows, first, now1, false, true);
    UpdateKeepsIds(rows, st.user.value, Patch(Some(PointsOf(st.profile.value) + first), None, now1));
    CreditPointsBalances(st, rows1, second, now2, false, true);
  }
}
