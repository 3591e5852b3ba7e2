/** Click Challenge: a 30-second game of clicking targets of four kinds, with a
    combo multiplier, a one-bomb shield, target expiry and level-ups. Targets'
    screen positions and the timers' periods are presentation and are not modelled;
    each timer firing is an explicit step. */
module ClickChallenge {
  import opened Store
  import opened Auth
  import opened Weighted
  import opened Ledger
  import opened Targets

  datatype Kind = Normal | Bonus | Bomb | Shield

  /** The kind table, in the order the draw walks it. */
  const Kinds: seq<Kind> := [Normal, Bonus, Bomb, Shield]
  const Chances: seq<nat> := [60, 25, 10, 5]

  /** The points a target of each kind carries. */
  function KindPoints(k: Kind): int {
    match k
    case Normal => 10
    case Bonus => 25
    case Bomb => -15
    case Shield => 5
  }

  datatype Target = Target(id: string, kind: Kind, points: int, timeLeft: int)

  datatype Game = Game(
    started: bool, over: bool, score: int, timeLeft: int,
    targets: seq<Target>, combo: nat, shield: bool, level: int)

  /** `getRandomTargetType`, given `Math.random() * 100`. */
  function RandomKind(draw: real): (k: Kind)
    requires 0.0 <= draw < 100.0
    ensures k == Bomb <==> 85.0 < draw <= 95.0
    ensures k == Shield <==> 95.0 < draw
    ensures k == Normal <==> draw <= 60.0
  {
    assert Prefix(Chances, 1) == 60 && Prefix(Chances, 2) == 85;
    assert Prefix(Chances, 3) == 95 && Prefix(Chances, 4) == 100;
    NoFallbackWithinTotal(Chances, draw);
    SelectedIffInSlice(Chances, draw, 0);
    SelectedIffInSlice(Chances, draw, 2);
    SelectedIffInSlice(Chances, draw, 3);
    Kinds[Select(Chances, draw)]
  }

  /** A freshly spawned target: a bonus target lives two ticks, the others three. */
  function NewTarget(id: string, kind: Kind): (t: Target)
    ensures t.id == id && t.kind == kind && t.points == KindPoints(kind)
    ensures 2 <= t.timeLeft <= 3 && (t.timeLeft == 2 <==> kind == Bonus)
  {
    Target(id, kind, KindPoints(kind), if kind == Bonus then 2 else 3)
  }

  /** What every state of a game keeps: a non-negative score and clock, a level of
      at least 1, and targets that carry their kind's points and a live timer. */
  predicate WellFormed(g: Game) {
    && g.score >= 0 && g.timeLeft >= 0 && g.level >= 1
    && forall i :: 0 <= i < |g.targets| ==>
         g.targets[i].points == KindPoints(g.targets[i].kind) && 1 <= g.targets[i].timeLeft <= 3
  }

  /** A target's id, as the removal by id reads it. */
  function TargetId(t: Target): string {
    t.id
  }

  /** `startGame`: a fresh 30-second game at level 1 with one target spawned. */
  function Start(id: string, draw: real): (g: Game)
    requires 0.0 <= draw < 100.0
    ensures WellFormed(g) && g.started && !g.over && g.score == 0 && g.timeLeft == 30
    ensures |g.targets| == 1 && g.level == 1 && g.combo == 0 && !g.shield
  {
    Game(true, false, 0, 30, [NewTarget(id, RandomKind(draw))], 0, false, 1)
  }

  /** `clickTarget`: a bomb without a shield costs 15 points (never below zero) and
      the combo; a bomb with a shield only uses the shield up; a shield target arms
      the shield and adds its points; any other target adds its points times
      `combo / 5 + 1` and extends the combo. The clicked target is removed. */
  function Click(g: Game, t: Target): (g': Game)
    ensures g'.targets == Without(g.targets, t.id, TargetId)
    ensures g'.started == g.started && g'.over == g.over && g'.timeLeft == g.timeLeft && g'.level == g.level
    ensures t.kind == Bomb && !g.shield ==>
              g'.score == (if g.score + t.points > 0 then g.score + t.points else 0) && g'.combo == 0 && !g'.shield
    ensures t.kind == Bomb && g.shield ==> g'.score == g.score && g'.combo == g.combo && !g'.shield
    ensures t.kind == Shield ==> g'.score == g.score + t.points && g'.combo == g.combo && g'.shield
    ensures t.kind in {Normal, Bonus} ==>
              g'.score == g.score + t.points * (g.combo / 5 + 1) && g'.combo == g.combo + 1 && g'.shield == g.shield
  {
    var rest := Without(g.targets, t.id, TargetId);
    match t.kind
    case Bomb =>
      if !g.shield then
        g.(score := if g.score + t.points > 0 then g.score + t.points else 0, combo := 0, targets := rest)
      else g.(shield := false, targets := rest)
    case Shield => g.(shield := true, score := g.score + t.points, targets := rest)
    case _ => g.(score := g.score + t.points * (g.combo / 5 + 1), combo := g.combo + 1, targets := rest)
  }

  /** Clicking one of the game's own targets keeps the game well formed; in
      particular the score never goes negative. */
  lemma ClickKeepsWellFormed(g: Game, i: nat)
    requires WellFormed(g) && i < |g.targets|
    ensures WellFormed(Click(g, g.targets[i]))
  {
    var t := g.targets[i];
    var g' := Click(g, t);
    forall j | 0 <= j < |g'.targets|
      ensures g'.targets[j].points == KindPoints(g'.targets[j].kind) && 1 <= g'.targets[j].timeLeft <= 3
    {
      assert g'.targets[j] in g.targets;
    }
  }

  /** A normal target clicked with a combo of five to nine, that is as the sixth to
      tenth hit in a row, is worth double. */
  lemma ComboDoublesAfterFive(g: Game, t: Target)
    requires t.kind == Normal && t.points == 10 && 5 <= g.combo < 10
    ensures Click(g, t).score == g.score + 20
  {
  }

  /** The one-second game clock: at one second or less the game ends at zero. */
  function ClockTick(g: Game): (g': Game)
    ensures g'.targets == g.targets && g'.score == g.score && g'.level == g.level
    ensures g.started && !g.over && g.timeLeft <= 1 ==> g'.over && g'.timeLeft == 0
    ensures g.started && !g.over && g.timeLeft > 1 ==> !g'.over && g'.timeLeft == g.timeLeft - 1
    ensures !g.started || g.over ==> g' == g
  {
    if !g.started || g.over then g
    else if g.timeLeft <= 1 then g.(over := true, timeLeft := 0)
    else g.(timeLeft := g.timeLeft - 1)
  }

  /** `n` clock ticks in a row. */
  function ClockTicks(g: Game, n: nat): Game
    decreases n
  {
    if n == 0 then g else ClockTicks(ClockTick(g), n - 1)
  }

  /** Without level-up bonuses, a game with `T` seconds left is still running after
      fewer than `T` ticks and is over after exactly `T`. */
  lemma {:induction false} GameLastsItsClock(g: Game, n: nat)
    requires g.started && !g.over && g.timeLeft >= 1
    ensures n < g.timeLeft ==> !ClockTicks(g, n).over && ClockTicks(g, n).timeLeft == g.timeLeft - n
    ensures n >= g.timeLeft ==> ClockTicks(g, n).over && ClockTicks(g, n).timeLeft == 0
    decreases n
  {
    if n > 0 {
      var g1 := ClockTick(g);
      if g.timeLeft > 1 {
        GameLastsItsClock(g1, n - 1);
      } else {
        OverStaysOver(g1, n - 1);
      }
    }
  }

  /** Once over, the clock no longer moves. */
  lemma {:induction false} OverStaysOver(g: Game, n: nat)
    requires g.over
    ensures ClockTicks(g, n) == g
  {
    if n > 0 {
      OverStaysOver(ClockTick(g), n - 1);
    }
  }

  /** A target with one second less to live. */
  function Older(t: Target): Target {
    t.(timeLeft := t.timeLeft - 1)
  }

  /** The targets that survive a target tick, in their order and one second older
      each: the targets with more than one second left, and only those. */
  function Survivors(ts: seq<Target>): (r: seq<Target>)
    ensures |r| <= |ts|
    ensures forall u :: u in r ==> exists t :: t in ts && t.timeLeft > 1 && u == Older(t)
    ensures forall t :: t in ts && t.timeLeft > 1 ==> Older(t) in r
    ensures (forall t :: t in ts ==> t.timeLeft > 1) ==> |r| == |ts|
  {
    if |ts| == 0 then []
    else
      var tail := Survivors(ts[1..]);
      assert forall t :: t in ts ==> t == ts[0] || t in ts[1..];
      assert forall t :: t in ts[1..] ==> t in ts;
      if ts[0].timeLeft <= 1 then tail
      else [Older(ts[0])] + tail
  }

  /** One target on its own: it survives, one second older, exactly when it had
      more than one second left. */
  lemma SurvivorsSingle(t: Target)
    ensures Survivors([t]) == (if t.timeLeft > 1 then [Older(t)] else [])
  {
  }

  /** The tick treats every target on its own: the survivors of a list are the
      survivors of its front followed by those of its back, so the order on screen
      is kept. With `SurvivorsSingle` this determines the tick completely. */
  lemma {:induction false} SurvivorsAppend(a: seq<Target>, b: seq<Target>)
    ensures Survivors(a + b) == Survivors(a) + Survivors(b)
    decreases |a|
  {
    if |a| > 0 {
      assert (a + b)[1..] == a[1..] + b;
      assert (a + b)[0] == a[0];
      SurvivorsAppend(a[1..], b);
    } else {
      assert a + b == b;
    }
  }

  /** Some target expiring this tick is not a bomb: a missed target. */
  predicate MissesTarget(ts: seq<Target>) {
    exists i :: 0 <= i < |ts| && ts[i].timeLeft <= 1 && ts[i].kind != Bomb
  }

  /** The one-second target timer: expired targets vanish, a missed non-bomb target
      resets the combo, and the rest count down. */
  function TargetTick(g: Game): (g': Game)
    ensures g.started && !g.over ==> g'.targets == Survivors(g.targets)
    ensures !g.started || g.over ==> g' == g
    ensures g'.score == g.score && g'.timeLeft == g.timeLeft && g'.level == g.level && g'.shield == g.shield
    ensures g'.combo == (if g.started && !g.over && MissesTarget(g.targets) then 0 else g.combo)
  {
    if !g.started || g.over then g
    else g.(targets := Survivors(g.targets), combo := if MissesTarget(g.targets) then 0 else g.combo)
  }

  /** While the game runs, the expiry tick keeps exactly the targets that had more
      than one second left, one second older, and brings in none of its own. */
  lemma TargetTickKeepsLive(g: Game)
    requires g.started && !g.over
    ensures forall t :: t in g.targets ==> (Older(t) in TargetTick(g).targets <==> t.timeLeft > 1)
    ensures forall u :: u in TargetTick(g).targets ==> exists t :: t in g.targets && t.timeLeft > 1 && u == Older(t)
  {
  }

  lemma TargetTickKeepsWellFormed(g: Game)
    requires WellFormed(g)
    ensures WellFormed(TargetTick(g))
  {
    var r := TargetTick(g).targets;
    forall i | 0 <= i < |r|
      ensures r[i].points == KindPoints(r[i].kind) && 1 <= r[i].timeLeft <= 3
    {
      if g.started && !g.over {
        assert r[i] in r;
        var t :| t in g.targets && t.timeLeft > 1 && r[i] == Older(t);
      }
    }
  }

  /** A bonus target disappears on the second target tick; any other kind lives
      through two ticks and disappears on the third. */
  lemma TargetLifetimes(id: string, kind: Kind)
    ensures var one := Survivors([NewTarget(id, kind)]);
            var two := Survivors(one);
            && |one| == 1
            && (kind == Bonus <==> two == [])
            && Survivors(two) == []
  {
    var t := NewTarget(id, kind);
    var one := Survivors([t]);
    assert one == [t.(timeLeft := t.timeLeft - 1)];
    var two := Survivors(one);
    if kind == Bonus {
      assert two == [];
    } else {
      assert two == [t.(timeLeft := 1)];
    }
  }

  /** The spawn timer: a new target while fewer than `level + 2` are on screen. */
  function SpawnTick(g: Game, id: string, draw: real): (g': Game)
    requires 0.0 <= draw < 100.0
    ensures g.started && !g.over && |g.targets| < g.level + 2 ==> g'.targets == g.targets + [NewTarget(id, RandomKind(draw))]
    ensures !(g.started && !g.over && |g.targets| < g.level + 2) ==> g' == g
    ensures g'.score == g.score && g'.combo == g.combo && g'.level == g.level
  {
    if g.started && !g.over && |g.targets| < g.level + 2 then g.(targets := g.targets + [NewTarget(id, RandomKind(draw))])
    else g
  }

  lemma SpawnKeepsWellFormed(g: Game, id: string, draw: real)
    requires WellFormed(g) && 0.0 <= draw < 100.0
    ensures WellFormed(SpawnTick(g, id, draw))
    ensures |SpawnTick(g, id, draw).targets| <= (if |g.targets| < g.level + 2 then g.level + 2 else |g.targets|)
  {
  }

  /** The level effect: every 100 points is a level, and each level gained adds
      five seconds to the clock. */
  function LevelCheck(g: Game): (g': Game)
    ensures g'.level >= g.score / 100 + 1 && g'.level >= g.level
    ensures g'.level == g.level || g'.level == g.score / 100 + 1
    ensures g'.timeLeft == g.timeLeft + (if g'.level > g.level then 5 else 0)
    ensures g'.score == g.score && g'.targets == g.targets && g'.combo == g.combo
  {
    var newLevel := g.score / 100 + 1;
    if newLevel > g.level then g.(level := newLevel, timeLeft := g.timeLeft + 5) else g
  }

  /** The level effect runs again once the level it set is rendered; that second
      run changes nothing, so a level-up grants its five seconds once. */
  lemma LevelCheckSettles(g: Game)
    ensures LevelCheck(LevelCheck(g)) == LevelCheck(g)
  {
  }

  lemma LevelCheckKeepsWellFormed(g: Game)
    requires WellFormed(g)
    ensures WellFormed(LevelCheck(g))
  {
  }

  /** The end-of-game effect: once the game is over with a positive score, credit
      `floor(score / 10)` points through the ledger. */
  function End(st: AuthState, rows: seq<Profile>, g: Game, now: int, writeFails: bool, refreshFails: bool)
    : (r: (AuthState, seq<Profile>, Status))
    ensures !(g.over && g.score > 0) ==> r == (st, rows, Ignored)
    ensures g.over && g.score > 0 ==> r == CreditPoints(st, rows, PointsEarned(g.score, 10), now, writeFails, refreshFails)
  {
    if g.over && g.score > 0 then CreditPoints(st, rows, PointsEarned(g.score, 10), now, writeFails, refreshFails)
    else (st, rows, Ignored)
  }

  /** A finished game that scored pays one platform point per ten game points,
      rounded down, and nothing else moves. */
  lemma EndPaysTenth(st: AuthState, rows: seq<Profile>, g: Game, now: int)
    requires UniqueIds(rows) && st.user.Some? && st.profile.Some? && HasId(rows, st.user.value)
    requires g.over && g.score > 0
    ensures var rows' := End(st, rows, g, now, false, false).1;
            var earned := PointsOf(Find(rows', st.user.value).value) - PointsOf(st.profile.value);
            && 10 * earned <= g.score < 10 * (earned + 1)
            && Find(rows', st.user.value).value.spins == Find(rows, st.user.value).value.spins
  {
    CreditPointsBalances(st, rows, PointsEarned(g.score, 10), now, false, false);
  }
}
