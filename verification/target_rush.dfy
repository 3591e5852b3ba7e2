/** Target Rush: a 60-second game of hitting targets that enter from the edges of
    the arena and fly across it, with a streak bonus. Positions are exact reals;
    each timer firing is an explicit step. */
module TargetRush {
  import opened Store
  import opened Auth
  import opened Weighted
  import opened Shuffle
  import opened Ledger
  import opened Targets

  datatype Colour = Red | Blue | Yellow | Green

  /** The colour table, in the order the draw walks it. */
  const Colours: seq<Colour> := [Red, Blue, Yellow, Green]
  const Chances: seq<nat> := [40, 30, 20, 10]

  function ColourPoints(c: Colour): nat {
    match c
    case Red => 10
    case Blue => 15
    case Yellow => 25
    case Green => 50
  }

  function ColourSpeed(c: Colour): real {
    match c
    case Red => 2.0
    case Blue => 3.0
    case Yellow => 4.0
    case Green => 5.0
  }

  datatype Target = Target(id: string, colour: Colour, points: nat, speed: real, x: real, y: real, dx: real, dy: real)

  datatype Game = Game(
    started: bool, over: bool, score: int, timeLeft: int, targets: seq<Target>,
    hits: nat, streak: nat, maxStreak: nat)

  /** The draws one spawn consumes, each a `Math.random()` value. */
  datatype SpawnDraws = SpawnDraws(colour: real, edge: real, along: real, slant: real)

  predicate ValidDraws(d: SpawnDraws) {
    0.0 <= d.colour < 1.0 && 0.0 <= d.edge < 1.0 && 0.0 <= d.along < 1.0 && 0.0 <= d.slant < 1.0
  }

  /** `getRandomTargetType`, given `Math.random() * 100`: red up to 40, blue up to
      70, yellow up to 90, and green, worth the most, for the top tenth only. */
  function RandomColour(draw: real): (c: Colour)
    requires 0.0 <= draw < 100.0
    ensures c == Red <==> draw <= 40.0
    ensures c == Blue <==> 40.0 < draw <= 70.0
    ensures c == Yellow <==> 70.0 < draw <= 90.0
    ensures c == Green <==> 90.0 < draw
  {
    assert Prefix(Chances, 1) == 40 && Prefix(Chances, 2) == 70;
    assert Prefix(Chances, 3) == 90 && Prefix(Chances, 4) == 100;
    NoFallbackWithinTotal(Chances, draw);
    SelectedIffInSlice(Chances, draw, 0);
    SelectedIffInSlice(Chances, draw, 1);
    SelectedIffInSlice(Chances, draw, 2);
    SelectedIffInSlice(Chances, draw, 3);
    Colours[Select(Chances, draw)]
  }

  /** The open square targets may occupy; a target leaving it is gone. */
  predicate InArena(t: Target) {
    -10.0 < t.x < 110.0 && -10.0 < t.y < 110.0
  }

  /** `spawnTarget`: a target of a random colour entering from a random edge (top,
      right, bottom, left), placed along that edge and heading inwards with a random
      slant in `[-1, 1)`. */
  function NewTarget(id: string, d: SpawnDraws): (t: Target)
    requires ValidDraws(d)
    ensures InArena(t)
    ensures t.points == ColourPoints(t.colour) && t.speed == ColourSpeed(t.colour)
    ensures -1.0 <= t.dx <= 1.0 && -1.0 <= t.dy <= 1.0
  {
    var c := RandomColour(d.colour * 100.0);
    var along := d.along * 100.0;
    var slant := (d.slant - 0.5) * 2.0;
    match DrawIndex(d.edge, 3)
    case 0 => Target(id, c, ColourPoints(c), ColourSpeed(c), along, -5.0, slant, 1.0)
    case 1 => Target(id, c, ColourPoints(c), ColourSpeed(c), 105.0, along, -1.0, slant)
    case 2 => Target(id, c, ColourPoints(c), ColourSpeed(c), along, 105.0, slant, -1.0)
    case _ => Target(id, c, ColourPoints(c), ColourSpeed(c), -5.0, along, 1.0, slant)
  }

  /** What every state of a game keeps: no more than eight targets, all inside the
      arena and carrying their colour's points; a streak no longer than the best
      streak, which is no longer than the number of hits; and at least ten points
      scored per hit. */
  predicate WellFormed(g: Game) {
    && |g.targets| <= 8
    && (forall i :: 0 <= i < |g.targets| ==> InArena(g.targets[i]) && g.targets[i].points == ColourPoints(g.targets[i].colour))
    && g.streak <= g.maxStreak <= g.hits
    && g.score >= 10 * g.hits
    && g.timeLeft >= 0
  }

  /** A target's id, as the removal by id reads it. */
  function TargetId(t: Target): string {
    t.id
  }

  /** `startGame`: a fresh 60-second game with one target spawned. */
  function Start(id: string, d: SpawnDraws): (g: Game)
    requires ValidDraws(d)
    ensures WellFormed(g) && g.started && !g.over && g.timeLeft == 60 && |g.targets| == 1
  {
    Game(true, false, 0, 60, [NewTarget(id, d)], 0, 0, 0)
  }

  /** `hitTarget`: the target's points plus five for every completed five-hit
      streak, one more hit, a longer streak (and best streak), and the target gone. */
  function Hit(g: Game, t: Target): (g': Game)
    ensures g'.score == g.score + t.points + (g.streak / 5) * 5
    ensures g'.hits == g.hits + 1 && g'.streak == g.streak + 1
    ensures g'.maxStreak == (if g.maxStreak >= g.streak + 1 then g.maxStreak else g.streak + 1)
    ensures g'.targets == Without(g.targets, t.id, TargetId)
    ensures g'.timeLeft == g.timeLeft && g'.over == g.over
  {
    var newStreak := g.streak + 1;
    g.(score := g.score + t.points + (g.streak / 5) * 5,
       hits := g.hits + 1,
       streak := newStreak,
       maxStreak := if g.maxStreak >= newStreak then g.maxStreak else newStreak,
       targets := Without(g.targets, t.id, TargetId))
  }

  lemma HitKeepsWellFormed(g: Game, i: nat)
    requires WellFormed(g) && i < |g.targets|
    ensures WellFormed(Hit(g, g.targets[i]))
  {
    var g' := Hit(g, g.targets[i]);
    forall j | 0 <= j < |g'.targets|
      ensures InArena(g'.targets[j]) && g'.targets[j].points == ColourPoints(g'.targets[j].colour)
    {
      assert g'.targets[j] in g.targets;
    }
  }

  /** `missedClick`: a click on the empty arena breaks the streak and nothing else. */
  function Miss(g: Game): (g': Game)
    ensures g'.streak == 0
    ensures g' == g.(streak := 0)
  {
    if g.streak > 0 then g.(streak := 0) else g
  }

  lemma MissKeepsWellFormed(g: Game)
    requires WellFormed(g)
    ensures WellFormed(Miss(g))
  {
  }

  /** The one-second game clock: at one second or less the game ends at zero. */
  function ClockTick(g: Game): (g': Game)
    ensures g'.targets == g.targets && g'.score == g.score && g'.hits == g.hits
    ensures g.started && !g.over && g.timeLeft <= 1 ==> g'.over && g'.timeLeft == 0
    ensures g.started && !g.over && g.timeLeft > 1 ==> !g'.over && g'.timeLeft == g.timeLeft - 1
    ensures !g.started || g.over ==> g' == g
  {
    if !g.started || g.over then g
    else if g.timeLeft <= 1 then g.(over := true, timeLeft := 0)
    else g.(timeLeft := g.timeLeft - 1)
  }

  /** One step of flight: each target moves by its heading times its speed. */
  function Step(t: Target): (r: Target)
    ensures r.x - t.x == t.dx * t.speed && r.y - t.y == t.dy * t.speed
    ensures r.(x := t.x, y := t.y) == t
  {
    t.(x := t.x + t.dx * t.speed, y := t.y + t.dy * t.speed)
  }

  /** Move every target, then keep those still inside the arena, in order. */
  function Fly(ts: seq<Target>): (r: seq<Target>)
    ensures |r| <= |ts|
    ensures forall i :: 0 <= i < |r| ==> InArena(r[i])
    ensures forall t :: t in r <==> exists i :: 0 <= i < |ts| && t == Step(ts[i]) && InArena(t)
  {
    if |ts| == 0 then []
    else
      var tail := Fly(ts[1..]);
      assert forall t :: (exists i :: 0 <= i < |ts[1..]| && t == Step(ts[1..][i]) && InArena(t)) <==>
                         (exists i :: 1 <= i < |ts| && t == Step(ts[i]) && InArena(t)) by {
        forall t | exists i :: 1 <= i < |ts| && t == Step(ts[i]) && InArena(t)
          ensures exists i :: 0 <= i < |ts[1..]| && t == Step(ts[1..][i]) && InArena(t)
        {
          var i :| 1 <= i < |ts| && t == Step(ts[i]) && InArena(t);
          assert ts[1..][i - 1] == ts[i];
        }
      }
      if InArena(Step(ts[0])) then [Step(ts[0])] + tail else tail
  }

  /** The 50-millisecond movement timer. */
  function MoveTick(g: Game): (g': Game)
    ensures g'.score == g.score && g'.hits == g.hits && g'.streak == g.streak && g'.timeLeft == g.timeLeft
    ensures g.started && !g.over ==> g'.targets == Fly(g.targets)
  {
    if !g.started || g.over then g else g.(targets := Fly(g.targets))
  }

  lemma MoveKeepsWellFormed(g: Game)
    requires WellFormed(g)
    ensures WellFormed(MoveTick(g))
  {
    if g.started && !g.over {
      var r := Fly(g.targets);
      forall j | 0 <= j < |r|
        ensures r[j].points == ColourPoints(r[j].colour)
      {
        assert r[j] in r;
        var i :| 0 <= i < |g.targets| && r[j] == Step(g.targets[i]) && InArena(r[j]);
      }
    }
  }

  /** The one-second spawn timer: a new target while fewer than eight are on screen. */
  function SpawnTick(g: Game, id: string, d: SpawnDraws): (g': Game)
    requires ValidDraws(d)
    ensures g.started && !g.over && |g.targets| < 8 ==> g'.targets == g.targets + [NewTarget(id, d)]
    ensures !(g.started && !g.over && |g.targets| < 8) ==> g' == g
    ensures g'.score == g.score && g'.hits == g.hits && g'.streak == g.streak
  {
    if g.started && !g.over && |g.targets| < 8 then g.(targets := g.targets + [NewTarget(id, d)]) else g
  }

  lemma SpawnKeepsWellFormed(g: Game, id: string, d: SpawnDraws)
    requires WellFormed(g) && ValidDraws(d)
    ensures WellFormed(SpawnTick(g, id, d))
  {
  }

  /** The end-of-game effect: once the game is over with a positive score, credit
      `floor(score / 5)` points through the ledger. */
  function End(st: AuthState, rows: seq<Profile>, g: Game, now: int, writeFails: bool, refreshFails: bool)
    : (r: (AuthState, seq<Profile>, Status))
    ensures !(g.over && g.score > 0) ==> r == (st, rows, Ignored)
    ensures g.over && g.score > 0 ==> r == CreditPoints(st, rows, PointsEarned(g.score, 5), now, writeFails, refreshFails)
  {
    if g.over && g.score > 0 then CreditPoints(st, rows, PointsEarned(g.score, 5), now, writeFails, refreshFails)
    else (st, rows, Ignored)
  }

  /** A well-formed finished game with at least one hit pays at least two platform
      points per hit: each hit is worth ten game points or more, and five game
      points make a platform point. */
  lemma EndPaysPerHit(st: AuthState, rows: seq<Profile>, g: Game, now: int)
    requires UniqueIds(rows) && st.user.Some? && st.profile.Some? && HasId(rows, st.user.value)
    requires WellFormed(g) && g.over && g.hits > 0
    ensures var rows' := End(st, rows, g, now, false, false).1;
            PointsOf(Find(rows', st.user.value).value) >= PointsOf(st.profile.value) + 2 * g.hits
  {
    CreditPointsBalances(st, rows, PointsEarned(g.score, 5), now, false, false);
  }
}
