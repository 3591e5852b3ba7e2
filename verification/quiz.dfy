/** The daily gaming quiz: eight questions a day, chosen from a pool of twenty
    by a shuffle seeded with the date, fifteen seconds per question, playable
    once a day per browser, and half the score credited at the end. Question and
    option texts are presentation and are not modelled; `Math.sin` is an oracle. */
module Quiz {
  import opened Wrappers
  import opened Store
  import opened Auth
  import opened Shuffle
  import opened Ledger

  /** A question: its id, the index of the correct option and its points. */
  datatype Question = Question(id: nat, correct: int, points: nat)

  /** The index of each question's correct option, by id. */
  const Answers: seq<int> := [1, 3, 0, 2, 1, 1, 1, 3, 2, 1, 1, 1, 1, 0, 2, 1, 0, 1, 0, 1]

  /** Each question's points, by id. */
  const Points: seq<nat> := [10, 15, 20, 10, 15, 10, 25, 15, 20, 10, 15, 20, 15, 10, 15, 10, 20, 10, 25, 15]

  /** The pool of twenty questions. */
  const Pool: seq<Question> := FirstQuestions(20)

  /** Questions 1 to `n`, question `k + 1` at index `k`. */
  function FirstQuestions(n: nat): (qs: seq<Question>)
    requires n <= |Answers| && n <= |Points|
    ensures |qs| == n
    ensures forall k :: 0 <= k < n ==> qs[k] == Question(k + 1, Answers[k], Points[k])
  {
    if n == 0 then [] else FirstQuestions(n - 1) + [Question(n, Answers[n - 1], Points[n - 1])]
  }

  /** Questions per day. */
  const DailyCount: nat := 8

  /** Seconds per question. */
  const QuestionTime: int := 15

  /** The pool's ids are 1 to 20, one each, and every question is worth 10 to 25. */
  lemma PoolShape()
    ensures |Pool| == 20 && Distinct(Pool)
    ensures forall k :: 0 <= k < |Pool| ==> Pool[k].id == k + 1
    ensures forall q :: q in Pool ==> 10 <= q.points <= 25 && 0 <= q.correct < 4
  {
    assert forall k :: 0 <= k < |Points| ==> 10 <= Points[k] <= 25;
    assert forall k :: 0 <= k < |Answers| ==> 0 <= Answers[k] < 4;
  }

  /** The date seed: `year * 10000 + month * 100 + day` with the month counted from 1. */
  function DateSeed(year: int, month: int, day: int): (seed: int)
    ensures ValidDate(month, day) ==> seed / 10000 == year && seed % 10000 == month * 100 + day
  {
    year * 10000 + month * 100 + day
  }

  /** A calendar date as `Date` reports it. */
  predicate ValidDate(month: int, day: int) {
    1 <= month <= 12 && 1 <= day <= 31
  }

  /** Different dates give different seeds: the seed packs year, month and day
      into separate decimal fields. */
  lemma DateSeedInjective(y1: int, m1: int, d1: int, y2: int, m2: int, d2: int)
    requires ValidDate(m1, d1) && ValidDate(m2, d2)
    requires DateSeed(y1, m1, d1) == DateSeed(y2, m2, d2)
    ensures y1 == y2 && m1 == m2 && d1 == d2
  {
    var low1, low2 := m1 * 100 + d1, m2 * 100 + d2;
    assert 101 <= low1 <= 1231 && 101 <= low2 <= 1231;
    assert (y1 - y2) * 10000 == low2 - low1;
    assert y1 == y2;
    assert (m1 - m2) * 100 == d2 - d1;
  }

  /** JavaScript's `%`: the remainder takes the sign of the dividend. */
  function JsRem(a: int, b: int): (r: int)
    requires b > 0
    ensures a >= 0 ==> 0 <= r < b && r == a % b
    ensures a < 0 ==> -b < r <= 0 && r == -((-a) % b)
  {
    if a >= 0 then a % b else -((-a) % b)
  }

  /** One step of the seed generator: `(s * 9301 + 49297) % 233280`. */
  function Lcg(s: int): (t: int)
    ensures s >= 0 ==> 0 <= t < 233280
  {
    JsRem(s * 9301 + 49297, 233280)
  }

  /** The seed after `k` generator steps. */
  function SeedAt(seed: int, k: nat): (s: int)
    ensures seed >= 0 ==> s >= 0
    ensures k > 0 && seed >= 0 ==> s < 233280
  {
    if k == 0 then seed else Lcg(SeedAt(seed, k - 1))
  }

  /** `random(seed)`, the fractional part of `Math.sin(seed) * 10000`, given as
      an oracle with values in `[0, 1)`. */
  ghost predicate FracOracle(frac: int -> real) {
    forall x :: 0.0 <= frac(x) < 1.0
  }

  /** The draws of the daily shuffle: the `k`-th uses the seed after `k + 1` steps. */
  function QuizDraws(seed: int, frac: int -> real, n: nat): (d: seq<real>)
    requires FracOracle(frac)
    ensures |d| == n && UnitDraws(d)
    ensures forall k :: 0 <= k < n ==> d[k] == frac(SeedAt(seed, k + 1))
  {
    seq(n, k requires 0 <= k < n => frac(SeedAt(seed, k + 1)))
  }

  /** `getDailyQuestions`: shuffle the whole pool with the date's draws (the last
      step swaps index 0 with itself) and keep the first eight. */
  function DailyQuestions(year: int, month: int, day: int, frac: int -> real): (qs: seq<Question>)
    requires FracOracle(frac)
    ensures |qs| == DailyCount && Distinct(qs)
    ensures forall q :: q in qs ==> q in Pool && 10 <= q.points
  {
    var all := Sweep(Pool, QuizDraws(DateSeed(year, month, day), frac, |Pool|));
    PoolShape();
    PermutationKeepsDistinct(all, Pool, DailyCount);
    assert forall q :: q in all[..DailyCount] ==> q in multiset(all);
    all[..DailyCount]
  }

  /** The daily set depends on the date only through its seed: two dates with the
      same seed get the same questions in the same order. */
  lemma SameSeedSameQuestions(y1: int, m1: int, d1: int, y2: int, m2: int, d2: int, frac: int -> real)
    requires FracOracle(frac)
    requires DateSeed(y1, m1, d1) == DateSeed(y2, m2, d2)
    ensures DailyQuestions(y1, m1, d1, frac) == DailyQuestions(y2, m2, d2, frac)
  {
  }

  /** The browser's local storage. */
  type Storage = map<string, string>

  /** `quiz_last_played_${user?.id}`: without a user the key ends in "undefined". */
  function PlayedKey(user: Option<UserId>): string {
    "quiz_last_played_" + (if user.Some? then user.value else "undefined")
  }

  /** Different signed-in users have different storage keys. */
  lemma PlayedKeysDistinct(u: UserId, v: UserId)
    requires u != v
    ensures PlayedKey(Some(u)) != PlayedKey(Some(v))
  {
    var k := |"quiz_last_played_"|;
    assert PlayedKey(Some(u))[k..] == u;
    assert PlayedKey(Some(v))[k..] == v;
  }

  /** `checkCanPlayToday`: allowed unless today's date string is stored. */
  predicate CanPlayToday(storage: Storage, user: Option<UserId>, today: string) {
    !(PlayedKey(user) in storage && storage[PlayedKey(user)] == today)
  }

  datatype Game = Game(
    started: bool, over: bool, questions: seq<Question>, current: nat, score: int,
    timeLeft: int, selected: Option<int>, showResult: bool, correctCount: nat, canPlay: bool)

  /** What every state of a quiz keeps: eight questions of at least ten points
      each, a current one among them, at least ten points scored per correct
      answer, and no more correct answers than questions answered. */
  predicate WellFormed(g: Game) {
    && |g.questions| == DailyCount && g.current < |g.questions|
    && (forall q :: q in g.questions ==> 10 <= q.points)
    && g.score >= 10 * g.correctCount && g.timeLeft >= 0
    && g.correctCount <= g.current + (if g.selected.Some? then 1 else 0)
  }

  /** The component opened by a signed-in user: whether today is still playable,
      and today's questions, which are loaded only when it is. Otherwise the list
      stays empty, and `startGame` refuses before it is read. */
  function Open(storage: Storage, user: UserId, today: string, year: int, month: int, day: int, frac: int -> real)
    : (g: Game)
    requires FracOracle(frac)
    ensures !g.started && !g.over && g.score == 0
    ensures g.canPlay == CanPlayToday(storage, Some(user), today)
    ensures g.canPlay ==> WellFormed(g) && g.questions == DailyQuestions(year, month, day, frac)
    ensures !g.canPlay ==> g.questions == [] && Start(g) == g
  {
    var canPlay := CanPlayToday(storage, Some(user), today);
    var questions := if canPlay then DailyQuestions(year, month, day, frac) else [];
    Game(false, false, questions, 0, 0, QuestionTime, None, false, 0, canPlay)
  }

  /** `startGame`: refused when today has been played; otherwise a fresh quiz. */
  function Start(g: Game): (g': Game)
    ensures !g.canPlay ==> g' == g
    ensures g.canPlay ==> g'.started && !g'.over && g'.current == 0 && g'.score == 0
                          && g'.timeLeft == QuestionTime && g'.selected.None? && g'.questions == g.questions
  {
    if !g.canPlay then g
    else g.(started := true, over := false, current := 0, score := 0, correctCount := 0,
            timeLeft := QuestionTime, selected := None, showResult := false)
  }

  /** `handleAnswer`: ignored once an answer is selected; otherwise the answer is
      recorded and, when correct, the question's points are scored. The second
      component is the render whose `nextQuestion` runs two seconds later. */
  function Answer(g: Game, answer: int): (r: (Game, Option<Game>))
    requires g.current < |g.questions|
    ensures g.selected.Some? ==> r == (g, None)
    ensures g.selected.None? ==>
              var q := g.questions[g.current];
              && r.1 == Some(g)
              && r.0.selected == Some(answer) && r.0.showResult
              && r.0.score == g.score + (if answer == q.correct then q.points else 0)
              && r.0.correctCount == g.correctCount + (if answer == q.correct then 1 else 0)
              && r.0.current == g.current
  {
    if g.selected.Some? then (g, None)
    else
      var q := g.questions[g.current];
      var g1 := g.(selected := Some(answer), showResult := true);
      if answer == q.correct then (g1.(score := g.score + q.points, correctCount := g.correctCount + 1), Some(g))
      else (g1, Some(g))
  }

  /** A question is answered at most once: a second answer changes nothing. */
  lemma AnswerOnce(g: Game, a: int, b: int)
    requires g.current < |g.questions|
    ensures Answer(Answer(g, a).0, b).0 == Answer(g, a).0
  {
  }

  /** The one-second clock: while a question is open, at one second or less it
      times out (`handleTimeout`: selection -1) and its `nextQuestion` is scheduled
      from the current render. */
  function ClockTick(g: Game): (r: (Game, Option<Game>))
    ensures !g.started || g.over || g.showResult ==> r == (g, None)
    ensures g.started && !g.over && !g.showResult && g.timeLeft <= 1 ==>
              r.0 == g.(timeLeft := 0, selected := Some(-1), showResult := true) && r.1 == Some(r.0)
    ensures g.started && !g.over && !g.showResult && g.timeLeft > 1 ==> r == (g.(timeLeft := g.timeLeft - 1), None)
  {
    if !g.started || g.over || g.showResult then (g, None)
    else if g.timeLeft <= 1 then
      var g1 := g.(timeLeft := 0, selected := Some(-1), showResult := true);
      (g1, Some(g1))
    else (g.(timeLeft := g.timeLeft - 1), None)
  }

  /** `nextQuestion` as written, run from the render `snap` it was scheduled from
      against the current state `cur`: past the last question it calls that render's
      `endGame`, which sees that render's score (the second component). */
  function NextQuestionAsWritten(cur: Game, snap: Game): (r: (Game, Option<int>))
    ensures r.1.Some? <==> snap.current + 1 >= |snap.questions|
    ensures r.1.Some? ==> r.0.over && !r.0.canPlay && r.0.score == cur.score && r.1.value == snap.score
    ensures r.1.None? ==> r.0.current == cur.current + 1 && r.0.selected.None? && r.0.timeLeft == QuestionTime
  {
    if snap.current + 1 >= |snap.questions| then (cur.(over := true, canPlay := false), Some(snap.score))
    else (cur.(current := cur.current + 1, selected := None, showResult := false, timeLeft := QuestionTime), None)
  }

  /** Answering the last question correctly: the score `endGame` credits lacks that
      question's points. */
  lemma LastCorrectAnswerUncredited(g: Game)
    requires WellFormed(g) && g.current + 1 == |g.questions| && g.selected.None?
    ensures var q := g.questions[g.current];
            var answered := Answer(g, q.correct);
            var r := NextQuestionAsWritten(answered.0, answered.1.value);
            && r.0.over && r.1.Some?
            && r.1.value == r.0.score - q.points
            && r.1.value < r.0.score
  {
    assert g.questions[g.current] in g.questions;
  }

  /** `nextQuestion` as evidently intended: the end of the quiz credits its
      current score. */
  function NextQuestion(cur: Game): (r: (Game, Option<int>))
    ensures r.1.Some? <==> cur.current + 1 >= |cur.questions|
    ensures r.1.Some? ==> r.0.over && !r.0.canPlay && r.1.value == r.0.score == cur.score
    ensures r.1.None? ==> r.0.current == cur.current + 1 && r.0.selected.None? && r.0.timeLeft == QuestionTime
  {
    if cur.current + 1 >= |cur.questions| then (cur.(over := true, canPlay := false), Some(cur.score))
    else (cur.(current := cur.current + 1, selected := None, showResult := false, timeLeft := QuestionTime), None)
  }

  /** A timeout's scheduled `nextQuestion` already sees the current score, so on
      that path the written and the intended transitions agree. */
  lemma TimeoutPathAgrees(g: Game)
    requires g.started && !g.over && !g.showResult && g.timeLeft <= 1
    ensures var t := ClockTick(g);
            NextQuestionAsWritten(t.0, t.1.value) == NextQuestion(t.0)
  {
  }

  /** Answering keeps the quiz well formed: a correct answer adds at least the ten
      points it is counted for. */
  lemma AnswerKeepsWellFormed(g: Game, answer: int)
    requires WellFormed(g)
    ensures WellFormed(Answer(g, answer).0)
  {
    assert g.questions[g.current] in g.questions;
  }

  /** Moving on keeps the quiz well formed. */
  lemma NextKeepsWellFormed(cur: Game)
    requires WellFormed(cur)
    ensures WellFormed(NextQuestion(cur).0)
  {
  }

  /** `endGame`: marks today as played in local storage (even with no user),
      closes today's quiz, and with a signed-in user and a cached profile credits
      `floor(score / 2)`. */
  function End(st: AuthState, rows: seq<Profile>, storage: Storage, today: string, seen: int, now: int,
               writeFails: bool, refreshFails: bool): (r: (AuthState, seq<Profile>, Storage, Status))
    ensures r.2 == storage[PlayedKey(st.user) := today]
    ensures (r.0, r.1, r.3) == CreditPoints(st, rows, PointsEarned(seen, 2), now, writeFails, refreshFails)
  {
    var credited := CreditPoints(st, rows, PointsEarned(seen, 2), now, writeFails, refreshFails);
    (credited.0, credited.1, storage[PlayedKey(st.user) := today], credited.2)
  }

  /** Once a quiz has ended, the same user cannot start another the same day, and
      another signed-in user of the same browser still can, unless they have
      played too. */
  lemma OncePerDay(st: AuthState, rows: seq<Profile>, storage: Storage, today: string, seen: int, now: int,
                   wf: bool, rf: bool, other: Option<UserId>)
    ensures var after := End(st, rows, storage, today, seen, now, wf, rf).2;
            && !CanPlayToday(after, st.user, today)
            && (PlayedKey(other) != PlayedKey(st.user) ==>
                  (CanPlayToday(after, other, today) <==> CanPlayToday(storage, other, today)))
            && (st.user.Some? && other.Some? && other != st.user ==>
                  (CanPlayToday(after, other, today) <==> CanPlayToday(storage, other, today)))
  {
    if st.user.Some? && other.Some? && other != st.user {
      PlayedKeysDistinct(st.user.value, other.value);
    }
  }

  /** A quiz ended through its last question pays, once corrected, one platform
      point per two game points of its final score, rounded down. */
  lemma EndPaysHalf(st: AuthState, rows: seq<Profile>, storage: Storage, today: string, g: Game, now: int)
    requires UniqueIds(rows) && st.user.Some? && st.profile.Some? && HasId(rows, st.user.value)
    requires g.current + 1 >= |g.questions|
    ensures var r := NextQuestion(g);
            var rows' := End(st, rows, storage, today, r.1.value, now, false, false).1;
            var earned := PointsOf(Find(rows', st.user.value).value) - PointsOf(st.profile.value);
            2 * earned <= r.0.score < 2 * (earned + 1)
  {
    var r := NextQuestion(g);
    CreditPointsBalances(st, rows, PointsEarned(r.1.value, 2), now, false, false);
  }
}
