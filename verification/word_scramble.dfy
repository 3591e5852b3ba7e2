/** Word Scramble: a 90-second round of eight words drawn from a fixed list of
    twelve, each shown with its letters shuffled; a correct guess scores the word's
    points with a streak bonus and a hint penalty. Each timer firing is an explicit
    step, and the two-second pause after a wrong guess is not modelled. */
module WordScramble {
  import opened Wrappers
  import opened Text
  import opened Store
  import opened Auth
  import opened Shuffle
  import opened Ledger

  /** A game word and its points; the hint sentence shown beside it is display text
      and is not modelled. */
  datatype Word = Word(word: string, points: nat)

  const GameWords: seq<Word> := [
    Word("FORTNITE", 15),
    Word("MINECRAFT", 20),
    Word("VALORANT", 18),
    Word("CONTROLLER", 25),
    Word("ESPORTS", 15),
    Word("STREAMING", 20),
    Word("MULTIPLAYER", 25),
    Word("RESPAWN", 15),
    Word("HEADSHOT", 18),
    Word("CHECKPOINT", 22),
    Word("INVENTORY", 20),
    Word("ACHIEVEMENT", 25)
  ]

  /** Words per round. */
  const RoundLength: nat := 8

  /** The draws one scrambling attempt of `word` consumes: one per index from the
      last down to 1. */
  predicate AttemptFits(word: string, a: seq<real>) {
    |a| == StepsFor(word) && UnitDraws(a)
  }

  /** The number of swaps one pass over `word` makes. */
  function StepsFor(word: string): (n: nat)
    ensures |word| == 0 ==> n == 0
    ensures |word| > 0 ==> n == |word| - 1
  {
    if |word| == 0 then 0 else |word| - 1
  }

  /** One attempt's shuffle returns the word unchanged. */
  predicate ComesBack(word: string, a: seq<real>) {
    AttemptFits(word, a) && Sweep(word, a) == word
  }

  /** `scrambleWord`: shuffle the letters; if a word of two or more letters comes
      back unchanged, try again. Each element of `attempts` is one try's draws;
      `None` means every try given came back unchanged, where the source would
      keep recursing. */
  function Scramble(word: string, attempts: seq<seq<real>>): (r: Option<string>)
    requires forall k :: 0 <= k < |attempts| ==> AttemptFits(word, attempts[k])
    ensures r.Some? ==> |r.value| == |word| && multiset(r.value) == multiset(word)
    ensures r.Some? && |word| > 1 ==> r.value != word
  {
    if |attempts| == 0 then None
    else
      assert AttemptFits(word, attempts[0]);
      var letters := Sweep(word, attempts[0]);
      if letters == word && |word| > 1 then Scramble(word, attempts[1..])
      else Some(letters)
  }

  /** `scrambleWord` gives up on the attempts given exactly when there are none,
      or the word has two or more letters and every attempt brings it back. */
  lemma {:induction false} ScrambleGivesUpIff(word: string, attempts: seq<seq<real>>)
    requires forall k :: 0 <= k < |attempts| ==> AttemptFits(word, attempts[k])
    ensures Scramble(word, attempts).None? <==>
              (|attempts| == 0 || (|word| > 1 && forall k :: 0 <= k < |attempts| ==> ComesBack(word, attempts[k])))
    decreases |attempts|
  {
    if |attempts| > 0 {
      var rest := attempts[1..];
      assert AttemptFits(word, attempts[0]);
      if Sweep(word, attempts[0]) == word && |word| > 1 {
        assert ComesBack(word, attempts[0]);
        assert forall k :: 0 <= k < |rest| ==> AttemptFits(word, rest[k]) by {
          forall k | 0 <= k < |rest| ensures AttemptFits(word, rest[k]) {
            assert rest[k] == attempts[k + 1];
          }
        }
        ScrambleGivesUpIff(word, rest);
        if forall k :: 0 <= k < |rest| ==> ComesBack(word, rest[k]) {
          forall k | 0 <= k < |attempts| ensures ComesBack(word, attempts[k]) {
            if k > 0 {
              assert attempts[k] == rest[k - 1];
            }
          }
        }
      } else {
        assert !ComesBack(word, attempts[0]) || |word| <= 1;
      }
    }
  }

  /** A word of two or more copies of one letter can never be scrambled: every
      attempt comes back unchanged, so `scrambleWord` would recurse forever. */
  lemma UniformWordNeverScrambles(word: string, attempts: seq<seq<real>>)
    requires |word| > 1 && forall k :: 0 <= k < |word| ==> word[k] == word[0]
    requires forall k :: 0 <= k < |attempts| ==> AttemptFits(word, attempts[k])
    ensures Scramble(word, attempts).None?
  {
    forall k | 0 <= k < |attempts|
      ensures ComesBack(word, attempts[k])
    {
      UniformSweepIsIdentity(word, attempts[k]);
    }
    ScrambleGivesUpIff(word, attempts);
  }

  /** The game's twelve words are distinct. */
  lemma GameWordsDistinct()
    ensures Distinct(GameWords)
  {
  }

  /** `shuffleWords().slice(0, 8)`: the round's words. */
  function RoundWords(order: seq<real>): (ws: seq<Word>)
    requires |order| == |GameWords| - 1 && UnitDraws(order)
    ensures |ws| == RoundLength
    ensures Distinct(ws)
    ensures forall w :: w in ws ==> w in GameWords
  {
    var all := Sweep(GameWords, order);
    GameWordsDistinct();
    PermutationKeepsDistinct(all, GameWords, RoundLength);
    assert forall w :: w in all[..RoundLength] ==> w in multiset(all);
    all[..RoundLength]
  }

  datatype Game = Game(
    started: bool, over: bool, words: seq<Word>, index: nat, scrambled: Option<string>,
    score: int, timeLeft: int, hint: bool, completed: nat, streak: nat)

  /** What every state of a round keeps: eight words, a current index among them,
      at least five points per word completed, and a streak no longer than the
      number of words completed. */
  predicate WellFormed(g: Game) {
    |g.words| == RoundLength && g.index < |g.words| && g.score >= 5 * g.completed
    && g.streak <= g.completed && g.timeLeft >= 0
  }

  /** `startGame`. */
  function Start(order: seq<real>, attempts: seq<seq<real>>): (g: Game)
    requires |order| == |GameWords| - 1 && UnitDraws(order)
    requires forall k :: 0 <= k < |attempts| ==> AttemptFits(RoundWords(order)[0].word, attempts[k])
    ensures WellFormed(g) && g.started && !g.over && g.index == 0 && g.score == 0 && g.timeLeft == 90
    ensures g.words == RoundWords(order)
    ensures g.scrambled == Scramble(g.words[0].word, attempts)
  {
    var ws := RoundWords(order);
    Game(true, false, ws, 0, Scramble(ws[0].word, attempts), 0, 90, false, 0, 0)
  }

  /** The points a correct guess is worth: the word's points, plus 10 on a streak
      of three or more, minus 5 after a hint, but never less than 5. */
  function Award(w: Word, streak: nat, hint: bool): (p: int)
    ensures p >= 5
    ensures p >= w.points + (if streak >= 3 then 10 else 0) - (if hint then 5 else 0)
    ensures p == 5 || p == w.points + (if streak >= 3 then 10 else 0) - (if hint then 5 else 0)
  {
    var raw := w.points + (if streak >= 3 then 10 else 0) - (if hint then 5 else 0);
    if raw > 5 then raw else 5
  }

  /** The typed guess as compared: upper-cased, then trimmed. It has no lower-case
      letter and no white space at either end, and it is empty exactly when the
      guess is blank. */
  function Normalised(guess: string): (r: string)
    ensures |r| <= |guess|
    ensures r == [] <==> IsBlank(guess)
    ensures forall k :: 0 <= k < |r| ==> !IsLower(r[k])
    ensures r != [] ==> !IsSpace(r[0]) && !IsSpace(r[|r| - 1])
  {
    var u := Upper(guess);
    assert IsBlank(u) <==> IsBlank(guess) by {
      assert forall k :: 0 <= k < |u| ==> (IsSpace(u[k]) <==> IsSpace(guess[k]));
    }
    Trim(u)
  }

  /** The bookkeeping of `handleGuess` before it moves on: a correct guess adds its
      award, completes a word and extends the streak; a wrong one breaks the streak. */
  function Graded(g: Game, guess: string): (g': Game)
    requires g.index < |g.words|
    ensures Normalised(guess) == g.words[g.index].word ==>
              g'.score == g.score + Award(g.words[g.index], g.streak, g.hint)
              && g'.completed == g.completed + 1 && g'.streak == g.streak + 1
    ensures Normalised(guess) != g.words[g.index].word ==>
              g'.score == g.score && g'.completed == g.completed && g'.streak == 0
    ensures g'.words == g.words && g'.index == g.index && g'.timeLeft == g.timeLeft && g'.over == g.over
  {
    if Normalised(guess) == g.words[g.index].word then
      g.(score := g.score + Award(g.words[g.index], g.streak, g.hint),
         completed := g.completed + 1, streak := g.streak + 1)
    else g.(streak := 0)
  }

  /** `nextWord` when a word remains: move on, scramble it, clear the hint. */
  function Advance(g: Game, attempts: seq<seq<real>>): (g': Game)
    requires g.index + 1 < |g.words|
    requires forall k :: 0 <= k < |attempts| ==> AttemptFits(g.words[g.index + 1].word, attempts[k])
    ensures g'.index == g.index + 1 && !g'.hint && g'.score == g.score && g'.words == g.words && g'.over == g.over
    ensures g'.scrambled == Scramble(g.words[g.index + 1].word, attempts)
  {
    g.(index := g.index + 1, scrambled := Scramble(g.words[g.index + 1].word, attempts), hint := false)
  }

  /** The draws the next scramble may use. */
  predicate NextFits(g: Game, attempts: seq<seq<real>>)
    requires g.index < |g.words|
  {
    g.index + 1 < |g.words| ==> forall k :: 0 <= k < |attempts| ==> AttemptFits(g.words[g.index + 1].word, attempts[k])
  }

  /** `handleGuess` as written. The `nextWord` and `endGame` it calls belong to the
      render the guess was typed in, so when the last word is guessed, `endGame`
      sees the score from before that guess. The second component is the score
      `endGame` was called with, if it was called. */
  function GuessAsWritten(g: Game, guess: string, attempts: seq<seq<real>>): (r: (Game, Option<int>))
    requires g.index < |g.words| && NextFits(g, attempts)
    ensures r.1.Some? <==> g.index + 1 >= |g.words|
    ensures r.1.Some? ==> r.0.over && r.1.value == g.score
    ensures r.1.None? ==> r.0.over == g.over && r.0.index == g.index + 1
    ensures var graded := Graded(g, guess);
            r.0.score == graded.score && r.0.streak == graded.streak && r.0.completed == graded.completed
  {
    var g1 := Graded(g, guess);
    if g.index + 1 >= |g.words| then (g1.(over := true), Some(g.score))
    else (Advance(g1, attempts), None)
  }

  /** With the last word guessed correctly, the score `endGame` credits falls short
      of the round's final score by the last word's award. */
  lemma LastCorrectGuessUncredited(g: Game, guess: string, attempts: seq<seq<real>>)
    requires g.index + 1 == |g.words| && Normalised(guess) == g.words[g.index].word
    ensures var r := GuessAsWritten(g, guess, attempts);
            && r.0.over && r.1.Some?
            && r.1.value == r.0.score - Award(g.words[g.index], g.streak, g.hint)
            && r.1.value < r.0.score
  {
  }

  /** `handleGuess` as evidently intended: `endGame` credits the score the round
      ends with. */
  function Guess(g: Game, guess: string, attempts: seq<seq<real>>): (r: (Game, Option<int>))
    requires g.index < |g.words| && NextFits(g, attempts)
    ensures r.1.Some? <==> g.index + 1 >= |g.words|
    ensures r.1.Some? ==> r.0.over && r.1.value == r.0.score
    ensures r.1.None? ==> r.0.over == g.over && r.0.index == g.index + 1
    ensures var graded := Graded(g, guess);
            r.0.score == graded.score && r.0.streak == graded.streak && r.0.completed == graded.completed
  {
    var g1 := Graded(g, guess);
    if g.index + 1 >= |g.words| then (g1.(over := true), Some(g1.score))
    else (Advance(g1, attempts), None)
  }

  /** Corrected, a correct guess of the last word is credited in full: `endGame`
      sees the score before the guess plus that word's award. */
  lemma LastCorrectGuessCredited(g: Game, guess: string, attempts: seq<seq<real>>)
    requires g.index + 1 == |g.words| && Normalised(guess) == g.words[g.index].word
    ensures Guess(g, guess, attempts).1 == Some(g.score + Award(g.words[g.index], g.streak, g.hint))
  {
  }

  /** A guess keeps the round well formed. */
  lemma GuessKeepsWellFormed(g: Game, guess: string, attempts: seq<seq<real>>)
    requires WellFormed(g) && NextFits(g, attempts)
    ensures WellFormed(Guess(g, guess, attempts).0)
  {
  }

  /** Case and surrounding blanks in the guess do not matter: any guess whose
      trimmed, upper-cased form is the word is correct, whichever order the two
      normalisations run in. */
  lemma GuessNormalisationOrder(guess: string)
    ensures Normalised(guess) == Upper(Trim(guess))
  {
    TrimUpperCommute(guess);
  }

  /** `useHint`. */
  function UseHint(g: Game): (g': Game)
    ensures g'.hint && g'.score == g.score && g'.index == g.index
  {
    g.(hint := true)
  }

  /** Using the hint costs five points of a correct guess's award, unless the
      award is already at its floor of five. */
  lemma HintCostsFive(w: Word, streak: nat)
    requires w.points + (if streak >= 3 then 10 else 0) >= 10
    ensures Award(w, streak, true) == Award(w, streak, false) - 5
  {
  }

  /** `reshuffleWord`: a new scramble of the current word. */
  function Reshuffle(g: Game, attempts: seq<seq<real>>): (g': Game)
    requires g.index < |g.words|
    requires forall k :: 0 <= k < |attempts| ==> AttemptFits(g.words[g.index].word, attempts[k])
    ensures g'.scrambled == Scramble(g.words[g.index].word, attempts)
    ensures g'.index == g.index && g'.score == g.score
  {
    g.(scrambled := Scramble(g.words[g.index].word, attempts))
  }

  /** The one-second clock as written: the interval's callback belongs to the render
      in which the round started (`captured`), so when time runs out `endGame` sees
      that render's score. */
  function ClockTickAsWritten(g: Game, captured: Game): (r: (Game, Option<int>))
    ensures r.1.Some? <==> g.started && !g.over && g.timeLeft <= 1
    ensures r.1.Some? ==> r.0.over && r.0.timeLeft == 0 && r.0.score == g.score && r.1.value == captured.score
    ensures r.1.None? ==> r.0.over == g.over && r.0.score == g.score
  {
    if !g.started || g.over then (g, None)
    else if g.timeLeft <= 1 then (g.(over := true, timeLeft := 0), Some(captured.score))
    else (g.(timeLeft := g.timeLeft - 1), None)
  }

  /** A round that runs out of time credits nothing, whatever it scored: the
      captured render is the round's first, whose score is zero. */
  lemma TimerEndCreditsNothing(g: Game, order: seq<real>, attempts: seq<seq<real>>)
    requires |order| == |GameWords| - 1 && UnitDraws(order)
    requires forall k :: 0 <= k < |attempts| ==> AttemptFits(RoundWords(order)[0].word, attempts[k])
    requires g.started && !g.over && g.timeLeft <= 1
    ensures var r := ClockTickAsWritten(g, Start(order, attempts));
            r.0.over && r.1 == Some(0) && PointsEarned(r.1.value, 3) == 0
  {
  }

  /** The one-second clock as evidently intended: time running out ends the round
      and credits its current score. */
  function ClockTick(g: Game): (r: (Game, Option<int>))
    ensures r.1.Some? <==> g.started && !g.over && g.timeLeft <= 1
    ensures r.1.Some? ==> r.0.over && r.0.timeLeft == 0 && r.1.value == r.0.score == g.score
    ensures r.1.None? ==> r.0.over == g.over && r.0.score == g.score
  {
    if !g.started || g.over then (g, None)
    else if g.timeLeft <= 1 then (g.(over := true, timeLeft := 0), Some(g.score))
    else (g.(timeLeft := g.timeLeft - 1), None)
  }

  /** `endGame`: with a signed-in user and a cached profile, credit
      `floor(score / 3)` for the score it was called with (even zero). */
  function End(st: AuthState, rows: seq<Profile>, seen: int, now: int, writeFails: bool, refreshFails: bool)
    : (r: (AuthState, seq<Profile>, Status))
    ensures st.user.None? || st.profile.None? ==> r == (st, rows, Ignored)
    ensures st.user.Some? && st.profile.Some? && writeFails ==> r == (st, rows, WriteFailed)
    ensures UniqueIds(rows) && st.user.Some? && st.profile.Some? && HasId(rows, st.user.value) && !writeFails ==>
              var after := Find(r.1, st.user.value);
              var earned := if after.Some? then PointsOf(after.value) - PointsOf(st.profile.value) else 0;
              && (r.2 == Applied || r.2 == RefreshFailed)
              && after.Some?
              && 3 * earned <= seen < 3 * (earned + 1)
              && after.value.spins == Find(rows, st.user.value).value.spins
  {
    var r := CreditPoints(st, rows, PointsEarned(seen, 3), now, writeFails, refreshFails);
    if UniqueIds(rows) && st.user.Some? && st.profile.Some? && HasId(rows, st.user.value) && !writeFails then
      CreditPointsBalances(st, rows, PointsEarned(seen, 3), now, writeFails, refreshFails);
      r
    else r
  }

  /** A round ended by its last guess pays, once corrected, one platform point per
      three game points of its final score, rounded down. */
  lemma EndPaysThird(st: AuthState, rows: seq<Profile>, g: Game, guess: string, attempts: seq<seq<real>>, now: int)
    requires UniqueIds(rows) && st.user.Some? && st.profile.Some? && HasId(rows, st.user.value)
    requires g.index + 1 == |g.words| && NextFits(g, attempts)
    ensures var r := Guess(g, guess, attempts);
            var rows' := End(st, rows, r.1.value, now, false, false).1;
            var earned := PointsOf(Find(rows', st.user.value).value) - PointsOf(st.profile.value);
            3 * earned <= r.0.score < 3 * (earned + 1)
  {
    var r := Guess(g, guess, attempts);
    CreditPointsBalances(st, rows, PointsEarned(r.1.value, 3), now, false, false);
  }
}
