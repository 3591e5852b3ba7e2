/** The survey form: the "interested features" checklist and the order in which
    submitting stores the answers, asks the database to award the survey points,
    and refreshes the profile. The award procedure runs in the database and is an
    oracle here: it either fails or answers whether points were awarded. */
module Survey {
  import opened Wrappers
  import opened Store
  import opened Auth

  /** `interestedFeatures.filter(f => f !== feature)`. */
  function Remove(fs: seq<string>, feature: string): (r: seq<string>)
    ensures feature !in r
    ensures multiset(r) == multiset(fs)[feature := 0]
    ensures Subsequence(r, fs)
  {
    if |fs| == 0 then []
    else
      assert fs == [fs[0]] + fs[1..];
      if fs[0] == feature then Remove(fs[1..], feature)
      else [fs[0]] + Remove(fs[1..], feature)
  }

  /** `a` is `b` with some elements dropped, the rest kept in order. */
  predicate Subsequence(a: seq<string>, b: seq<string>)
    decreases |b|
  {
    if |a| == 0 then true
    else if |b| == 0 then false
    else if a[0] == b[0] then Subsequence(a[1..], b[1..])
    else Subsequence(a, b[1..])
  }

  /** `handleFeatureChange`: ticking appends the feature at the end (even if it
      is already listed); unticking removes every occurrence and keeps the order
      of the rest. */
  function Toggle(fs: seq<string>, feature: string, checked: bool): (r: seq<string>)
    ensures checked ==> r == fs + [feature]
    ensures !checked ==> feature !in r && Subsequence(r, fs)
    ensures !checked ==> forall x :: x != feature ==> multiset(r)[x] == multiset(fs)[x]
  {
    if checked then fs + [feature] else Remove(fs, feature)
  }

  /** Ticking a feature that was not listed and then unticking it gives back the
      list as it was. */
  lemma {:induction false} TickUntickRestores(fs: seq<string>, feature: string)
    requires feature !in fs
    ensures Toggle(Toggle(fs, feature, true), feature, false) == fs
  {
    RemoveAbsent(fs, feature);
    RemoveAppended(fs, feature);
  }

  /** Removing a feature that is not listed changes nothing. */
  lemma {:induction false} RemoveAbsent(fs: seq<string>, feature: string)
    requires feature !in fs
    ensures Remove(fs, feature) == fs
  {
    if |fs| > 0 {
      RemoveAbsent(fs[1..], feature);
    }
  }

  /** Removing distributes over appending one element equal to what is removed. */
  lemma {:induction false} RemoveAppended(fs: seq<string>, feature: string)
    ensures Remove(fs + [feature], feature) == Remove(fs, feature)
  {
    if |fs| == 0 {
      assert Remove([feature], feature) == Remove([], feature);
    } else {
      assert (fs + [feature])[1..] == fs[1..] + [feature];
      RemoveAppended(fs[1..], feature);
    }
  }

  /** Unticking twice is unticking once. */
  lemma UntickIdempotent(fs: seq<string>, feature: string)
    ensures Toggle(Toggle(fs, feature, false), feature, false) == Toggle(fs, feature, false)
  {
    RemoveAbsent(Remove(fs, feature), feature);
  }

  /** The form's answers. */
  datatype Answers = Answers(
    ageGroup: string, isGamer: string, gamingFrequency: string, monthlySpending: string,
    interestedFeatures: seq<string>, preferredRewards: string, primaryCard: string, suggestions: string)

  /** A stored survey row. */
  datatype SurveyRow = SurveyRow(userId: UserId, answers: Answers)

  /** The external calls a submission makes, in order. */
  datatype Call = InsertSurvey | AwardPoints | Refresh

  /** How a submission ended. */
  datatype Outcome =
    | LoginRequired          // no user: nothing sent
    | InsertRefused           // the survey row was refused; no award asked for
    | AwardFailed            // stored, but the award call failed
    | Awarded                // stored, points awarded, profile refreshed
    | NotAwarded             // stored, the award call said no (already awarded)
    | Unexpected             // an exception escaped, e.g. from the refresh

  /** The result of `handleSubmit`. */
  datatype Submission = Submission(
    st: AuthState, surveys: seq<SurveyRow>, calls: seq<Call>, outcome: Outcome, submitted: bool)

  /** `handleSubmit`: without a user nothing is sent; otherwise the survey row is
      inserted, and only if that succeeds the award is requested; only an award
      call that succeeds and answers yes triggers a profile refresh. The form
      counts as submitted whenever the insert succeeded and nothing threw. */
  function Submit(st: AuthState, surveys: seq<SurveyRow>, answers: Answers, rows: seq<Profile>,
                  insertFails: bool, award: Option<bool>, refreshFails: bool): (r: Submission)
    ensures st.user.None? ==> r == Submission(st, surveys, [], LoginRequired, false)
    ensures r.outcome == InsertRefused ==> r.surveys == surveys && r.calls == [InsertSurvey]
    ensures AwardPoints in r.calls ==> r.calls[0] == InsertSurvey && r.calls[1] == AwardPoints && !insertFails
    ensures Refresh in r.calls <==> st.user.Some? && !insertFails && award == Some(true)
    ensures Refresh in r.calls ==> r.calls == [InsertSurvey, AwardPoints, Refresh]
    ensures st.user.Some? && !insertFails ==> r.surveys == surveys + [SurveyRow(st.user.value, answers)]
    ensures r.submitted <==>
              st.user.Some? && !insertFails && !(award == Some(true) && RefreshProfile(st, rows, refreshFails).1.Err?)
  {
    if st.user.None? then Submission(st, surveys, [], LoginRequired, false)
    else if insertFails then Submission(st, surveys, [InsertSurvey], InsertRefused, false)
    else
      var stored := surveys + [SurveyRow(st.user.value, answers)];
      match award
      case None => Submission(st, stored, [InsertSurvey, AwardPoints], AwardFailed, true)
      case Some(false) => Submission(st, stored, [InsertSurvey, AwardPoints], NotAwarded, true)
      case Some(true) =>
        var refreshed := RefreshProfile(st, rows, refreshFails);
        if refreshed.1.Err? then Submission(st, stored, [InsertSurvey, AwardPoints, Refresh], Unexpected, false)
        else Submission(refreshed.0, stored, [InsertSurvey, AwardPoints, Refresh], Awarded, true)
  }

  /** A submission stores at most one survey row, and only the signed-in user's. */
  lemma SubmitStoresOwnRow(st: AuthState, surveys: seq<SurveyRow>, answers: Answers, rows: seq<Profile>,
                           insertFails: bool, award: Option<bool>, refreshFails: bool)
    ensures var r := Submit(st, surveys, answers, rows, insertFails, award, refreshFails);
            && surveys <= r.surveys && |r.surveys| <= |surveys| + 1
            && (|r.surveys| == |surveys| + 1 ==> r.surveys[|surveys|].userId == st.user.value)
  {
  }
}
