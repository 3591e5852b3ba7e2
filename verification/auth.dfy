/** The authentication context: the signed-in user, session and cached profile,
    and the operations that change them or the store (`addSpins`, `signUp`,
    `processReferral`, `signOut`, `refreshProfile`). */
module Auth {
  import opened Wrappers
  import opened Text
  import opened Store

  type SessionToken = string

  /** What the context holds: the user, the session and the last fetched profile. */
  datatype AuthState = AuthState(user: Option<UserId>, session: Option<SessionToken>, profile: Option<Profile>)

  /** The most referral rows one referrer may have. */
  const MaxReferrals: nat := 3

  // ---------------------------------------------------------------------------
  // signOut / refreshProfile

  /** `signOut`: on success user, session and profile are cleared; a failing
      identity call is caught and leaves the state alone. */
  function SignOut(st: AuthState, fails: bool): (st': AuthState)
    ensures !fails ==> st'.user.None? && st'.session.None? && st'.profile.None?
    ensures fails ==> st' == st
  {
    if fails then st else AuthState(None, None, None)
  }

  /** `refreshProfile`: with no user, returns null and changes nothing; otherwise
      re-reads the user's row and caches it, or reports the error and keeps the cache. */
  function RefreshProfile(st: AuthState, rows: seq<Profile>, fails: bool): (r: (AuthState, Result<Option<Profile>, StoreError>))
    ensures st.user.None? ==> r == (st, Ok(None))
    ensures r.1.Err? ==> r.0 == st
    ensures r.1.Ok? && r.1.value.Some? ==>
              st.user.Some? && r.1.value.value.id == st.user.value && r.1.value.value in rows
              && r.0 == st.(profile := r.1.value)
    ensures st.user.Some? && !fails && HasId(rows, st.user.value) ==> r.1.Ok? && r.1.value.Some?
  {
    match st.user
    case None => (st, Ok(None))
    case Some(u) =>
      if fails then (st, Err(Unavailable))
      else match Find(rows, u)
        case None => (st, Err(NoRows))
        case Some(p) => (st.(profile := Some(p)), Ok(Some(p)))
  }

  // ---------------------------------------------------------------------------
  // addSpins

  /** Faults of the three store calls `addSpins` makes. */
  datatype SpinFaults = SpinFaults(fetchFails: bool, updateFails: bool, refreshFails: bool)

  /** The store half of `addSpins(userId, spinCount)`: read the user's spins, then
      write `(spins or 0) + spinCount` (no clamping) and the timestamp. */
  function WriteSpins(rows: seq<Profile>, userId: UserId, spinCount: int, now: int, fetchFails: bool, updateFails: bool)
    : (r: (seq<Profile>, Result<Profile, StoreError>))
    ensures !HasId(rows, userId) || fetchFails || updateFails ==> r.0 == rows && r.1.Err?
    ensures |r.0| == |rows| && forall i :: 0 <= i < |rows| ==> r.0[i].id == rows[i].id
  {
    if fetchFails then (rows, Err(Unavailable))
    else match Find(rows, userId)
      case None => (rows, Err(NoRows))
      case Some(current) =>
        if updateFails then (rows, Err(Unavailable))
        else
          var patch := Patch(None, Some(SpinsOf(current) + spinCount), now);
          (UpdateById(rows, userId, patch), Ok(ApplyPatch(current, patch)))
  }

  /** `addSpins(userId, spinCount)`: the store write, then a refresh of the context
      when the credited user is the signed-in one; a failing refresh is reported as
      the call's error although the write has happened. */
  function AddSpins(st: AuthState, rows: seq<Profile>, userId: UserId, spinCount: int, now: int, f: SpinFaults)
    : (r: (AuthState, seq<Profile>, Result<Profile, StoreError>))
    ensures r.1 == WriteSpins(rows, userId, spinCount, now, f.fetchFails, f.updateFails).0
    ensures WriteSpins(rows, userId, spinCount, now, f.fetchFails, f.updateFails).1.Err? ==> r.0 == st && r.2.Err?
    ensures st.user != Some(userId) ==> r.0 == st && r.2 == WriteSpins(rows, userId, spinCount, now, f.fetchFails, f.updateFails).1
    ensures st.user == Some(userId) && WriteSpins(rows, userId, spinCount, now, f.fetchFails, f.updateFails).1.Ok? ==>
              && r.0 == RefreshProfile(st, r.1, f.refreshFails).0
              && (r.2.Err? <==> RefreshProfile(st, r.1, f.refreshFails).1.Err?)
              && (r.2.Ok? ==> r.2 == WriteSpins(rows, userId, spinCount, now, f.fetchFails, f.updateFails).1)
    ensures st.user == Some(userId) && WriteSpins(rows, userId, spinCount, now, f.fetchFails, f.updateFails).1.Ok?
            && !f.refreshFails ==>
              && r.2.Ok? && r.0.user == st.user && r.0.session == st.session
              && r.0.profile.Some? && r.0.profile.value.id == userId && r.0.profile.value in r.1
  {
    var written := WriteSpins(rows, userId, spinCount, now, f.fetchFails, f.updateFails);
    if written.1.Err? || st.user != Some(userId) then (st, written.0, written.1)
    else
      var refreshed := RefreshProfile(st, written.0, f.refreshFails);
      if refreshed.1.Err? then (refreshed.0, written.0, Err(refreshed.1.error))
      else (refreshed.0, written.0, written.1)
  }

  /** When both store calls succeed, `addSpins` sets the user's spins to
      `(spins or 0) + spinCount` and touches no other profile. */
  lemma WriteSpinsGrants(rows: seq<Profile>, userId: UserId, spinCount: int, now: int)
    requires UniqueIds(rows) && HasId(rows, userId)
    ensures var r := WriteSpins(rows, userId, spinCount, now, false, false);
            var before := Find(rows, userId).value;
            && r.1.Ok?
            && Find(r.0, userId) == Some(before.(spins := Some(SpinsOf(before) + spinCount), updatedAt := now))
            && (forall other :: other != userId ==> Find(r.0, other) == Find(rows, other))
  {
    var current := Find(rows, userId).value;
    var patch := Patch(None, Some(SpinsOf(current) + spinCount), now);
    var rows' := UpdateById(rows, userId, patch);
    assert WriteSpins(rows, userId, spinCount, now, false, false) == (rows', Ok(ApplyPatch(current, patch)));
    FindAfterUpdate(rows, userId, patch, userId);
    OthersUntouched(rows, userId, patch);
  }

  // ---------------------------------------------------------------------------
  // signUp

  /** What the identity service answered to the account creation. */
  datatype IdentityReply = Refused(message: string) | Created(user: Option<UserId>)

  /** What `signUp` hands back and what it schedules. */
  datatype SignUpResult = SignUpResult(
    error: Option<string>,
    metadataCode: Option<string>,             // the referral code sent with the account
    scheduledReferral: Option<(UserId, string)>)  // (new user, code) for `processReferral`

  /** `signUp`: normalises the referral code (trim, upper-case), creates the
      account, and schedules `processReferral` only when the normalised code is
      non-empty and a user was created. */
  function SignUp(referralCode: Option<string>, reply: IdentityReply): (r: SignUpResult)
    ensures referralCode.Some? <==> r.metadataCode.Some?
    ensures r.metadataCode.Some? ==> r.metadataCode.value == Upper(Trim(referralCode.value))
    ensures r.error.Some? <==> reply.Refused?
    ensures r.scheduledReferral.Some? <==>
              reply.Created? && reply.user.Some? && referralCode.Some? && !IsBlank(referralCode.value)
    ensures r.scheduledReferral.Some? ==>
              r.scheduledReferral.value == (reply.user.value, NormalizeCode(referralCode.value))
  {
    var normalized := if referralCode.Some? then Some(NormalizeCode(referralCode.value)) else None;
    match reply
    case Refused(msg) => SignUpResult(Some(msg), normalized, None)
    case Created(user) =>
      NormalizeCodeEmptyIffBlank(if referralCode.Some? then referralCode.value else []);
      if normalized.Some? && normalized.value != [] && user.Some? then
        SignUpResult(None, normalized, Some((user.value, normalized.value)))
      else SignUpResult(None, normalized, None)
  }

  // ---------------------------------------------------------------------------
  // processReferral

  /** Why a referral was not (fully) credited. */
  datatype ReferralError =
    | LookupFailed(cause: StoreError)
    | NoReferrer
    | AlreadyReferred
    | CountFailed
    | CapReached
    | InsertFailed
    | SpinGrantFailed(cause: StoreError)

  /** Faults of the store calls `processReferral` makes. A failing duplicate check
      reads as "no existing row", since the source ignores that call's error. */
  datatype ReferralFaults = ReferralFaults(
    lookupFails: bool, duplicateCheckFails: bool, countFails: bool, insertFails: bool, spins: SpinFaults)

  /** The duplicate check: `.maybeSingle()` over the rows recording the pair, with
      its error ignored. It reports an existing referral only when the call works
      and exactly one row records the pair; with two or more rows `.maybeSingle()`
      fails and the check sees nothing. */
  predicate DuplicateSeen(refs: seq<Referral>, referrer: UserId, referred: UserId, fails: bool) {
    !fails && PairCount(refs, referrer, referred) == 1
  }

  /** Every referrer is within the cap. */
  predicate CapRespected(refs: seq<Referral>) {
    forall i :: 0 <= i < |refs| ==> CountFor(refs, refs[i].referrerId) <= MaxReferrals
  }

  /** No (referrer, referred) pair is recorded twice. */
  predicate PairsUnique(refs: seq<Referral>) {
    forall i, j :: 0 <= i < j < |refs| ==>
      (refs[i].referrerId, refs[i].referredId) != (refs[j].referrerId, refs[j].referredId)
  }

  /** `processReferral(newUserId, code)`: find the referrer by code, refuse a
      duplicate pair, refuse a referrer at the cap, insert one referral row with the
      upper-cased code, then grant the referrer one spin. The result names the
      referrer on success. */
  function ProcessReferral(st: AuthState, db: Db, newUserId: UserId, code: string, now: int, f: ReferralFaults)
    : (r: (AuthState, Db, Result<UserId, ReferralError>))
    ensures r.2.Err? && !r.2.error.SpinGrantFailed? ==> r.0 == st && r.1 == db
    ensures var l := LookupByCode(db.profiles, code, f.lookupFails);
            r.2 == Err(AlreadyReferred)
            <==> l.Ok? && l.value.Some? && DuplicateSeen(db.referrals, l.value.value.id, newUserId, f.duplicateCheckFails)
    ensures |r.1.profiles| == |db.profiles|
    ensures forall i :: 0 <= i < |db.profiles| ==> r.1.profiles[i].id == db.profiles[i].id
  {
    match LookupByCode(db.profiles, code, f.lookupFails)
    case Err(e) => (st, db, Err(LookupFailed(e)))
    case Ok(None) => (st, db, Err(NoReferrer))
    case Ok(Some(referrer)) =>
      var rid := referrer.id;
      if DuplicateSeen(db.referrals, rid, newUserId, f.duplicateCheckFails) then (st, db, Err(AlreadyReferred))
      else if f.countFails then (st, db, Err(CountFailed))
      else if CountFor(db.referrals, rid) >= MaxReferrals then (st, db, Err(CapReached))
      else if f.insertFails then (st, db, Err(InsertFailed))
      else
        var refs' := db.referrals + [Referral(rid, newUserId, Upper(code), now)];
        var granted := AddSpins(st, db.profiles, rid, 1, now, f.spins);
        if granted.2.Err? then (granted.0, Db(granted.1, refs'), Err(SpinGrantFailed(granted.2.error)))
        else (granted.0, Db(granted.1, refs'), Ok(rid))
  }

  /** A credited referral: the code named an existing referrer below the cap with
      no row for this pair; exactly one row was appended, carrying the upper-cased
      code; the referrer's spins went up by exactly one; no other profile changed. */
  lemma ReferralCredited(st: AuthState, db: Db, newUserId: UserId, code: string, now: int, f: ReferralFaults)
    returns (rid: UserId, before: Profile)
    requires UniqueIds(db.profiles)
    requires ProcessReferral(st, db, newUserId, code, now, f).2.Ok?
    ensures rid == ProcessReferral(st, db, newUserId, code, now, f).2.value
    ensures LookupByCode(db.profiles, code, f.lookupFails) == Ok(Some(before)) && before.id == rid
    ensures Find(db.profiles, rid) == Some(before)
    ensures CountFor(db.referrals, rid) < MaxReferrals
    ensures !DuplicateSeen(db.referrals, rid, newUserId, f.duplicateCheckFails)
    ensures PairsUnique(db.referrals) && !f.duplicateCheckFails ==> !HasPair(db.referrals, rid, newUserId)
    ensures ProcessReferral(st, db, newUserId, code, now, f).1.referrals
              == db.referrals + [Referral(rid, newUserId, Upper(code), now)]
    ensures Find(ProcessReferral(st, db, newUserId, code, now, f).1.profiles, rid)
              == Some(before.(spins := Some(SpinsOf(before) + 1), updatedAt := now))
    ensures forall other :: other != rid ==>
              Find(ProcessReferral(st, db, newUserId, code, now, f).1.profiles, other) == Find(db.profiles, other)
  {
    var rows';
    rid, before, rows' := CreditedShape(st, db, newUserId, code, now, f);
    WriteSpinsGrants(db.profiles, rid, 1, now);
    if PairsUnique(db.referrals) {
      UniquePairsCountOne(db.referrals, rid, newUserId);
    }
  }

  /** The store state a credited referral leaves: the spin write and the new row. */
  lemma CreditedShape(st: AuthState, db: Db, newUserId: UserId, code: string, now: int, f: ReferralFaults)
    returns (rid: UserId, before: Profile, rows': seq<Profile>)
    requires UniqueIds(db.profiles)
    requires ProcessReferral(st, db, newUserId, code, now, f).2.Ok?
    ensures rid == ProcessReferral(st, db, newUserId, code, now, f).2.value
    ensures LookupByCode(db.profiles, code, f.lookupFails) == Ok(Some(before)) && before.id == rid
    ensures Find(db.profiles, rid) == Some(before) && HasId(db.profiles, rid)
    ensures CountFor(db.referrals, rid) < MaxReferrals
    ensures !DuplicateSeen(db.referrals, rid, newUserId, f.duplicateCheckFails)
    ensures rows' == WriteSpins(db.profiles, rid, 1, now, false, false).0
    ensures ProcessReferral(st, db, newUserId, code, now, f).1
              == Db(rows', db.referrals + [Referral(rid, newUserId, Upper(code), now)])
  {
    before := CreditedSteps(st, db, newUserId, code, now, f);
    rid := before.id;
    var i :| 0 <= i < |db.profiles| && db.profiles[i] == before;
    FindUnique(db.profiles, rid, i);
    rows' := WriteSpins(db.profiles, rid, 1, now, false, false).0;
  }

  /** The branch a credited referral takes through `processReferral`. */
  lemma CreditedSteps(st: AuthState, db: Db, newUserId: UserId, code: string, now: int, f: ReferralFaults)
    returns (before: Profile)
    requires ProcessReferral(st, db, newUserId, code, now, f).2.Ok?
    ensures LookupByCode(db.profiles, code, f.lookupFails) == Ok(Some(before))
    ensures !DuplicateSeen(db.referrals, before.id, newUserId, f.duplicateCheckFails)
    ensures !f.countFails && !f.insertFails && CountFor(db.referrals, before.id) < MaxReferrals
    ensures !f.spins.fetchFails && !f.spins.updateFails
    ensures ProcessReferral(st, db, newUserId, code, now, f)
              == (AddSpins(st, db.profiles, before.id, 1, now, f.spins).0,
                  Db(AddSpins(st, db.profiles, before.id, 1, now, f.spins).1,
                     db.referrals + [Referral(before.id, newUserId, Upper(code), now)]),
                  Ok(before.id))
  {
    before := LookupByCode(db.profiles, code, f.lookupFails).value.value;
    var granted := AddSpins(st, db.profiles, before.id, 1, now, f.spins);
    assert granted.2.Ok?;
  }

  /** A spin grant that fails after the insert leaves the referral row recorded. */
  lemma ReferralRowSurvivesGrantFailure(st: AuthState, db: Db, newUserId: UserId, code: string, now: int, f: ReferralFaults)
    ensures var r := ProcessReferral(st, db, newUserId, code, now, f);
            r.2.Err? && r.2.error.SpinGrantFailed? ==>
              && LookupByCode(db.profiles, code, f.lookupFails).Ok?
              && LookupByCode(db.profiles, code, f.lookupFails).value.Some?
              && r.1.referrals == db.referrals
                   + [Referral(LookupByCode(db.profiles, code, f.lookupFails).value.value.id, newUserId, Upper(code), now)]
  {
  }

  /** The cap holds after any referral attempt if it held before. */
  lemma ReferralKeepsCap(st: AuthState, db: Db, newUserId: UserId, code: string, now: int, f: ReferralFaults)
    requires CapRespected(db.referrals)
    ensures CapRespected(ProcessReferral(st, db, newUserId, code, now, f).1.referrals)
  {
    var r := ProcessReferral(st, db, newUserId, code, now, f);
    if r.1.referrals != db.referrals {
      var rid := LookupByCode(db.profiles, code, f.lookupFails).value.value.id;
      var row := Referral(rid, newUserId, Upper(code), now);
      var refs' := db.referrals + [row];
      assert r.1.referrals == refs';
      forall i | 0 <= i < |refs'|
        ensures CountFor(refs', refs'[i].referrerId) <= MaxReferrals
      {
        CountForAppend(db.referrals, row, refs'[i].referrerId);
      }
    }
  }

  /** With a working duplicate check, no (referrer, referred) pair is recorded twice. */
  lemma ReferralKeepsPairsUnique(st: AuthState, db: Db, newUserId: UserId, code: string, now: int, f: ReferralFaults)
    requires PairsUnique(db.referrals) && !f.duplicateCheckFails
    ensures PairsUnique(ProcessReferral(st, db, newUserId, code, now, f).1.referrals)
  {
    var r := ProcessReferral(st, db, newUserId, code, now, f);
    if r.1.referrals != db.referrals {
      var rid := LookupByCode(db.profiles, code, f.lookupFails).value.value.id;
      var refs' := db.referrals + [Referral(rid, newUserId, Upper(code), now)];
      assert r.1.referrals == refs';
      UniquePairsCountOne(db.referrals, rid, newUserId);
      assert !HasPair(db.referrals, rid, newUserId);
    }
  }

  /** Without repeated pairs a pair has at most one row, so the duplicate check,
      when it works, sees exactly the pairs already recorded. */
  lemma {:induction false} UniquePairsCountOne(refs: seq<Referral>, referrer: UserId, referred: UserId)
    requires PairsUnique(refs)
    ensures PairCount(refs, referrer, referred) <= 1
    ensures DuplicateSeen(refs, referrer, referred, false) <==> HasPair(refs, referrer, referred)
  {
    if |refs| > 0 {
      var rest := refs[1..];
      assert PairsUnique(rest) by {
        forall i, j | 0 <= i < j < |rest|
          ensures (rest[i].referrerId, rest[i].referredId) != (rest[j].referrerId, rest[j].referredId)
        {
          assert rest[i] == refs[i + 1] && rest[j] == refs[j + 1];
        }
      }
      UniquePairsCountOne(rest, referrer, referred);
      if refs[0].referrerId == referrer && refs[0].referredId == referred {
        assert !HasPair(rest, referrer, referred) by {
          forall i | 0 <= i < |rest|
            ensures !(rest[i].referrerId == referrer && rest[i].referredId == referred)
          {
            assert rest[i] == refs[i + 1];
          }
        }
      }
    }
  }

  /** Submitting the same referral again after it was credited: the repeat is
      refused as a duplicate, changing nothing, exactly when the first call
      recorded the pair's first row. A table that already held the pair has two
      rows for it afterwards, which `.maybeSingle()` rejects, so the duplicate
      check sees nothing. With a working check on a table without repeated pairs,
      the pair yields exactly one row and one spin. */
  lemma ReferralTwiceCreditsOnce(st: AuthState, db: Db, newUserId: UserId, code: string, now: int, f: ReferralFaults,
                                 st2: AuthState, now2: int, f2: ReferralFaults)
    requires UniqueIds(db.profiles)
    requires ProcessReferral(st, db, newUserId, code, now, f).2.Ok?
    requires !f2.lookupFails && !f2.duplicateCheckFails
    ensures var r1 := ProcessReferral(st, db, newUserId, code, now, f);
            ProcessReferral(st2, r1.1, newUserId, code, now2, f2) == (st2, r1.1, Err(AlreadyReferred))
            <==> !HasPair(db.referrals, r1.2.value, newUserId)
    ensures PairsUnique(db.referrals) && !f.duplicateCheckFails ==>
              var db1 := ProcessReferral(st, db, newUserId, code, now, f).1;
              ProcessReferral(st2, db1, newUserId, code, now2, f2) == (st2, db1, Err(AlreadyReferred))
  {
    var rid := CreditedLookupStable(st, db, newUserId, code, now, f);
    var db1 := ProcessReferral(st, db, newUserId, code, now, f).1;
    RefusedIffSeen(st2, db1, newUserId, code, now2, f2, rid);
    var row := Referral(rid, newUserId, Upper(code), now);
    AppendedPairSeen(db.referrals, row);
    assert db1.referrals == db.referrals + [row];
    assert DuplicateSeen(db1.referrals, rid, newUserId, f2.duplicateCheckFails) <==> !HasPair(db.referrals, rid, newUserId);
    if PairsUnique(db.referrals) && !f.duplicateCheckFails {
      UniquePairsCountOne(db.referrals, rid, newUserId);
    }
  }

  /** After a credited referral the code still finds the same referrer, and the
      referral table is the old one plus the new row. */
  lemma CreditedLookupStable(st: AuthState, db: Db, newUserId: UserId, code: string, now: int, f: ReferralFaults)
    returns (rid: UserId)
    requires UniqueIds(db.profiles)
    requires ProcessReferral(st, db, newUserId, code, now, f).2.Ok?
    ensures rid == ProcessReferral(st, db, newUserId, code, now, f).2.value
    ensures var l := LookupByCode(ProcessReferral(st, db, newUserId, code, now, f).1.profiles, code, false);
            l.Ok? && l.value.Some? && l.value.value.id == rid
    ensures ProcessReferral(st, db, newUserId, code, now, f).1.referrals
              == db.referrals + [Referral(rid, newUserId, Upper(code), now)]
  {
    var before, rows';
    rid, before, rows' := CreditedShape(st, db, newUserId, code, now, f);
    var patch := Patch(None, Some(SpinsOf(before) + 1), now);
    assert rows' == UpdateById(db.profiles, rid, patch);
    LookupAfterUpdate(db.profiles, rid, patch, code, false);
    assert !f.lookupFails;
  }

  /** When the code finds a referrer, the call is refused as a duplicate, changing
      nothing, exactly when the duplicate check sees the pair. */
  lemma RefusedIffSeen(st: AuthState, db: Db, newUserId: UserId, code: string, now: int, f: ReferralFaults, rid: UserId)
    requires var l := LookupByCode(db.profiles, code, f.lookupFails); l.Ok? && l.value.Some? && l.value.value.id == rid
    ensures ProcessReferral(st, db, newUserId, code, now, f) == (st, db, Err(AlreadyReferred))
            <==> DuplicateSeen(db.referrals, rid, newUserId, f.duplicateCheckFails)
  {
  }

  /** After a row is appended, a working duplicate check sees its pair exactly
      when that row is the pair's first. */
  lemma AppendedPairSeen(refs: seq<Referral>, row: Referral)
    ensures DuplicateSeen(refs + [row], row.referrerId, row.referredId, false)
            <==> !HasPair(refs, row.referrerId, row.referredId)
  {
    PairCountAppend(refs, row, row.referrerId, row.referredId);
  }

  /** A referrer already at the cap gets no row and no spin. */
  lemma CapReachedGrantsNothing(st: AuthState, db: Db, newUserId: UserId, code: string, now: int, f: ReferralFaults, referrer: Profile)
    requires LookupByCode(db.profiles, code, f.lookupFails) == Ok(Some(referrer))
    requires CountFor(db.referrals, referrer.id) >= MaxReferrals
    ensures ProcessReferral(st, db, newUserId, code, now, f).2.Err?
    ensures ProcessReferral(st, db, newUserId, code, now, f).1 == db
  {
  }
}
