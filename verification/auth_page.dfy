/** The sign-in / sign-up form: referral-code validation and the gating of the
    `signUp` call on it. */
module AuthPage {
  import opened Wrappers
  import opened Text
  import opened Store
  import Auth

  /** `validateReferralCode(code)`: a blank code is valid with no lookup; otherwise
      the trimmed, upper-cased code is valid iff the case-insensitive lookup finds a
      profile. A failing lookup (error reply or exception) makes it invalid. */
  function ValidateReferralCode(rows: seq<Profile>, code: string, lookupFails: bool): (valid: bool)
    ensures IsBlank(code) ==> valid
    ensures !IsBlank(code) && lookupFails ==> !valid
    ensures !IsBlank(code) && valid ==>
              exists i :: 0 <= i < |rows| && CodeMatches(rows[i].referralCode, NormalizeCode(code))
  {
    if IsBlank(code) then true
    else
      match LookupByCode(rows, NormalizeCode(code), lookupFails)
      case Ok(Some(p)) =>
        assert exists i :: 0 <= i < |rows| && rows[i] == p;
        true
      case _ => false
  }

  /** With codes unique up to case and a working store, a non-blank code is valid
      exactly when some profile's code equals its trimmed form up to letter case. */
  lemma ValidIffOwnerExists(rows: seq<Profile>, code: string)
    requires CodesDistinct(rows)
    ensures ValidateReferralCode(rows, code, false) <==>
              IsBlank(code) || exists i :: 0 <= i < |rows| && SameIgnoringCase(rows[i].referralCode, Trim(code))
  {
    if !IsBlank(code) {
      LookupFindsOwner(rows, NormalizeCode(code));
      forall i | 0 <= i < |rows|
        ensures CodeMatches(rows[i].referralCode, NormalizeCode(code)) <==> SameIgnoringCase(rows[i].referralCode, Trim(code))
      {
        SameIgnoringCaseIffUpperEqual(rows[i].referralCode, NormalizeCode(code));
        SameIgnoringCaseIffUpperEqual(rows[i].referralCode, Trim(code));
        UpperIdempotent(Trim(code));
      }
    }
  }

  /** The form fields the submit handler reads. */
  datatype Form = Form(email: string, password: string, name: string, referralCode: string)

  /** What the submit handler ends up doing. */
  datatype Submission =
    | SignInRequested
    | SignUpBlocked
    | SignUpRequested(referralCode: Option<string>)

  /** `handleSubmit`: the login path signs in without looking at the referral
      code; the sign-up path validates a non-empty code first and calls `signUp`
      only if it is valid, passing an empty code as absent. */
  function HandleSubmit(isLogin: bool, form: Form, rows: seq<Profile>, lookupFails: bool): (r: Submission)
    ensures isLogin <==> r == SignInRequested
    ensures r == SignUpBlocked <==>
              !isLogin && form.referralCode != [] && !ValidateReferralCode(rows, form.referralCode, lookupFails)
    ensures r.SignUpRequested? ==>
              r.referralCode == (if form.referralCode == [] then None else Some(form.referralCode))
  {
    if isLogin then SignInRequested
    else if form.referralCode != [] && !ValidateReferralCode(rows, form.referralCode, lookupFails) then SignUpBlocked
    else SignUpRequested(if form.referralCode == [] then None else Some(form.referralCode))
  }

  /** A white-space-only code passes the form but schedules no referral, and a code
      the form accepted reaches `processReferral` in normalised form. */
  lemma SubmitThenSignUp(form: Form, rows: seq<Profile>, lookupFails: bool, reply: Auth.IdentityReply)
    requires HandleSubmit(false, form, rows, lookupFails).SignUpRequested?
    ensures var sub := HandleSubmit(false, form, rows, lookupFails);
            var res := Auth.SignUp(sub.referralCode, reply);
            && (IsBlank(form.referralCode) ==> res.scheduledReferral.None?)
            && (res.scheduledReferral.Some? ==>
                  res.scheduledReferral.value.1 == NormalizeCode(form.referralCode)
                  && ValidateReferralCode(rows, form.referralCode, lookupFails)
                  && !lookupFails)
  {
  }
}
