/** The hosted profile store as the source sees it: a `profiles` table keyed by
    user id, a `referrals` table, and the few queries the core issues against them.
    Transport failures are oracle parameters of the callers. */
module Store {
  import opened Wrappers
  import opened Text

  type UserId = string

  /** One row of `profiles`. `points` and `spins` may be null in the store. */
  datatype Profile = Profile(
    id: UserId,
    displayName: Option<string>,
    points: Option<int>,
    spins: Option<int>,
    referralCode: string,
    updatedAt: int)

  /** One row of `referrals`. */
  datatype Referral = Referral(referrerId: UserId, referredId: UserId, code: string, createdAt: int)

  /** Errors a store call reports. */
  datatype StoreError =
    | Unavailable      // transport failure or a rejected statement
    | NoRows           // `.single()` found no row
    | MultipleRows     // `.single()` / `.maybeSingle()` found more than one row

  /** The source's `profile.points || 0`. */
  function PointsOf(p: Profile): int {
    p.points.GetOr(0)
  }

  /** The source's `profile.spins || 0`. */
  function SpinsOf(p: Profile): int {
    p.spins.GetOr(0)
  }

  /** `id` is the primary key of `profiles`. */
  predicate UniqueIds(rows: seq<Profile>) {
    forall i, j :: 0 <= i < j < |rows| ==> rows[i].id != rows[j].id
  }

  /** No stored balance is negative. */
  predicate Balanced(rows: seq<Profile>) {
    forall i :: 0 <= i < |rows| ==> PointsOf(rows[i]) >= 0 && SpinsOf(rows[i]) >= 0
  }

  predicate HasId(rows: seq<Profile>, id: UserId) {
    exists i :: 0 <= i < |rows| && rows[i].id == id
  }

  /** Position of the first row holding `id`, or `|rows|` when there is none. */
  function IndexOf(rows: seq<Profile>, id: UserId, from: nat := 0): (k: nat)
    requires from <= |rows|
    ensures from <= k <= |rows|
    ensures k < |rows| ==> rows[k].id == id
    ensures forall j :: from <= j < k ==> rows[j].id != id
    decreases |rows| - from
  {
    if from == |rows| || rows[from].id == id then from else IndexOf(rows, id, from + 1)
  }

  /** `select * from profiles where id = :id`. */
  function Find(rows: seq<Profile>, id: UserId): (r: Option<Profile>)
    ensures r.Some? <==> HasId(rows, id)
    ensures r.Some? ==> r.value in rows && r.value.id == id
  {
    var k := IndexOf(rows, id);
    if k < |rows| then Some(rows[k]) else None
  }

  /** Under a primary key, `Find` returns the row holding `id`. */
  lemma FindUnique(rows: seq<Profile>, id: UserId, i: nat)
    requires UniqueIds(rows)
    requires i < |rows| && rows[i].id == id
    ensures Find(rows, id) == Some(rows[i])
  {
  }

  /** The columns one `update` statement sets; absent fields are left alone. */
  datatype Patch = Patch(points: Option<int>, spins: Option<int>, at: int)

  function ApplyPatch(p: Profile, patch: Patch): (q: Profile)
    ensures q.id == p.id && q.displayName == p.displayName && q.referralCode == p.referralCode
    ensures q.updatedAt == patch.at
    ensures q.points == (if patch.points.Some? then patch.points else p.points)
    ensures q.spins == (if patch.spins.Some? then patch.spins else p.spins)
  {
    p.(points := if patch.points.Some? then patch.points else p.points,
       spins := if patch.spins.Some? then patch.spins else p.spins,
       updatedAt := patch.at)
  }

  /** `update profiles set … where id = :id`: every row with that id gets the patch,
      every other row is untouched. */
  function UpdateById(rows: seq<Profile>, id: UserId, patch: Patch): (r: seq<Profile>)
    ensures |r| == |rows|
    ensures forall i :: 0 <= i < |rows| && rows[i].id == id ==> r[i] == ApplyPatch(rows[i], patch)
    ensures forall i :: 0 <= i < |rows| && rows[i].id != id ==> r[i] == rows[i]
  {
    seq(|rows|, i requires 0 <= i < |rows| => if rows[i].id == id then ApplyPatch(rows[i], patch) else rows[i])
  }

  /** An update by id keeps the key set and so the primary key. */
  lemma UpdateKeepsIds(rows: seq<Profile>, id: UserId, patch: Patch)
    ensures forall i :: 0 <= i < |rows| ==> UpdateById(rows, id, patch)[i].id == rows[i].id
    ensures UniqueIds(rows) ==> UniqueIds(UpdateById(rows, id, patch))
  {
  }

  /** Reading a row back after an update by its id yields the patched row. */
  lemma FindAfterUpdate(rows: seq<Profile>, id: UserId, patch: Patch, other: UserId)
    requires UniqueIds(rows)
    ensures Find(UpdateById(rows, id, patch), id) ==
            (if HasId(rows, id) then Some(ApplyPatch(Find(rows, id).value, patch)) else None)
    ensures other != id ==> Find(UpdateById(rows, id, patch), other) == Find(rows, other)
  {
    var r := UpdateById(rows, id, patch);
    UpdateKeepsIds(rows, id, patch);
    if HasId(rows, id) {
      var i :| 0 <= i < |rows| && rows[i].id == id;
      FindUnique(rows, id, i);
      FindUnique(r, id, i);
    } else {
      assert !HasId(r, id);
    }
    if HasId(rows, other) && other != id {
      var j :| 0 <= j < |rows| && rows[j].id == other;
      FindUnique(rows, other, j);
      FindUnique(r, other, j);
    } else if other != id {
      assert !HasId(r, other);
    }
  }

  /** An update by id leaves every other user's row as it was. */
  lemma OthersUntouched(rows: seq<Profile>, userId: UserId, patch: Patch)
    requires UniqueIds(rows)
    ensures forall other :: other != userId ==> Find(UpdateById(rows, userId, patch), other) == Find(rows, other)
  {
    forall other | other != userId
      ensures Find(UpdateById(rows, userId, patch), other) == Find(rows, other)
    {
      FindAfterUpdate(rows, userId, patch, other);
    }
  }

  // ---------------------------------------------------------------------------
  // Referral-code lookup

  /** The intended matching rule for referral codes: equal up to letter case. */
  predicate CodeMatches(stored: string, code: string) {
    SameIgnoringCase(stored, code)
  }

  /** The rows whose referral code matches `code`, in table order. */
  function RowsWithCode(rows: seq<Profile>, code: string): (r: seq<Profile>)
    ensures |r| <= |rows|
    ensures forall p :: p in r <==> p in rows && CodeMatches(p.referralCode, code)
  {
    if |rows| == 0 then []
    else (if CodeMatches(rows[0].referralCode, code) then [rows[0]] else [])
         + RowsWithCode(rows[1..], code)
  }

  /** `.maybeSingle()` over a result set: no row, one row, or an error for several. */
  function MaybeSingle(found: seq<Profile>): (r: Result<Option<Profile>, StoreError>)
    ensures r == Ok(None) <==> |found| == 0
    ensures r.Ok? && r.value.Some? <==> |found| == 1
    ensures r.Ok? && r.value.Some? ==> r.value.value == found[0]
    ensures r.Err? ==> r.error == MultipleRows
  {
    if |found| == 0 then Ok(None)
    else if |found| == 1 then Ok(Some(found[0]))
    else Err(MultipleRows)
  }

  /** Case-insensitive lookup of the profile owning `code`; `fails` is a transport
      failure of the call. */
  function LookupByCode(rows: seq<Profile>, code: string, fails: bool): (r: Result<Option<Profile>, StoreError>)
    ensures fails ==> r == Err(Unavailable)
    ensures r.Ok? && r.value.Some? ==> r.value.value in rows && CodeMatches(r.value.value.referralCode, code)
    ensures !fails && (forall i :: 0 <= i < |rows| ==> !CodeMatches(rows[i].referralCode, code)) ==> r == Ok(None)
  {
    if fails then Err(Unavailable)
    else
      var found := RowsWithCode(rows, code);
      assert |found| > 0 ==> found[0] in found;
      MaybeSingle(found)
  }

  /** Codes are unique up to letter case. */
  predicate CodesDistinct(rows: seq<Profile>) {
    forall i, j :: 0 <= i < j < |rows| ==> !SameIgnoringCase(rows[i].referralCode, rows[j].referralCode)
  }

  lemma {:induction false} NoOwnerNoRows(rows: seq<Profile>, code: string)
    requires forall j :: 0 <= j < |rows| ==> !CodeMatches(rows[j].referralCode, code)
    ensures RowsWithCode(rows, code) == []
  {
    if |rows| > 0 {
      NoOwnerNoRows(rows[1..], code);
    }
  }

  lemma SameIgnoringCaseTransitive(a: string, b: string, c: string)
    requires SameIgnoringCase(a, c) && SameIgnoringCase(b, c)
    ensures SameIgnoringCase(a, b)
  {
  }

  /** With codes unique up to case, at most one row matches a code. */
  lemma {:induction false} AtMostOneOwner(rows: seq<Profile>, code: string)
    requires CodesDistinct(rows)
    ensures |RowsWithCode(rows, code)| <= 1
  {
    if |rows| > 0 {
      AtMostOneOwner(rows[1..], code);
      if CodeMatches(rows[0].referralCode, code) {
        forall j | 1 <= j < |rows|
          ensures !CodeMatches(rows[j].referralCode, code)
        {
          assert !SameIgnoringCase(rows[0].referralCode, rows[j].referralCode);
        }
        NoOwnerNoRows(rows[1..], code);
      }
    }
  }

  /** With codes unique up to case and a working store, the lookup finds a profile
      exactly when one carries the code. */
  lemma LookupFindsOwner(rows: seq<Profile>, code: string)
    requires CodesDistinct(rows)
    ensures LookupByCode(rows, code, false).Ok?
    ensures LookupByCode(rows, code, false).value.Some? <==>
            exists i :: 0 <= i < |rows| && CodeMatches(rows[i].referralCode, code)
  {
    AtMostOneOwner(rows, code);
    var found := RowsWithCode(rows, code);
    if i :| 0 <= i < |rows| && CodeMatches(rows[i].referralCode, code) {
      assert rows[i] in found;
    }
  }

  /** Balance updates do not change which profiles a code lookup finds. */
  lemma {:induction false} RowsWithCodeAfterUpdate(rows: seq<Profile>, id: UserId, patch: Patch, code: string)
    ensures |RowsWithCode(UpdateById(rows, id, patch), code)| == |RowsWithCode(rows, code)|
    ensures forall k :: 0 <= k < |RowsWithCode(rows, code)| ==>
              RowsWithCode(UpdateById(rows, id, patch), code)[k].id == RowsWithCode(rows, code)[k].id
  {
    if |rows| > 0 {
      RowsWithCodeAfterUpdate(rows[1..], id, patch, code);
      RowsWithCodeAfterUpdateStep(rows, id, patch, code);
    }
  }

  /** The inductive step: the first row keeps its id and code under the update. */
  lemma RowsWithCodeAfterUpdateStep(rows: seq<Profile>, id: UserId, patch: Patch, code: string)
    requires |rows| > 0
    requires |RowsWithCode(UpdateById(rows[1..], id, patch), code)| == |RowsWithCode(rows[1..], code)|
    requires forall k :: 0 <= k < |RowsWithCode(rows[1..], code)| ==>
               RowsWithCode(UpdateById(rows[1..], id, patch), code)[k].id == RowsWithCode(rows[1..], code)[k].id
    ensures |RowsWithCode(UpdateById(rows, id, patch), code)| == |RowsWithCode(rows, code)|
    ensures forall k :: 0 <= k < |RowsWithCode(rows, code)| ==>
              RowsWithCode(UpdateById(rows, id, patch), code)[k].id == RowsWithCode(rows, code)[k].id
  {
    var u := UpdateById(rows, id, patch);
    assert u[1..] == UpdateById(rows[1..], id, patch);
    assert u[0].id == rows[0].id && u[0].referralCode == rows[0].referralCode;
  }

  lemma LookupAfterUpdate(rows: seq<Profile>, id: UserId, patch: Patch, code: string, fails: bool)
    ensures var before := LookupByCode(rows, code, fails);
            var after := LookupByCode(UpdateById(rows, id, patch), code, fails);
            && (after.Ok? <==> before.Ok?)
            && (after.Ok? ==> (after.value.Some? <==> before.value.Some?))
            && (after.Ok? && after.value.Some? ==> after.value.value.id == before.value.value.id)
  {
    RowsWithCodeAfterUpdate(rows, id, patch, code);
  }

  // ---------------------------------------------------------------------------
  // The lookup as issued: a case-insensitive LIKE pattern

  /** The source passes the user's code as the pattern of a case-insensitive LIKE:
      `%` matches any run of characters and `_` any one character. The PostgREST
      query interface also reads `*` in a `like` or `ilike` pattern as `%`. */
  function ILike(value: string, pattern: string): bool
    decreases |pattern| + |value|
  {
    if |pattern| == 0 then |value| == 0
    else if pattern[0] == '%' || pattern[0] == '*' then ILike(value, pattern[1..]) || (|value| > 0 && ILike(value[1..], pattern))
    else if |value| == 0 then false
    else if pattern[0] == '_' then ILike(value[1..], pattern[1..])
    else UpperChar(value[0]) == UpperChar(pattern[0]) && ILike(value[1..], pattern[1..])
  }

  predicate NoWildcards(pattern: string) {
    forall k :: 0 <= k < |pattern| ==> pattern[k] != '%' && pattern[k] != '_' && pattern[k] != '*'
  }

  /** Without wildcard characters the pattern match is exactly case-insensitive
      equality, which is what the lookup is meant to do. */
  lemma {:induction false} ILikeWithoutWildcards(value: string, pattern: string)
    requires NoWildcards(pattern)
    ensures ILike(value, pattern) <==> SameIgnoringCase(value, pattern)
    decreases |pattern|
  {
    if |pattern| > 0 && |value| > 0 {
      ILikeWithoutWildcards(value[1..], pattern[1..]);
      if SameIgnoringCase(value, pattern) {
        assert UpperChar(value[0]) == UpperChar(pattern[0]);
        assert SameIgnoringCase(value[1..], pattern[1..]) by {
          forall k | 0 <= k < |value| - 1
            ensures UpperChar(value[1..][k]) == UpperChar(pattern[1..][k])
          {
            assert UpperChar(value[k + 1]) == UpperChar(pattern[k + 1]);
          }
        }
      }
      if ILike(value, pattern) {
        assert SameIgnoringCase(value, pattern) by {
          forall k | 0 <= k < |value|
            ensures UpperChar(value[k]) == UpperChar(pattern[k])
          {
            if k > 0 {
              assert UpperChar(value[1..][k - 1]) == UpperChar(pattern[1..][k - 1]);
            }
          }
        }
      }
    }
  }

  function RowsLike(rows: seq<Profile>, pattern: string): (r: seq<Profile>)
    ensures |r| <= |rows|
    ensures forall p :: p in r <==> p in rows && ILike(p.referralCode, pattern)
  {
    if |rows| == 0 then []
    else (if ILike(rows[0].referralCode, pattern) then [rows[0]] else []) + RowsLike(rows[1..], pattern)
  }

  /** The lookup exactly as issued (`ilike('referral_code', code)` then `.maybeSingle()`). */
  function LookupByCodeAsWritten(rows: seq<Profile>, code: string, fails: bool): (r: Result<Option<Profile>, StoreError>)
    ensures fails ==> r == Err(Unavailable)
    ensures r.Ok? && r.value.Some? ==> r.value.value in rows && ILike(r.value.value.referralCode, code)
    ensures !fails ==> (r.Ok? && r.value.Some? <==> |RowsLike(rows, code)| == 1)
    ensures !fails && |RowsLike(rows, code)| > 1 ==> r == Err(MultipleRows)
    ensures !fails && (forall i :: 0 <= i < |rows| ==> !ILike(rows[i].referralCode, code)) ==> r == Ok(None)
  {
    if fails then Err(Unavailable)
    else
      var found := RowsLike(rows, code);
      assert |found| > 0 ==> found[0] in found;
      MaybeSingle(found)
  }

  /** A code containing `_` is accepted for a profile whose code differs from it:
      "ABC12_XY" finds the owner of "abc123xy", while the exact lookup finds nobody. */
  lemma WildcardCodeFindsStranger()
    ensures var rows := [Profile("u1", None, Some(0), Some(0), "abc123xy", 0)];
            LookupByCodeAsWritten(rows, "ABC12_XY", false) == Ok(Some(rows[0]))
            && LookupByCode(rows, "ABC12_XY", false) == Ok(None)
  {
    var rows := [Profile("u1", None, Some(0), Some(0), "abc123xy", 0)];
    assert ILike("y", "Y");
    assert ILike("xy", "XY");
    assert ILike("3xy", "_XY");
    assert ILike("23xy", "2_XY");
    assert ILike("123xy", "12_XY");
    assert ILike("c123xy", "C12_XY");
    assert ILike("bc123xy", "BC12_XY");
    assert ILike("abc123xy", "ABC12_XY");
    assert !SameIgnoringCase("abc123xy", "ABC12_XY") by {
      assert UpperChar("abc123xy"[5]) != UpperChar("ABC12_XY"[5]);
    }
    assert RowsLike(rows, "ABC12_XY") == [rows[0]];
    assert RowsWithCode(rows, "ABC12_XY") == [];
  }

  /** A code ending in `*` is accepted for every profile whose code starts with the
      rest of it: "ABC*" finds the owner of "abc123xy", while the exact lookup
      finds nobody. */
  lemma StarCodeFindsPrefixOwner()
    ensures var rows := [Profile("u1", None, Some(0), Some(0), "abc123xy", 0)];
            LookupByCodeAsWritten(rows, "ABC*", false) == Ok(Some(rows[0]))
            && LookupByCode(rows, "ABC*", false) == Ok(None)
  {
  }

  // ---------------------------------------------------------------------------
  // Referral rows

  /** How many referral rows name `referrer` as the inviter. */
  function CountFor(refs: seq<Referral>, referrer: UserId): (n: nat)
    ensures n <= |refs|
    ensures n == 0 <==> forall i :: 0 <= i < |refs| ==> refs[i].referrerId != referrer
  {
    if |refs| == 0 then 0
    else (if refs[0].referrerId == referrer then 1 else 0) + CountFor(refs[1..], referrer)
  }

  lemma {:induction false} CountForAppend(refs: seq<Referral>, row: Referral, who: UserId)
    ensures CountFor(refs + [row], who) == CountFor(refs, who) + (if row.referrerId == who then 1 else 0)
  {
    if |refs| == 0 {
      assert refs + [row] == [row];
    } else {
      assert (refs + [row])[1..] == refs[1..] + [row];
      CountForAppend(refs[1..], row, who);
    }
  }

  /** Is there already a row for this (referrer, referred) pair? */
  predicate HasPair(refs: seq<Referral>, referrer: UserId, referred: UserId) {
    exists i :: 0 <= i < |refs| && refs[i].referrerId == referrer && refs[i].referredId == referred
  }

  /** How many referral rows record this (referrer, referred) pair. */
  function PairCount(refs: seq<Referral>, referrer: UserId, referred: UserId): (n: nat)
    ensures n <= |refs|
    ensures n == 0 <==> !HasPair(refs, referrer, referred)
  {
    if |refs| == 0 then 0
    else
      var rest := PairCount(refs[1..], referrer, referred);
      assert forall i :: 1 <= i < |refs| ==> refs[i] == refs[1..][i - 1];
      (if refs[0].referrerId == referrer && refs[0].referredId == referred then 1 else 0) + rest
  }

  /** Inserting a referral row raises its own pair's count by one and no other. */
  lemma {:induction false} PairCountAppend(refs: seq<Referral>, row: Referral, referrer: UserId, referred: UserId)
    ensures PairCount(refs + [row], referrer, referred)
              == PairCount(refs, referrer, referred) + (if row.referrerId == referrer && row.referredId == referred then 1 else 0)
  {
    if |refs| == 0 {
      assert refs + [row] == [row];
    } else {
      assert (refs + [row])[1..] == refs[1..] + [row];
      PairCountAppend(refs[1..], row, referrer, referred);
    }
  }

  /** Both tables. */
  datatype Db = Db(profiles: seq<Profile>, referrals: seq<Referral>)

  /** The store invariants the model keeps: a primary key and no negative balance. */
  predicate Valid(db: Db) {
    UniqueIds(db.profiles) && Balanced(db.profiles)
  }
}
