/** The leaderboard: the ten profiles with the most points (profiles without a
    points value excluded), ranked from 1 with display defaults, and the icon and
    colour tier of each rank. */
module Leaderboard {
  import opened Wrappers
  import opened Store

  /** Rows shown. */
  const Limit: nat := 10

  /** `.not('points', 'is', null)`: the profiles that have a points value, in
      table order. */
  function WithPoints(rows: seq<Profile>): (r: seq<Profile>)
    ensures forall p :: p in r <==> p in rows && p.points.Some?
    ensures |r| <= |rows|
  {
    if |rows| == 0 then []
    else if rows[0].points.Some? then [rows[0]] + WithPoints(rows[1..])
    else WithPoints(rows[1..])
  }

  /** Ordered by points, highest first. */
  predicate Descending(s: seq<Profile>) {
    forall i, j :: 0 <= i < j < |s| ==> PointsOf(s[i]) >= PointsOf(s[j])
  }

  function Min(a: nat, b: nat): nat {
    if a <= b then a else b
  }

  /** What the query promises of its `result` for the table `rows`: only
      profiles with points, at most ten of them (fewer only when fewer exist),
      highest first, and nobody left out has more points than anybody shown.
      Ties may come in any order. */
  predicate TopQuery(rows: seq<Profile>, result: seq<Profile>) {
    var eligible := WithPoints(rows);
    && multiset(result) <= multiset(eligible)
    && |result| == Min(Limit, |eligible|)
    && Descending(result)
    && (forall p, q :: p in multiset(eligible) - multiset(result) && q in result ==> PointsOf(p) <= PointsOf(q))
  }

  /** Putting a profile with at least the head's points in front keeps the order. */
  lemma DescendingCons(a: Profile, t: seq<Profile>)
    requires Descending(t) && (|t| == 0 || PointsOf(t[0]) <= PointsOf(a))
    ensures Descending([a] + t)
  {
    var r := [a] + t;
    forall i, j | 0 <= i < j < |r|
      ensures PointsOf(r[i]) >= PointsOf(r[j])
    {
      assert r[j] == t[j - 1];
      if i > 0 {
        assert r[i] == t[i - 1];
      }
    }
  }

  /** Insert one profile into a list ordered highest first; the new head is the
      inserted profile or the old head. */
  function Insert(p: Profile, s: seq<Profile>): (r: seq<Profile>)
    requires Descending(s)
    ensures multiset(r) == multiset(s) + multiset{p}
    ensures |r| == |s| + 1
    ensures Descending(r)
    ensures r[0] == p || (|s| > 0 && r[0] == s[0])
  {
    if |s| == 0 then [p]
    else if PointsOf(p) >= PointsOf(s[0]) then
      DescendingCons(p, s);
      [p] + s
    else
      var tail := Insert(p, s[1..]);
      DescendingCons(s[0], tail);
      assert s == [s[0]] + s[1..];
      [s[0]] + tail
  }

  /** Insertion sort, highest points first. */
  function SortDesc(s: seq<Profile>): (r: seq<Profile>)
    ensures multiset(r) == multiset(s) && |r| == |s|
    ensures Descending(r)
  {
    if |s| == 0 then []
    else
      assert s == [s[0]] + s[1..];
      Insert(s[0], SortDesc(s[1..]))
  }

  /** A reference answer to the query: sort the eligible profiles and keep the first ten. */
  function Top(rows: seq<Profile>): seq<Profile> {
    var sorted := SortDesc(WithPoints(rows));
    sorted[..Min(Limit, |sorted|)]
  }

  /** The reference answer meets the query's contract, so the contract can be met
      for every table. */
  lemma TopMeetsQuery(rows: seq<Profile>)
    ensures TopQuery(rows, Top(rows))
  {
    var eligible := WithPoints(rows);
    var sorted := SortDesc(eligible);
    var n := Min(Limit, |sorted|);
    PrefixOutranksRest(sorted, n);
    assert sorted[..n] == Top(rows);
  }

  /** Cutting a list ordered highest first: what is cut off is what is left of the
      whole after the prefix, and none of it outranks anything in the prefix. */
  lemma PrefixOutranksRest(sorted: seq<Profile>, n: nat)
    requires Descending(sorted) && n <= |sorted|
    ensures multiset(sorted[..n]) <= multiset(sorted)
    ensures Descending(sorted[..n])
    ensures forall p, q :: p in multiset(sorted) - multiset(sorted[..n]) && q in sorted[..n] ==> PointsOf(p) <= PointsOf(q)
  {
    CutOff(sorted, n);
    forall p, q | p in multiset(sorted[n..]) && q in sorted[..n]
      ensures PointsOf(p) <= PointsOf(q)
    {
      var i :| n <= i < |sorted| && sorted[i] == p;
      var j :| 0 <= j < n && sorted[j] == q;
    }
  }

  /** What a prefix leaves of the whole is the rest of the list. */
  lemma CutOff(s: seq<Profile>, n: nat)
    requires n <= |s|
    ensures multiset(s[..n]) <= multiset(s)
    ensures multiset(s) - multiset(s[..n]) == multiset(s[n..])
  {
    assert s == s[..n] + s[n..];
  }

  /** A leaderboard line. */
  datatype Entry = Entry(id: UserId, displayName: string, points: int, rank: nat)

  const AnonymousName: string := "Anonymous Gamer"

  /** `display_name || 'Anonymous Gamer'`: a missing or empty name shows as the
      default, any other name as itself. */
  function ShownName(name: Option<string>): (shown: string)
    ensures shown != ""
    ensures name.Some? && name.value != "" ==> shown == name.value
    ensures name.None? || name.value == "" ==> shown == AnonymousName
  {
    if name.Some? && name.value != "" then name.value else AnonymousName
  }

  /** Rank assignment: the row at position `i` gets rank `i + 1`; a missing or
      empty name shows as "Anonymous Gamer" and missing points as 0. */
  function Ranked(data: seq<Profile>): (es: seq<Entry>)
    ensures |es| == |data|
    ensures forall i :: 0 <= i < |es| ==> es[i].rank == i + 1 && es[i].id == data[i].id
    ensures forall i :: 0 <= i < |es| ==> es[i].displayName != ""
    ensures forall i :: 0 <= i < |es| ==>
              es[i].displayName == (if data[i].displayName.Some? && data[i].displayName.value != ""
                                    then data[i].displayName.value else AnonymousName)
    ensures forall i :: 0 <= i < |es| ==> es[i].points == PointsOf(data[i])
  {
    seq(|data|, i requires 0 <= i < |data| =>
      Entry(data[i].id, ShownName(data[i].displayName), PointsOf(data[i]), i + 1))
  }

  /** On a query result, ranks run 1, 2, … without gaps, better ranks never have
      fewer points, and every shown points value is the stored one. */
  lemma RankedQueryOrder(rows: seq<Profile>, result: seq<Profile>)
    requires TopQuery(rows, result)
    ensures var es := Ranked(result);
            && |es| <= Limit
            && (forall i, j :: 0 <= i < j < |es| ==> es[i].rank < es[j].rank && es[i].points >= es[j].points)
            && (forall i :: 0 <= i < |es| ==> Some(es[i].points) == result[i].points)
  {
    forall i | 0 <= i < |result|
      ensures result[i].points.Some?
    {
      assert result[i] in multiset(WithPoints(rows));
    }
  }

  /** `fetchLeaderboard`: a failed query leaves the current list as it was. */
  function Load(current: seq<Entry>, answer: Result<seq<Profile>, StoreError>): (es: seq<Entry>)
    ensures answer.Err? ==> es == current
    ensures answer.Ok? ==> es == Ranked(answer.value)
  {
    match answer
    case Err(_) => current
    case Ok(data) => Ranked(data)
  }

  datatype Icon = Crown | Trophy | Medal | Award

  /** `getRankIcon`. */
  function RankIcon(rank: int): (icon: Icon)
    ensures (icon == Crown <==> rank == 1) && (icon == Trophy <==> rank == 2) && (icon == Medal <==> rank == 3)
    ensures icon == Award <==> !(1 <= rank <= 3)
  {
    if rank == 1 then Crown else if rank == 2 then Trophy else if rank == 3 then Medal else Award
  }

  /** `getRankGradient`. */
  function RankGradient(rank: int): (gradient: string)
    ensures gradient == "from-gray-600 to-gray-800" <==> !(1 <= rank <= 3)
  {
    if rank == 1 then "from-yellow-400 to-orange-500"
    else if rank == 2 then "from-gray-300 to-gray-500"
    else if rank == 3 then "from-orange-400 to-red-500"
    else "from-gray-600 to-gray-800"
  }

  /** The podium ranks each have their own icon and gradient, distinct from each
      other and from everyone else's; all other ranks share one tier. */
  lemma PodiumTiers(a: int, b: int)
    ensures 1 <= a <= 3 && a != b ==> RankIcon(a) != RankIcon(b) && RankGradient(a) != RankGradient(b)
    ensures !(1 <= a <= 3) && !(1 <= b <= 3) ==> RankIcon(a) == RankIcon(b) && RankGradient(a) == RankGradient(b)
  {
  }
}
