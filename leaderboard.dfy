/** The mentor leaderboard: group the completed, claimed tickets by the
    mentor who completed them, score each mentor with Laplace smoothing,
    sort by score (highest first, ties in first-seen order), number the
    rows from zero and keep the first `num`. */
module Leaderboard {
  import opened Domain

  /** The smoothing constants: alpha pseudo-points over beta pseudo-ratings. */
  const Alpha: int := 6
  const Beta: int := 2

  /** The number of rows the leaderboard template asks for. */
  const DefaultRows: int := 10

  // ---------------------------------------------------------------------
  // Which tickets count, and for whom
  // ---------------------------------------------------------------------

  /** `if (t.claimId)`: a claim id counts when it is present and non-empty. */
  predicate ClaimTruthy(c: Option<Id>)
  {
    c.Some? && c.value != ""
  }

  /** A ticket takes part in the ranking when it is COMPLETE and claimed. */
  predicate Qualifies(t: Ticket)
  {
    t.status == Complete && ClaimTruthy(t.claimId)
  }

  /** Ticket t adds one rating to mentor m. */
  predicate Contributes(t: Ticket, m: Id)
  {
    Qualifies(t) && t.claimId.value == m
  }

  /** The tickets of ts that satisfy p, in order (a store query). */
  function Keep(ts: seq<Ticket>, p: Ticket -> bool): (r: seq<Ticket>)
    ensures |r| <= |ts|
    ensures forall i :: 0 <= i < |r| ==> p(r[i])
    ensures forall t :: t in ts && p(t) ==> t in r
    ensures forall t :: t in r ==> t in ts
  {
    if ts == [] then []
    else if p(ts[|ts| - 1]) then Keep(ts[..|ts| - 1], p) + [ts[|ts| - 1]]
    else Keep(ts[..|ts| - 1], p)
  }

  predicate IsComplete(t: Ticket)
  {
    t.status == Complete
  }

  /** `Tickets.find({status: "COMPLETE"})`: exactly the COMPLETE tickets, and
      nothing the leaderboard needs is lost. */
  function Completed(ts: seq<Ticket>): (r: seq<Ticket>)
    ensures forall t :: t in r <==> t in ts && t.status == Complete
    ensures MentorIds(r) == MentorIds(ts)
    ensures forall m :: RatingsOf(r, m) == RatingsOf(ts, m)
  {
    KeepPreservesRanking(ts, IsComplete);
    Keep(ts, IsComplete)
  }

  /** The ratings mentor m collects, in ticket order (missing ones included,
      as `ratings.push(t.rating)` pushes them too). */
  function RatingsOf(ts: seq<Ticket>, m: Id): (r: seq<Option<int>>)
    ensures |r| <= |ts|
    ensures forall x :: x in r ==> exists i :: 0 <= i < |ts| && Contributes(ts[i], m) && ts[i].rating == x
  {
    if ts == [] then []
    else
      RatingsOf(ts[..|ts| - 1], m) +
      (if Contributes(ts[|ts| - 1], m) then [ts[|ts| - 1].rating] else [])
  }

  /** The mentors with at least one qualifying ticket, in the order their
      first such ticket appears (the key order of the `mentors` object). */
  function MentorIds(ts: seq<Ticket>): (r: seq<Id>)
    ensures |r| <= |ts|
    ensures forall i :: 0 <= i < |r| ==> r[i] != ""
  {
    if ts == [] then []
    else
      var seen := MentorIds(ts[..|ts| - 1]);
      var t := ts[|ts| - 1];
      if Qualifies(t) && t.claimId.value !in seen then seen + [t.claimId.value] else seen
  }

  predicate Distinct(s: seq<Id>)
  {
    forall i, j :: 0 <= i < j < |s| ==> s[i] != s[j]
  }

  /** The indices of the tickets mentor m completed. */
  function ContributionsOf(ts: seq<Ticket>, m: Id): set<int>
  {
    set i | 0 <= i < |ts| && Contributes(ts[i], m)
  }

  lemma {:induction false} MentorIdsDistinct(ts: seq<Ticket>)
    ensures Distinct(MentorIds(ts))
  {
    if ts != [] {
      MentorIdsDistinct(ts[..|ts| - 1]);
    }
  }

  /** A mentor is listed exactly when some ticket of theirs qualifies, and
      then they have at least one rating entry. */
  lemma {:induction false} MentorIdsAreContributors(ts: seq<Ticket>, m: Id)
    ensures m in MentorIds(ts) <==> RatingsOf(ts, m) != []
    ensures m in MentorIds(ts) <==> exists i :: 0 <= i < |ts| && Contributes(ts[i], m)
  {
    if ts != [] {
      var n := |ts| - 1;
      MentorIdsAreContributors(ts[..n], m);
      if m in MentorIds(ts[..n]) {
        var i :| 0 <= i < n && Contributes(ts[..n][i], m);
        assert Contributes(ts[i], m);
      }
      if exists i :: 0 <= i < |ts| && Contributes(ts[i], m) {
        var i :| 0 <= i < |ts| && Contributes(ts[i], m);
        if i < n {
          assert Contributes(ts[..n][i], m);
        }
      }
    }
  }

  /** The number of entries collected for a mentor is the number of tickets
      that mentor completed (`numTickets`). */
  lemma {:induction false} RatingsOfCountsTickets(ts: seq<Ticket>, m: Id)
    ensures |RatingsOf(ts, m)| == |ContributionsOf(ts, m)|
  {
    if ts != [] {
      var n := |ts| - 1;
      RatingsOfCountsTickets(ts[..n], m);
      var before := ContributionsOf(ts[..n], m);
      var after := ContributionsOf(ts, m);
      assert forall i :: 0 <= i < n ==> ts[..n][i] == ts[i];
      if Contributes(ts[n], m) {
        assert after == before + {n};
      } else {
        assert after == before;
      }
    }
  }

  /** Dropping tickets that do not qualify changes neither the mentors nor
      their ratings: only COMPLETE tickets with a claim id contribute. */
  lemma {:induction false} KeepPreservesRanking(ts: seq<Ticket>, p: Ticket -> bool)
    requires forall t :: Qualifies(t) ==> p(t)
    ensures MentorIds(Keep(ts, p)) == MentorIds(ts)
    ensures forall m :: RatingsOf(Keep(ts, p), m) == RatingsOf(ts, m)
  {
    if ts != [] {
      var n := |ts| - 1;
      KeepPreservesRanking(ts[..n], p);
      var k := Keep(ts[..n], p);
      if p(ts[n]) {
        assert Keep(ts, p) == k + [ts[n]];
        assert (k + [ts[n]])[..|k|] == k;
      }
    }
  }

  // ---------------------------------------------------------------------
  // Grouping: the forEach that fills the `mentors` dictionary
  // ---------------------------------------------------------------------

  /** What one more ticket adds to the mentors and their ratings. */
  lemma PrefixStep(ts: seq<Ticket>, i: int)
    requires 0 <= i < |ts|
    ensures MentorIds(ts[..i + 1]) ==
      if Qualifies(ts[i]) && ts[i].claimId.value !in MentorIds(ts[..i])
      then MentorIds(ts[..i]) + [ts[i].claimId.value] else MentorIds(ts[..i])
    ensures forall m :: RatingsOf(ts[..i + 1], m) ==
                        RatingsOf(ts[..i], m) + (if Contributes(ts[i], m) then [ts[i].rating] else [])
  {
    assert ts[..i + 1][..i] == ts[..i];
  }

  /** The dictionary after the first i tickets: its keys, in order, and each
      key's list of ratings. */
  ghost predicate GroupedPrefix(ts: seq<Ticket>, i: int, ids: seq<Id>, groups: map<Id, seq<Option<int>>>)
    requires 0 <= i <= |ts|
  {
    && ids == MentorIds(ts[..i])
    && (forall m :: m in groups <==> m in ids)
    && (forall m :: m in groups ==> groups[m] == RatingsOf(ts[..i], m))
    && (forall m :: m !in groups ==> RatingsOf(ts[..i], m) == [])
  }

  /** A turn of the forEach on a ticket with a claim id: the rating is pushed
      onto that mentor's list, created first if the mentor is new. */
  lemma GroupStepClaimed(ts: seq<Ticket>, i: int, ids: seq<Id>, groups: map<Id, seq<Option<int>>>)
    requires 0 <= i < |ts| && ts[i].status == Complete && ClaimTruthy(ts[i].claimId)
    requires GroupedPrefix(ts, i, ids, groups)
    ensures var m := ts[i].claimId.value;
            var collected := if m in groups then groups[m] else [];
            GroupedPrefix(ts, i + 1, if m in groups then ids else ids + [m], groups[m := collected + [ts[i].rating]])
  {
    PrefixStep(ts, i);
    var m := ts[i].claimId.value;
    var collected := if m in groups then groups[m] else [];
    var after := groups[m := collected + [ts[i].rating]];
    assert Contributes(ts[i], m);
    forall k | k in after ensures after[k] == RatingsOf(ts[..i + 1], k) {
      if k != m {
        assert !Contributes(ts[i], k);
      }
    }
    forall k | k !in after ensures RatingsOf(ts[..i + 1], k) == [] {
      assert !Contributes(ts[i], k);
    }
  }

  /** A turn of the forEach on a ticket without a claim id changes nothing. */
  lemma GroupStepSkipped(ts: seq<Ticket>, i: int, ids: seq<Id>, groups: map<Id, seq<Option<int>>>)
    requires 0 <= i < |ts| && !ClaimTruthy(ts[i].claimId)
    requires GroupedPrefix(ts, i, ids, groups)
    ensures GroupedPrefix(ts, i + 1, ids, groups)
  {
    PrefixStep(ts, i);
    assert !Qualifies(ts[i]);
  }

  /** Walks the COMPLETE tickets once, creating a group for each new claim id
      and pushing the ticket's rating onto it. `ids` is the key order of the
      dictionary. */
  method GroupByMentor(completed: seq<Ticket>) returns (ids: seq<Id>, groups: map<Id, seq<Option<int>>>)
    requires forall i :: 0 <= i < |completed| ==> completed[i].status == Complete
    ensures ids == MentorIds(completed)
    ensures forall m :: m in groups <==> m in ids
    ensures forall m :: m in groups ==> groups[m] == RatingsOf(completed, m)
  {
    ids, groups := [], map[];
    var i := 0;
    while i < |completed|
      invariant 0 <= i <= |completed|
      invariant GroupedPrefix(completed, i, ids, groups)
    {
      var t := completed[i];
      if ClaimTruthy(t.claimId) {
        GroupStepClaimed(completed, i, ids, groups);
        var m := t.claimId.value;
        var collected := if m in groups then groups[m] else [];
        if m !in groups {
          ids := ids + [m];
        }
        groups := groups[m := collected + [t.rating]];
      } else {
        GroupStepSkipped(completed, i, ids, groups);
      }
      i := i + 1;
    }
    assert completed[..i] == completed;
  }

  // ---------------------------------------------------------------------
  // Scoring: laplaceSmooth
  // ---------------------------------------------------------------------

  /** `stats.sum` over the collected ratings; a missing rating adds 0. */
  function Sum(xs: seq<Option<int>>): int
  {
    if xs == [] then 0
    else (if xs[0].Some? then xs[0].value else 0) + Sum(xs[1..])
  }

  lemma NearestTenth(num: int, den: int)
    requires den > 0
    ensures var t := (20 * num + den) / (2 * den);
            (2 * t - 1) * den <= 20 * num < (2 * t + 1) * den
  {
    var a := 20 * num + den;
    var d := 2 * den;
    var t := a / d;
    var r := a % d;
    assert a == d * t + r && 0 <= r < d;
    assert (2 * t - 1) * den == d * t - den;
    assert (2 * t + 1) * den == d * t + den;
  }

  /** `(num / den).toFixed(1)` as a number of tenths: the tenth nearest to
      num / den, the larger one on an exact tie. */
  function RoundTenths(num: int, den: int): (t: int)
    requires den > 0
    ensures (2 * t - 1) * den <= 20 * num < (2 * t + 1) * den
  {
    NearestTenth(num, den);
    (20 * num + den) / (2 * den)
  }

  /** Dividing both sides of p * d < q * d by a positive d. */
  lemma CancelPositive(p: int, q: int, d: int)
    requires d > 0 && p * d < q * d
    ensures p < q
  {
    assert (q - p) * d == q * d - p * d;
  }

  /** The two bounds of RoundTenths pick out a single number of tenths. */
  lemma RoundTenthsUnique(num: int, den: int, t: int)
    requires den > 0
    requires (2 * t - 1) * den <= 20 * num < (2 * t + 1) * den
    ensures t == RoundTenths(num, den)
  {
    var u := RoundTenths(num, den);
    CancelPositive(2 * t - 1, 2 * u + 1, den);
    CancelPositive(2 * u - 1, 2 * t + 1, den);
  }

  /** laplaceSmooth(x): (sum(x) + 6) / (|x| + 2) to one decimal, in tenths. */
  function LaplaceSmooth(x: seq<Option<int>>): (tenths: int)
    ensures (2 * tenths - 1) * (|x| + Beta) <= 20 * (Sum(x) + Alpha) < (2 * tenths + 1) * (|x| + Beta)
  {
    RoundTenths(Sum(x) + Alpha, |x| + Beta)
  }

  /** No ratings at all gives the neutral score 3.0. */
  lemma LaplaceSmoothEmpty()
    ensures LaplaceSmooth([]) == 30
  {
    RoundTenthsUnique(Alpha, Beta, 30);
  }

  /** Three 5-star ratings score 4.2; a single 3-star rating scores 3.0. */
  lemma LaplaceSmoothExamples()
    ensures LaplaceSmooth([Some(5), Some(5), Some(5)]) == 42
    ensures LaplaceSmooth([Some(3)]) == 30
  {
    assert Sum([Some(5), Some(5), Some(5)]) == 15 by {
      assert [Some(5), Some(5), Some(5)][1..] == [Some(5), Some(5)];
      assert [Some(5), Some(5)][1..] == [Some(5)];
    }
    RoundTenthsUnique(21, 5, 42);
    assert Sum([Some(3)]) == 3 by {
      assert [Some(3)][1..] == [];
    }
    RoundTenthsUnique(9, 3, 30);
  }

  predicate StarRatings(x: seq<Option<int>>)
  {
    forall i :: 0 <= i < |x| ==> x[i].Some? && 1 <= x[i].value <= 5
  }

  lemma {:induction false} SumOfStars(x: seq<Option<int>>)
    requires StarRatings(x)
    ensures |x| <= Sum(x) <= 5 * |x|
  {
    if x != [] {
      assert StarRatings(x[1..]) by {
        forall i | 0 <= i < |x[1..]| ensures x[1..][i].Some? && 1 <= x[1..][i].value <= 5 {
          assert x[1..][i] == x[i + 1];
        }
      }
      SumOfStars(x[1..]);
    }
  }

  /** With every rating between 1 and 5 stars the score lies in 1.0 .. 5.0. */
  lemma LaplaceSmoothBounds(x: seq<Option<int>>)
    requires StarRatings(x)
    ensures 10 <= LaplaceSmooth(x) <= 50
  {
    SumOfStars(x);
    var t := LaplaceSmooth(x);
    var n := |x| + 2;
    var s := Sum(x) + 6;
    assert (2 * t - 1) * n < 100 * n;
    CancelPositive(2 * t - 1, 100, n);
    assert 20 * n < (2 * t + 1) * n;
    CancelPositive(20, 2 * t + 1, n);
  }

  // ---------------------------------------------------------------------
  // Rows, sorting, numbering and truncation
  // ---------------------------------------------------------------------

  /** One row of the leaderboard before numbering: the mentor (kept so that
      the properties below can speak of it), the mentor's profile, the score
      in tenths and the number of tickets. */
  datatype MentorScore = MentorScore(mentorId: Id, profile: Profile, rating: int, numTickets: nat)

  /** A row after `mentor.index = idx`. */
  datatype RankedMentor = RankedMentor(mentor: MentorScore, index: nat)

  function Score(id: Id, ratings: seq<Option<int>>, user: User): MentorScore
  {
    MentorScore(id, user.profile, LaplaceSmooth(ratings), |ratings|)
  }

  predicate NonIncreasing(s: seq<MentorScore>)
  {
    forall i, j :: 0 <= i < j < |s| ==> s[i].rating >= s[j].rating
  }

  predicate DistinctMentors(s: seq<MentorScore>)
  {
    forall i, j :: 0 <= i < j < |s| ==> s[i].mentorId != s[j].mentorId
  }

  /** The rows of s with score k, in order. */
  function WithRating(s: seq<MentorScore>, k: int): seq<MentorScore>
  {
    if s == [] then []
    else (if s[0].rating == k then [s[0]] else []) + WithRating(s[1..], k)
  }

  /** Places x in front of the first row that does not score more. */
  function Insert(x: MentorScore, s: seq<MentorScore>): (r: seq<MentorScore>)
    ensures |r| == |s| + 1
    ensures forall e :: e in r <==> e == x || e in s
  {
    if s == [] || x.rating >= s[0].rating then [x] + s
    else [s[0]] + Insert(x, s[1..])
  }

  /** `sort((a, b) => b.rating - a.rating)`: a stable sort, highest first. */
  function SortByRating(s: seq<MentorScore>): (r: seq<MentorScore>)
    ensures |r| == |s|
    ensures forall e :: e in r <==> e in s
  {
    if s == [] then [] else Insert(s[0], SortByRating(s[1..]))
  }

  lemma {:induction false} InsertPermutes(x: MentorScore, s: seq<MentorScore>)
    ensures multiset(Insert(x, s)) == multiset([x] + s)
  {
    if s != [] && x.rating < s[0].rating {
      InsertPermutes(x, s[1..]);
      assert s == [s[0]] + s[1..];
    }
  }

  /** A row scoring at least every row of a sorted list can go in front. */
  lemma ConsSorted(y: MentorScore, rest: seq<MentorScore>)
    requires NonIncreasing(rest)
    requires forall e :: e in rest ==> e.rating <= y.rating
    ensures NonIncreasing([y] + rest)
  {
    forall i, j | 0 <= i < j < |[y] + rest|
      ensures ([y] + rest)[i].rating >= ([y] + rest)[j].rating
    {
      assert ([y] + rest)[j] == rest[j - 1];
      assert rest[j - 1] in rest;
      if i > 0 {
        assert ([y] + rest)[i] == rest[i - 1];
      }
    }
  }

  lemma TailSorted(s: seq<MentorScore>)
    requires NonIncreasing(s) && s != []
    ensures NonIncreasing(s[1..])
    ensures forall e :: e in s ==> e.rating <= s[0].rating
  {
    forall i, j | 0 <= i < j < |s[1..]| ensures s[1..][i].rating >= s[1..][j].rating {
      assert s[1..][i] == s[i + 1] && s[1..][j] == s[j + 1];
    }
    forall e | e in s ensures e.rating <= s[0].rating {
      var j :| 0 <= j < |s| && s[j] == e;
    }
  }

  lemma {:induction false} InsertSorted(x: MentorScore, s: seq<MentorScore>)
    requires NonIncreasing(s)
    ensures NonIncreasing(Insert(x, s))
  {
    if s == [] {
      ConsSorted(x, s);
    } else if x.rating >= s[0].rating {
      TailSorted(s);
      ConsSorted(x, s);
    } else {
      TailSorted(s);
      InsertSorted(x, s[1..]);
      InsertPermutes(x, s[1..]);
      var rest := Insert(x, s[1..]);
      forall e | e in rest ensures e.rating <= s[0].rating {
        assert e in multiset([x] + s[1..]);
        assert e == x || e in s[1..];
      }
      ConsSorted(s[0], rest);
    }
  }

  lemma {:induction false} InsertStable(x: MentorScore, s: seq<MentorScore>, k: int)
    ensures WithRating(Insert(x, s), k) == WithRating([x] + s, k)
  {
    if s != [] && x.rating < s[0].rating {
      InsertStable(x, s[1..], k);
      assert ([s[0]] + Insert(x, s[1..]))[1..] == Insert(x, s[1..]);
      assert ([x] + s[1..])[1..] == s[1..];
      assert ([x] + s)[1..] == s;
      assert s == [s[0]] + s[1..];
      assert ([s[0]] + s[1..])[1..] == s[1..];
    } else {
      assert ([x] + s)[1..] == s;
    }
  }

  /** A row whose mentor is absent from a distinct list can go in front. */
  lemma ConsDistinct(y: MentorScore, rest: seq<MentorScore>)
    requires DistinctMentors(rest)
    requires forall e :: e in rest ==> e.mentorId != y.mentorId
    ensures DistinctMentors([y] + rest)
  {
    forall i, j | 0 <= i < j < |[y] + rest|
      ensures ([y] + rest)[i].mentorId != ([y] + rest)[j].mentorId
    {
      assert ([y] + rest)[j] == rest[j - 1];
      assert rest[j - 1] in rest;
      if i > 0 {
        assert ([y] + rest)[i] == rest[i - 1];
      }
    }
  }

  lemma TailDistinct(s: seq<MentorScore>)
    requires DistinctMentors(s) && s != []
    ensures DistinctMentors(s[1..])
    ensures forall e :: e in s[1..] ==> e.mentorId != s[0].mentorId
  {
    forall i, j | 0 <= i < j < |s[1..]| ensures s[1..][i].mentorId != s[1..][j].mentorId {
      assert s[1..][i] == s[i + 1] && s[1..][j] == s[j + 1];
    }
    forall e | e in s[1..] ensures e.mentorId != s[0].mentorId {
      var j :| 0 <= j < |s[1..]| && s[1..][j] == e;
      assert s[j + 1] == e;
    }
  }

  lemma {:induction false} InsertDistinct(x: MentorScore, s: seq<MentorScore>)
    requires DistinctMentors(s)
    requires forall e :: e in s ==> e.mentorId != x.mentorId
    ensures DistinctMentors(Insert(x, s))
  {
    if s != [] && x.rating < s[0].rating {
      TailDistinct(s);
      InsertDistinct(x, s[1..]);
      InsertPermutes(x, s[1..]);
      var rest := Insert(x, s[1..]);
      forall e | e in rest ensures e.mentorId != s[0].mentorId {
        assert e in multiset([x] + s[1..]);
      }
      ConsDistinct(s[0], rest);
    } else {
      ConsDistinct(x, s);
    }
  }

  /** The sort orders by score, rearranges without adding or losing rows,
      and keeps rows of equal score in their original order. */
  lemma {:induction false} SortByRatingCorrect(s: seq<MentorScore>)
    ensures NonIncreasing(SortByRating(s))
    ensures multiset(SortByRating(s)) == multiset(s)
    ensures forall k :: WithRating(SortByRating(s), k) == WithRating(s, k)
  {
    if s != [] {
      SortByRatingCorrect(s[1..]);
      var sorted := SortByRating(s[1..]);
      InsertSorted(s[0], sorted);
      InsertPermutes(s[0], sorted);
      assert s == [s[0]] + s[1..];
      forall k ensures WithRating(SortByRating(s), k) == WithRating(s, k) {
        InsertStable(s[0], sorted, k);
        assert ([s[0]] + sorted)[1..] == sorted;
      }
    }
  }

  lemma {:induction false} SortByRatingDistinct(s: seq<MentorScore>)
    requires DistinctMentors(s)
    ensures DistinctMentors(SortByRating(s))
  {
    if s != [] {
      TailDistinct(s);
      SortByRatingDistinct(s[1..]);
      SortByRatingCorrect(s[1..]);
      var sorted := SortByRating(s[1..]);
      forall e | e in sorted ensures e.mentorId != s[0].mentorId {
        assert e in multiset(sorted);
      }
      InsertDistinct(s[0], sorted);
    }
  }

  /** `.map((mentor, idx) => { mentor.index = idx; ... })`. */
  function Stamp(s: seq<MentorScore>): (r: seq<RankedMentor>)
    ensures |r| == |s|
    ensures forall i :: 0 <= i < |r| ==> r[i].index == i && r[i].mentor == s[i]
  {
    seq(|s|, i requires 0 <= i < |s| => RankedMentor(s[i], i))
  }

  /** Where `slice(0, num)` stops on a list of length len. */
  function SliceEnd(len: nat, num: int): (end: nat)
    ensures end <= len
  {
    if num < 0 then (if len + num < 0 then 0 else len + num)
    else if num < len then num else len
  }

  /** `slice(0, num)`. */
  function Take<T>(s: seq<T>, num: int): (r: seq<T>)
    ensures |r| == SliceEnd(|s|, num)
    ensures 0 <= num ==> |r| == if num < |s| then num else |s|
    ensures forall i :: 0 <= i < |r| ==> r[i] == s[i]
  {
    s[..SliceEnd(|s|, num)]
  }

  // ---------------------------------------------------------------------
  // The whole ranking
  // ---------------------------------------------------------------------

  predicate AllKnown(ts: seq<Ticket>, users: map<Id, User>)
  {
    forall m :: m in MentorIds(ts) ==> m in users
  }

  /** One row per mentor, in first-seen order. */
  function ScoredMentors(ts: seq<Ticket>, users: map<Id, User>): (r: seq<MentorScore>)
    requires AllKnown(ts, users)
    ensures |r| == |MentorIds(ts)|
    ensures forall i :: 0 <= i < |r| ==> r[i].mentorId == MentorIds(ts)[i] && Describes(r[i], ts, users)
  {
    var ids := MentorIds(ts);
    seq(|ids|, i requires 0 <= i < |ids| => Score(ids[i], RatingsOf(ts, ids[i]), users[ids[i]]))
  }

  /** topMentors(num) over the ticket collection `ts` (in its natural order)
      and the user collection: fails when a ranked mentor has no account,
      where `Meteor.users.findOne(...).profile` throws. */
  function Ranking(ts: seq<Ticket>, users: map<Id, User>, num: int): (r: Result<seq<RankedMentor>>)
    ensures r.Ok? ==> |r.value| <= |MentorIds(ts)|
    ensures r.Ok? ==> forall i :: 0 <= i < |r.value| ==> r.value[i].mentor.mentorId in users
  {
    if AllKnown(ts, users) then
      ScoredMentorsFacts(ts, users);
      var sorted := SortByRating(ScoredMentors(ts, users));
      var out := Take(Stamp(sorted), num);
      assert forall i :: 0 <= i < |out| ==> out[i].mentor in sorted;
      Ok(out)
    else Failure
  }

  /** Row e is the true record of its mentor: a ranked mentor with an
      account, their profile, their score and their ticket count. */
  predicate Describes(e: MentorScore, ts: seq<Ticket>, users: map<Id, User>)
  {
    && e.mentorId in MentorIds(ts)
    && e.mentorId in users
    && e.profile == users[e.mentorId].profile
    && e.rating == LaplaceSmooth(RatingsOf(ts, e.mentorId))
    && e.numTickets == |RatingsOf(ts, e.mentorId)|
  }

  predicate Listed(out: seq<RankedMentor>, m: Id)
  {
    exists i :: 0 <= i < |out| && out[i].mentor.mentorId == m
  }

  lemma ScoredMentorsFacts(ts: seq<Ticket>, users: map<Id, User>)
    requires AllKnown(ts, users)
    ensures |ScoredMentors(ts, users)| == |MentorIds(ts)|
    ensures DistinctMentors(ScoredMentors(ts, users))
    ensures forall i :: 0 <= i < |MentorIds(ts)| ==> ScoredMentors(ts, users)[i].mentorId == MentorIds(ts)[i]
    ensures forall e :: e in ScoredMentors(ts, users) ==> Describes(e, ts, users)
  {
    MentorIdsDistinct(ts);
  }

  lemma SortedRowsFacts(ts: seq<Ticket>, users: map<Id, User>)
    requires AllKnown(ts, users)
    ensures var sorted := SortByRating(ScoredMentors(ts, users));
            && |sorted| == |MentorIds(ts)|
            && NonIncreasing(sorted)
            && DistinctMentors(sorted)
            && (forall e :: e in sorted ==> Describes(e, ts, users))
            && (forall m :: m in MentorIds(ts) ==> exists p :: 0 <= p < |sorted| && sorted[p].mentorId == m)
  {
    var rows := ScoredMentors(ts, users);
    var sorted := SortByRating(rows);
    ScoredMentorsFacts(ts, users);
    SortByRatingCorrect(rows);
    SortByRatingDistinct(rows);
    forall m | m in MentorIds(ts) ensures exists p :: 0 <= p < |sorted| && sorted[p].mentorId == m {
      var k :| 0 <= k < |MentorIds(ts)| && MentorIds(ts)[k] == m;
      assert rows[k] in rows;
      var p :| 0 <= p < |sorted| && sorted[p] == rows[k];
    }
  }

  /** The ranking fails exactly when a ranked mentor has no account. */
  lemma RankingFails(ts: seq<Ticket>, users: map<Id, User>, num: int)
    ensures Ranking(ts, users, num).Failure? <==> exists m :: m in MentorIds(ts) && m !in users
  {
  }

  /** Shape of the output: its length is min(num, number of mentors) for a
      non-negative num (JavaScript slice rules otherwise), every row's index
      is its position, and scores never increase down the list. */
  lemma RankingShape(ts: seq<Ticket>, users: map<Id, User>, num: int)
    requires Ranking(ts, users, num).Ok?
    ensures var out := Ranking(ts, users, num).value;
            && |out| == SliceEnd(|MentorIds(ts)|, num)
            && (0 <= num ==> |out| == if num < |MentorIds(ts)| then num else |MentorIds(ts)|)
            && (forall i :: 0 <= i < |out| ==> out[i].index == i)
            && (forall i, j :: 0 <= i < j < |out| ==> out[i].mentor.rating >= out[j].mentor.rating)
  {
    SortedRowsFacts(ts, users);
  }

  /** Contents of the output: each mentor at most once, and each row holds
      that mentor's profile, smoothed score and number of completed tickets. */
  lemma RankingRows(ts: seq<Ticket>, users: map<Id, User>, num: int)
    requires Ranking(ts, users, num).Ok?
    ensures var out := Ranking(ts, users, num).value;
            && (forall i, j :: 0 <= i < j < |out| ==> out[i].mentor.mentorId != out[j].mentor.mentorId)
            && (forall i :: 0 <= i < |out| ==> Describes(out[i].mentor, ts, users))
            && (forall i :: 0 <= i < |out| ==>
                  out[i].mentor.numTickets == |ContributionsOf(ts, out[i].mentor.mentorId)|)
  {
    SortedRowsFacts(ts, users);
    var out := Ranking(ts, users, num).value;
    var sorted := SortByRating(ScoredMentors(ts, users));
    forall i | 0 <= i < |out|
      ensures Describes(out[i].mentor, ts, users)
      ensures out[i].mentor.numTickets == |ContributionsOf(ts, out[i].mentor.mentorId)|
    {
      assert out[i].mentor == sorted[i];
      assert sorted[i] in sorted;
      RatingsOfCountsTickets(ts, out[i].mentor.mentorId);
    }
  }

  /** Truncation keeps the best: a mentor left out scores no higher than
      any row kept, and when num covers every mentor nobody is left out. */
  lemma RankingTopN(ts: seq<Ticket>, users: map<Id, User>, num: int)
    requires Ranking(ts, users, num).Ok?
    ensures var out := Ranking(ts, users, num).value;
            && (forall m :: m in MentorIds(ts) && !Listed(out, m) ==>
                  forall i :: 0 <= i < |out| ==> LaplaceSmooth(RatingsOf(ts, m)) <= out[i].mentor.rating)
            && (num >= |MentorIds(ts)| ==> forall m :: m in MentorIds(ts) ==> Listed(out, m))
  {
    SortedRowsFacts(ts, users);
    var out := Ranking(ts, users, num).value;
    var sorted := SortByRating(ScoredMentors(ts, users));
    var end := SliceEnd(|sorted|, num);
    assert |out| == end;
    forall m | m in MentorIds(ts)
      ensures !Listed(out, m) ==> forall i :: 0 <= i < |out| ==> LaplaceSmooth(RatingsOf(ts, m)) <= out[i].mentor.rating
      ensures num >= |MentorIds(ts)| ==> Listed(out, m)
    {
      var p :| 0 <= p < |sorted| && sorted[p].mentorId == m;
      assert sorted[p] in sorted;
      if p < end {
        assert out[p].mentor == sorted[p];
      } else {
        forall i | 0 <= i < |out| ensures LaplaceSmooth(RatingsOf(ts, m)) <= out[i].mentor.rating {
          assert out[i].mentor == sorted[i];
        }
      }
    }
  }

  /** Cutting a list keeps a prefix of each score's rows. */
  lemma {:induction false} WithRatingPrefix(s: seq<MentorScore>, n: nat, k: int)
    requires n <= |s|
    ensures WithRating(s[..n], k) <= WithRating(s, k)
  {
    if n > 0 {
      WithRatingPrefix(s[1..], n - 1, k);
      assert s[..n][0] == s[0];
      assert s[..n][1..] == s[1..][..n - 1];
    }
  }

  /** Ties keep first-seen order: for every score, the rows shown with that
      score are the first of that score's mentors, in the order their first
      completed ticket appears. */
  lemma RankingTiesInFirstSeenOrder(ts: seq<Ticket>, users: map<Id, User>, num: int)
    requires Ranking(ts, users, num).Ok?
    ensures var out := Ranking(ts, users, num).value;
            var shown := seq(|out|, i requires 0 <= i < |out| => out[i].mentor);
            forall k :: WithRating(shown, k) <= WithRating(ScoredMentors(ts, users), k)
  {
    var out := Ranking(ts, users, num).value;
    var shown := seq(|out|, i requires 0 <= i < |out| => out[i].mentor);
    var rows := ScoredMentors(ts, users);
    var sorted := SortByRating(rows);
    SortByRatingCorrect(rows);
    assert shown == sorted[..|out|];
    forall k ensures WithRating(shown, k) <= WithRating(rows, k) {
      WithRatingPrefix(sorted, |out|, k);
    }
  }

  /** With the template's default of 10 rows, at most 10 mentors are shown. */
  lemma DefaultRowsBound(ts: seq<Ticket>, users: map<Id, User>)
    requires Ranking(ts, users, DefaultRows).Ok?
    ensures |Ranking(ts, users, DefaultRows).value| <= 10
  {
    RankingShape(ts, users, DefaultRows);
  }

  /** Only COMPLETE tickets with a claim id influence the leaderboard. */
  lemma RankingIgnoresOtherTickets(ts: seq<Ticket>, users: map<Id, User>, num: int)
    ensures Ranking(Keep(ts, Qualifies), users, num) == Ranking(ts, users, num)
  {
    KeepPreservesRanking(ts, Qualifies);
    if AllKnown(ts, users) {
      assert ScoredMentors(Keep(ts, Qualifies), users) == ScoredMentors(ts, users);
    }
  }

  /** topMentors(num): query the COMPLETE tickets, group them with the
      loop, score, sort, number and truncate. */
  method TopMentors(ts: seq<Ticket>, users: map<Id, User>, num: int) returns (r: Result<seq<RankedMentor>>)
    ensures r == Ranking(ts, users, num)
    ensures r.Failure? <==> exists m :: m in MentorIds(ts) && m !in users
  {
    var completed := Completed(ts);
    var ids, groups := GroupByMentor(completed);
    assert ids == MentorIds(ts);
    if exists i :: 0 <= i < |ids| && ids[i] !in users {
      var i :| 0 <= i < |ids| && ids[i] !in users;
      assert ids[i] in MentorIds(ts);
      r := Failure;
      return;
    }
    assert AllKnown(ts, users);
    var rows := seq(|ids|, i requires 0 <= i < |ids| => Score(ids[i], groups[ids[i]], users[ids[i]]));
    assert forall i :: 0 <= i < |ids| ==> groups[ids[i]] == RatingsOf(ts, ids[i]);
    assert rows == ScoredMentors(ts, users);
    r := Ok(Take(Stamp(SortByRating(rows)), num));
  }
}
