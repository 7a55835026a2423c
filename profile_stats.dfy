/**
 * The profile-statistics recompute of quizzes/signals.py
 * (`update_user_profile_stats`): after an attempt is saved with a score,
 * the user's profile is refreshed from every scored attempt of that user.
 *
 * The aggregates are pure folds over the user's scored attempts (their
 * `History`); the handler then overwrites the profile's fields.
 */
module ProfileStats {
  import opened Wrappers
  import opened Attempts
  import Scoring

  /** A score at or above this counts as a win. */
  const WinThreshold: real := 50.0

  /** What the aggregation reads of one scored attempt: its score, its
      duration and the name of its quiz's category. */
  datatype Record = Record(score: real, duration: Option<int>, category: string)

  /** The user's scored attempts, in table order. */
  function History(attempts: seq<Attempt>, user: UserId, catalog: Catalog): seq<Record>
    requires QuizzesKnown(attempts, catalog)
  {
    if attempts == [] then []
    else
      var last := |attempts| - 1;
      var a := attempts[last];
      var earlier := History(attempts[..last], user, catalog);
      if a.user == user && a.score.Some? then
        earlier + [Record(a.score.value, a.duration, catalog[a.quiz].category)]
      else
        earlier
  }

  // ---------------------------------------------------------------------
  // Count, sum, wins and time played: one fold

  datatype Totals = Totals(count: nat, sum: real, wins: nat, duration: Option<int>)

  /** SQL `SUM` over a nullable column: null entries are skipped, and the
      sum of no non-null entries is null. */
  function AddDuration(total: Option<int>, d: Option<int>): Option<int> {
    match d
    case None => total
    case Some(v) => Some(if total.Some? then total.value + v else v)
  }

  function Add(t: Totals, r: Record): Totals {
    Totals(t.count + 1, t.sum + r.score, t.wins + (if r.score >= WinThreshold then 1 else 0),
           AddDuration(t.duration, r.duration))
  }

  predicate AllScoresNonNegative(h: seq<Record>) {
    forall i :: 0 <= i < |h| ==> h[i].score >= 0.0
  }

  /** The aggregates of a history: how many, their summed score, how many
      wins, and the summed duration. */
  function Tally(h: seq<Record>): (t: Totals)
    ensures t.count == |h|
    ensures t.wins <= t.count
  {
    if h == [] then Totals(0, 0.0, 0, None)
    else
      var last := |h| - 1;
      Add(Tally(h[..last]), h[last])
  }

  /** What the totals mean: time played is null exactly when no attempt
      has a duration, the sum of non-negative scores is non-negative, and
      the wins are all or none when every score is a win or none is. */
  lemma {:induction false} TallyMeaning(h: seq<Record>)
    ensures Tally(h).duration.None? <==> forall i :: 0 <= i < |h| ==> h[i].duration.None?
    ensures AllScoresNonNegative(h) ==> Tally(h).sum >= 0.0
    ensures (forall i :: 0 <= i < |h| ==> h[i].score >= WinThreshold) ==> Tally(h).wins == |h|
    ensures (forall i :: 0 <= i < |h| ==> h[i].score < WinThreshold) ==> Tally(h).wins == 0
  {
    if h != [] {
      var last := |h| - 1;
      var prefix := h[..last];
      TallyMeaning(prefix);
      assert forall i :: 0 <= i < last ==> prefix[i] == h[i];
    }
  }

  /** The positions of a history whose score counts as a win. */
  function WinPositions(h: seq<Record>): set<nat> {
    set i: nat | i < |h| && h[i].score >= WinThreshold
  }

  /** The wins of the totals are the attempts scoring at least the win
      threshold, counted one by one. */
  lemma {:induction false} WinsArePositions(h: seq<Record>)
    ensures Tally(h).wins == |WinPositions(h)|
  {
    if h != [] {
      var last := |h| - 1;
      var prefix := h[..last];
      WinsArePositions(prefix);
      var before := WinPositions(prefix);
      var now := WinPositions(h);
      var added: set<nat> := if h[last].score >= WinThreshold then {last} else {};
      forall i: nat
        ensures i in now <==> i in before + added
      {
        if i < last {
          assert prefix[i] == h[i];
        }
      }
      assert now == before + added;
      assert last !in before;
      assert |now| == |before| + |added|;
    }
  }

  /** Adding two records in either order gives the same totals. */
  lemma AddCommutes(t: Totals, a: Record, b: Record)
    ensures Add(Add(t, a), b) == Add(Add(t, b), a)
  {
  }

  /** Removing any one record from a history and adding it last does not
      change the totals. */
  lemma {:induction false} TallyRemove(h: seq<Record>, i: nat)
    requires i < |h|
    ensures Tally(h) == Add(Tally(h[..i] + h[i + 1..]), h[i])
  {
    var last := |h| - 1;
    if i < last {
      var prefix := h[..last];
      TallyRemove(prefix, i);
      var rest := prefix[..i] + prefix[i + 1..];
      AddCommutes(Tally(rest), h[i], h[last]);
      assert rest + [h[last]] == h[..i] + h[i + 1..];
      assert (rest + [h[last]])[..|rest|] == rest;
    } else {
      assert h[..i] + h[i + 1..] == h[..last];
    }
  }

  /** The totals depend only on the multiset of records, not on the order
      the table returns them in. */
  lemma {:induction false} TallyPermutation(h1: seq<Record>, h2: seq<Record>)
    requires multiset(h1) == multiset(h2)
    ensures Tally(h1) == Tally(h2)
  {
    if h1 == [] {
      assert |h2| == |multiset(h2)| == 0;
    } else {
      var last := |h1| - 1;
      var x := h1[last];
      assert x in multiset(h1);
      assert x in multiset(h2);
      var i :| 0 <= i < |h2| && h2[i] == x;
      var rest2 := h2[..i] + h2[i + 1..];
      assert h2 == h2[..i] + [x] + h2[i + 1..];
      assert multiset(h2) == multiset(rest2) + multiset{x};
      assert h1 == h1[..last] + [x];
      assert multiset(h1) == multiset(h1[..last]) + multiset{x};
      assert multiset(h1[..last]) == multiset(h1) - multiset{x};
      assert multiset(rest2) == multiset(h2) - multiset{x};
      TallyPermutation(h1[..last], rest2);
      TallyRemove(h2, i);
    }
  }

  // ---------------------------------------------------------------------
  // Best category: the category whose attempts have the highest mean score

  /** The records of one category, in order. */
  function InCategory(h: seq<Record>, c: string): seq<Record>
  {
    if h == [] then []
    else
      var last := |h| - 1;
      InCategory(h[..last], c) + (if h[last].category == c then [h[last]] else [])
  }

  /** The mean score of a category's records (0 for a category the user
      has no attempt in). */
  function Mean(h: seq<Record>, c: string): real {
    var t := Tally(InCategory(h, c));
    if t.count == 0 then 0.0 else t.sum / t.count as real
  }

  /** The first position of a greatest element among the first `k`. */
  function FirstMax(xs: seq<real>, k: nat): (j: nat)
    requires 0 < k <= |xs|
    ensures j < k
    ensures forall i :: 0 <= i < k ==> xs[i] <= xs[j]
    ensures forall i :: 0 <= i < j ==> xs[i] < xs[j]
  {
    if k == 1 then 0
    else
      var j := FirstMax(xs, k - 1);
      if xs[k - 1] > xs[j] then k - 1 else j
  }

  /** The mean of each record's category, position by position. */
  function CategoryMeans(h: seq<Record>): (means: seq<real>)
    ensures |means| == |h|
    ensures forall i :: 0 <= i < |h| ==> means[i] == Mean(h, h[i].category)
  {
    seq(|h|, i requires 0 <= i < |h| => Mean(h, h[i].category))
  }

  /** The category with the highest mean score, if the user has any scored
      attempt. Ties go to the category met first in the history. */
  function BestCategory(h: seq<Record>): (best: Option<string>)
    ensures best.None? <==> h == []
    ensures best.Some? ==>
      && (exists j :: 0 <= j < |h| && h[j].category == best.value)
      && forall i :: 0 <= i < |h| ==> Mean(h, h[i].category) <= Mean(h, best.value)
  {
    if h == [] then None
    else
      var means := CategoryMeans(h);
      var j := FirstMax(means, |h|);
      Some(h[j].category)
  }

  /** Filtering by category commutes with taking multisets. */
  lemma {:induction false} InCategoryMultiset(h: seq<Record>, c: string, r: Record)
    ensures multiset(InCategory(h, c))[r] == if r.category == c then multiset(h)[r] else 0
  {
    if h != [] {
      var last := |h| - 1;
      var prefix := h[..last];
      InCategoryMultiset(prefix, c, r);
      assert h == prefix + [h[last]];
      assert multiset(h) == multiset(prefix) + multiset{h[last]};
      var tail := if h[last].category == c then [h[last]] else [];
      assert InCategory(h, c) == InCategory(prefix, c) + tail;
      assert multiset(InCategory(h, c)) == multiset(InCategory(prefix, c)) + multiset(tail);
    }
  }

  /** Each category's mean depends only on the multiset of records. */
  lemma MeanPermutation(h1: seq<Record>, h2: seq<Record>, c: string)
    requires multiset(h1) == multiset(h2)
    ensures Mean(h1, c) == Mean(h2, c)
  {
    forall r: Record
      ensures multiset(InCategory(h1, c))[r] == multiset(InCategory(h2, c))[r]
    {
      InCategoryMultiset(h1, c, r);
      InCategoryMultiset(h2, c, r);
    }
    assert multiset(InCategory(h1, c)) == multiset(InCategory(h2, c));
    TallyPermutation(InCategory(h1, c), InCategory(h2, c));
  }

  // ---------------------------------------------------------------------
  // The profile and its refresh

  /** One level per whole 500 points of total score, starting at level 1. */
  function LevelFor(total: real): (level: int)
    ensures 500.0 * (level - 1) as real <= total < 500.0 * level as real
  {
    (total / 500.0).Floor + 1
  }

  /** The share of wins among the scored attempts, as a percentage. */
  function WinRate(t: Totals): (rate: real)
    requires t.count > 0
    requires t.wins <= t.count
    ensures 0.0 <= rate <= 100.0
    ensures t.wins == t.count ==> rate == 100.0
    ensures t.wins == 0 ==> rate == 0.0
  {
    Scoring.PercentageBounds(t.wins, t.count);
    t.wins as real / t.count as real * 100.0
  }

  /** The profile's fields. */
  datatype ProfileData = ProfileData(
    level: int,
    quizzesTaken: nat,
    totalScore: real,
    winRate: real,
    currentStreak: nat,
    highestStreak: nat,
    completionRate: real,
    timePlayed: Option<int>,
    bestCategory: string,
    weakestCategory: string)

  /** The profile after a refresh from history `h`: count, total, level
      and time played are overwritten; win rate only when there is an
      attempt, best category only when there is a category; streaks,
      completion rate and weakest category are never written. */
  function Refreshed(p: ProfileData, h: seq<Record>): (q: ProfileData)
    ensures q.quizzesTaken == |h|
    ensures q.totalScore == Tally(h).sum && q.timePlayed == Tally(h).duration
    ensures 500.0 * (q.level - 1) as real <= q.totalScore < 500.0 * q.level as real
    ensures h != [] ==> 0.0 <= q.winRate <= 100.0
    ensures h != [] ==> q.winRate == |WinPositions(h)| as real / |h| as real * 100.0
    ensures h == [] ==> q.winRate == p.winRate && q.bestCategory == p.bestCategory
    ensures h != [] ==> Some(q.bestCategory) == BestCategory(h)
    ensures q.currentStreak == p.currentStreak && q.highestStreak == p.highestStreak
    ensures q.completionRate == p.completionRate && q.weakestCategory == p.weakestCategory
  {
    WinsArePositions(h);
    var t := Tally(h);
    var best := BestCategory(h);
    p.(quizzesTaken := t.count,
       totalScore := t.sum,
       winRate := if t.count > 0 then WinRate(t) else p.winRate,
       level := LevelFor(t.sum),
       timePlayed := t.duration,
       bestCategory := if best.Some? then best.value else p.bestCategory)
  }

  /** Refreshing twice from the same history gives the same profile as
      refreshing once. */
  lemma RefreshIdempotent(p: ProfileData, h: seq<Record>)
    ensures Refreshed(Refreshed(p, h), h) == Refreshed(p, h)
  {
  }

  /** The best category of two orders of the same attempts has the same,
      maximal, mean in both. */
  lemma BestMeanOrderIndependent(h1: seq<Record>, h2: seq<Record>)
    requires multiset(h1) == multiset(h2)
    requires h1 != []
    ensures h2 != []
    ensures Mean(h1, BestCategory(h1).value) == Mean(h2, BestCategory(h2).value)
  {
    assert |h1| == |multiset(h1)| == |multiset(h2)| == |h2|;
    var b1, b2 := BestCategory(h1).value, BestCategory(h2).value;
    var j1 :| 0 <= j1 < |h1| && h1[j1].category == b1;
    var j2 :| 0 <= j2 < |h2| && h2[j2].category == b2;
    assert h1[j1] in multiset(h2);
    var k2 :| 0 <= k2 < |h2| && h2[k2] == h1[j1];
    assert h2[j2] in multiset(h1);
    var k1 :| 0 <= k1 < |h1| && h1[k1] == h2[j2];
    MeanPermutation(h1, h2, b1);
    MeanPermutation(h1, h2, b2);
    assert Mean(h2, b1) <= Mean(h2, b2);
    assert Mean(h1, b2) <= Mean(h1, b1);
  }

  /** The refresh depends only on the multiset of scored attempts: two
      orders of the same attempts agree on every field, except that the
      best category may differ between categories of equal, maximal mean. */
  lemma RefreshOrderIndependent(p: ProfileData, h1: seq<Record>, h2: seq<Record>)
    requires multiset(h1) == multiset(h2)
    ensures var q1, q2 := Refreshed(p, h1), Refreshed(p, h2);
            && q1.(bestCategory := q2.bestCategory) == q2
            && Mean(h1, q1.bestCategory) == Mean(h2, q2.bestCategory)
  {
    TallyPermutation(h1, h2);
    if h1 != [] {
      BestMeanOrderIndependent(h1, h2);
    } else {
      assert |h2| == |multiset(h2)| == 0;
    }
  }

  /** Level examples: 80 points is level 1, 499.99 is level 1, 500 is
      level 2 and 1200 is level 3. */
  lemma LevelExamples()
    ensures LevelFor(80.0) == 1 && LevelFor(499.99) == 1
    ensures LevelFor(500.0) == 2 && LevelFor(1200.0) == 3
  {
  }

  /** One attempt scored 80 in "Science", played for two minutes: one
      quiz, 80 points, level 1, a win rate of 100, two minutes played and
      "Science" as best category. */
  lemma RefreshExample(p: ProfileData)
    ensures var q := Refreshed(p, [Record(80.0, Some(120), "Science")]);
            && q.quizzesTaken == 1 && q.totalScore == 80.0 && q.level == 1
            && q.winRate == 100.0 && q.timePlayed == Some(120) && q.bestCategory == "Science"
  {
    var r := Record(80.0, Some(120), "Science");
    var h := [r];
    assert h[..0] == [];
    assert Tally(h[..0]) == Totals(0, 0.0, 0, None);
    var t := Tally(h);
    assert t == Add(Totals(0, 0.0, 0, None), r);
    assert t == Totals(1, 80.0, 1, Some(120));
    assert LevelFor(80.0) == 1;
    assert WinRate(t) == 100.0;
    assert BestCategory(h) == Some("Science");
  }

  // ---------------------------------------------------------------------
  // How the history changes under the lifecycle

  /** Starting an attempt leaves every user's history as it was. */
  lemma {:induction false} OpenAttemptNotCounted(attempts: seq<Attempt>, a: Attempt, user: UserId, catalog: Catalog)
    requires QuizzesKnown(attempts + [a], catalog)
    requires a.IsOpen()
    ensures QuizzesKnown(attempts, catalog)
    ensures History(attempts + [a], user, catalog) == History(attempts, user, catalog)
  {
    assert forall i :: 0 <= i < |attempts| ==> (attempts + [a])[i] == attempts[i];
    assert (attempts + [a])[..|attempts|] == attempts;
  }

  /** The record a scored attempt contributes to its user's history. */
  function RecordOf(a: Attempt, catalog: Catalog): Record
    requires a.score.Some? && a.quiz in catalog
  {
    Record(a.score.value, a.duration, catalog[a.quiz].category)
  }

  /** The history of two stretches of the table is the history of the
      first followed by the history of the second. */
  lemma {:induction false} HistoryConcat(xs: seq<Attempt>, ys: seq<Attempt>, user: UserId, catalog: Catalog)
    requires QuizzesKnown(xs + ys, catalog)
    ensures QuizzesKnown(xs, catalog) && QuizzesKnown(ys, catalog)
    ensures History(xs + ys, user, catalog) == History(xs, user, catalog) + History(ys, user, catalog)
  {
    assert forall i :: 0 <= i < |xs| ==> xs[i] == (xs + ys)[i];
    assert forall i :: 0 <= i < |ys| ==> ys[i] == (xs + ys)[|xs| + i];
    if ys == [] {
      assert xs + ys == xs;
    } else {
      var last := |ys| - 1;
      assert (xs + ys)[..|xs + ys| - 1] == xs + ys[..last];
      HistoryConcat(xs, ys[..last], user, catalog);
    }
  }

  /** The history of a single attempt: its record when it is the user's and
      scored, nothing otherwise. */
  lemma HistorySingle(a: Attempt, user: UserId, catalog: Catalog)
    requires a.quiz in catalog
    ensures History([a], user, catalog) == if a.user == user && a.score.Some? then [RecordOf(a, catalog)] else []
  {
    assert [a][..0] == [];
  }

  /** Replacing the attempt at `idx` changes a history only by what that
      one attempt contributes. */
  lemma HistoryReplace(attempts: seq<Attempt>, idx: nat, closed: Attempt, user: UserId, catalog: Catalog)
    requires idx < |attempts|
    requires QuizzesKnown(attempts, catalog) && closed.quiz in catalog
    ensures QuizzesKnown(attempts[idx := closed], catalog)
    ensures History(attempts, user, catalog)
         == History(attempts[..idx], user, catalog) + History([attempts[idx]], user, catalog)
            + History(attempts[idx + 1..], user, catalog)
    ensures History(attempts[idx := closed], user, catalog)
         == History(attempts[..idx], user, catalog) + History([closed], user, catalog)
            + History(attempts[idx + 1..], user, catalog)
  {
    var before, after := attempts[..idx], attempts[idx + 1..];
    assert attempts == before + [attempts[idx]] + after;
    assert attempts[idx := closed] == before + [closed] + after;
    HistoryConcat(before + [attempts[idx]], after, user, catalog);
    HistoryConcat(before, [attempts[idx]], user, catalog);
    HistoryConcat(before + [closed], after, user, catalog);
    HistoryConcat(before, [closed], user, catalog);
  }

  /** Closing one open attempt leaves every other user's history as it was. */
  lemma ClosingLeavesOthers(attempts: seq<Attempt>, idx: nat, closed: Attempt,
                            user: UserId, catalog: Catalog)
    requires idx < |attempts|
    requires QuizzesKnown(attempts, catalog) && closed.quiz in catalog
    requires attempts[idx].IsOpen() && closed.user == attempts[idx].user && user != closed.user
    ensures QuizzesKnown(attempts[idx := closed], catalog)
    ensures History(attempts[idx := closed], user, catalog) == History(attempts, user, catalog)
  {
    HistoryReplace(attempts, idx, closed, user, catalog);
    HistorySingle(attempts[idx], user, catalog);
    HistorySingle(closed, user, catalog);
  }

  /** Closing one open attempt adds exactly its record to its owner's
      history. */
  lemma ClosingAddsRecord(attempts: seq<Attempt>, idx: nat, closed: Attempt, catalog: Catalog)
    requires idx < |attempts|
    requires QuizzesKnown(attempts, catalog) && closed.quiz in catalog
    requires attempts[idx].IsOpen() && !closed.IsOpen() && closed.user == attempts[idx].user
    ensures QuizzesKnown(attempts[idx := closed], catalog)
    ensures multiset(History(attempts[idx := closed], closed.user, catalog))
         == multiset(History(attempts, closed.user, catalog)) + multiset{RecordOf(closed, catalog)}
  {
    var user := closed.user;
    HistoryReplace(attempts, idx, closed, user, catalog);
    HistorySingle(attempts[idx], user, catalog);
    HistorySingle(closed, user, catalog);
  }

  /** Closing one open attempt makes its owner's history one record longer
      and every other user's history no longer. */
  lemma ClosingCountsOnce(attempts: seq<Attempt>, idx: nat, closed: Attempt,
                          user: UserId, catalog: Catalog)
    requires idx < |attempts|
    requires QuizzesKnown(attempts, catalog) && closed.quiz in catalog
    requires attempts[idx].IsOpen() && !closed.IsOpen() && closed.user == attempts[idx].user
    ensures QuizzesKnown(attempts[idx := closed], catalog)
    ensures |History(attempts[idx := closed], user, catalog)|
         == |History(attempts, user, catalog)| + (if user == closed.user then 1 else 0)
  {
    var h := History(attempts, user, catalog);
    var h' := History(attempts[idx := closed], user, catalog);
    if user == closed.user {
      ClosingAddsRecord(attempts, idx, closed, catalog);
      assert |multiset(h')| == |h'| && |multiset(h)| == |h|;
    } else {
      ClosingLeavesOthers(attempts, idx, closed, user, catalog);
    }
  }

  /** A successful submission adds to the submitter's history exactly the
      record of the returned score, the elapsed time and the quiz's
      category; the refresh that follows therefore counts one more quiz
      and adds the returned score to the total. */
  lemma SubmissionCounted(attempts: seq<Attempt>, caller: UserId, id: AttemptId,
                          answers: Answers, now: Time, catalog: Catalog)
    requires QuizzesKnown(attempts, catalog)
    requires SubmitSpec(attempts, caller, Some(id), answers, now, catalog).result.Scored?
    ensures var out := SubmitSpec(attempts, caller, Some(id), answers, now, catalog);
            var before := History(attempts, caller, catalog);
            var after := History(out.attempts, caller, catalog);
            var a := attempts[id - 1];
            && multiset(after)
                 == multiset(before) + multiset{Record(out.result.score, Some(now - a.startedAt),
                                                       catalog[a.quiz].category)}
            && Tally(after).count == Tally(before).count + 1
            && Tally(after).sum == Tally(before).sum + out.result.score
  {
    var out := SubmitSpec(attempts, caller, Some(id), answers, now, catalog);
    SuccessClosesAttempt(attempts, caller, id, answers, now, catalog);
    var closed := out.attempts[id - 1];
    assert out.attempts == attempts[id - 1 := closed];
    ClosingAddsRecord(attempts, id - 1, closed, catalog);
    var before := History(attempts, caller, catalog);
    var after := History(out.attempts, caller, catalog);
    var r := RecordOf(closed, catalog);
    assert multiset(before + [r]) == multiset(before) + multiset{r};
    TallyPermutation(after, before + [r]);
    assert (before + [r])[..|before|] == before;
  }

  /** A user's profile, whose statistics the handler overwrites in place. */
  class Profile {
    var level: int
    var quizzesTaken: nat
    var totalScore: real
    var winRate: real
    var currentStreak: nat
    var highestStreak: nat
    var completionRate: real
    var timePlayed: Option<int>
    var bestCategory: string
    var weakestCategory: string

    function Data(): ProfileData
      reads this
    {
      ProfileData(level, quizzesTaken, totalScore, winRate, currentStreak, highestStreak,
                  completionRate, timePlayed, bestCategory, weakestCategory)
    }

    /** A new profile with the column defaults. */
    constructor ()
      ensures Data() == ProfileData(1, 0, 0.0, 0.0, 0, 0, 0.0, None, "", "")
    {
      level, quizzesTaken, totalScore, winRate := 1, 0, 0.0, 0.0;
      currentStreak, highestStreak, completionRate := 0, 0, 0.0;
      timePlayed, bestCategory, weakestCategory := None, "", "";
    }

    /** The handler run after `instance` is saved into `attempts`: nothing
        for an unscored attempt, otherwise a refresh from its user's history. */
    method UpdateStats(instance: Attempt, attempts: seq<Attempt>, catalog: Catalog)
      requires QuizzesKnown(attempts, catalog)
      modifies this
      ensures instance.IsOpen() ==> Data() == old(Data())
      ensures !instance.IsOpen() ==> Data() == Refreshed(old(Data()), History(attempts, instance.user, catalog))
    {
      if instance.score.Some? {
        var results := History(attempts, instance.user, catalog);
        var stats := Tally(results);
        ghost var goal := Refreshed(Data(), results);
        var rate := winRate;
        if stats.count > 0 {
          rate := WinRate(stats);
        }
        var newLevel := LevelFor(stats.sum);
        var best := BestCategory(results);
        var name := bestCategory;
        if best.Some? {
          name := best.value;
        }
        assert rate == goal.winRate && newLevel == goal.level && name == goal.bestCategory;
        quizzesTaken, totalScore, winRate, level := stats.count, stats.sum, rate, newLevel;
        timePlayed, bestCategory := stats.duration, name;
        assert Data() == goal;
      }
    }
  }
}
