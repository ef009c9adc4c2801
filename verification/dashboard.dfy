/** The mood trend of the dashboard (phase4_dashboard.py, `show_dashboard`):
    the log is scanned newest first, the first mood met for each date is kept
    (so the last one logged that day), the scan stops at seven dates, and the
    result is reversed into chronological order and scored through a fixed
    table. The chart, the weekday and month labels and the random quote are
    presentation and are not part of the model. */
module Dashboard {
  import opened Wrappers
  import opened Seqs
  import opened OrderedDict
  import opened MoodLog

  /** `mood_numeric`: the score of each tracker label. */
  const MoodNumeric: Dict<string, int> :=
    [("😊 Happy", 5), ("😐 Neutral", 3), ("😰 Anxious", 2), ("😢 Sad", 1), ("😠 Angry", 0)]

  /** The score of a label outside the table. */
  const DefaultScore := 3

  /** The number of distinct dates the trend covers at most. */
  const TrendDays := 7

  /** The today-mood shown when no label was selected. */
  const NoMoodLabel := "😐 Neutral"

  /** `mood_numeric.get(mood, 3)`: a score in 0..5, the table's when the
      label is a key and 3 otherwise. */
  function MoodScore(mood: string): (score: int)
    ensures 0 <= score <= 5
    ensures mood in Keys(MoodNumeric) ==> Lookup(MoodNumeric, mood) == Some(score)
    ensures mood !in Keys(MoodNumeric) ==> score == DefaultScore
  {
    GetLookup(MoodNumeric, mood, DefaultScore);
    Get(MoodNumeric, mood, DefaultScore)
  }

  /** The five tracker labels and their scores. */
  lemma MoodScoreTable()
    ensures MoodScore("😊 Happy") == 5
    ensures MoodScore("😐 Neutral") == 3
    ensures MoodScore("😰 Anxious") == 2
    ensures MoodScore("😢 Sad") == 1
    ensures MoodScore("😠 Angry") == 0
    ensures Keys(MoodNumeric) == ["😊 Happy", "😐 Neutral", "😰 Anxious", "😢 Sad", "😠 Angry"]
  {
    var ks := Keys(MoodNumeric);
    assert ks == ["😊 Happy", "😐 Neutral", "😰 Anxious", "😢 Sad", "😠 Angry"];
    assert forall i, j :: 0 <= i < j < |ks| ==> ks[i][0] != ks[j][0];
    assert Valid(MoodNumeric);
    assert MoodNumeric[1].0 == "😐 Neutral";
    assert MoodNumeric[2].0 == "😰 Anxious";
    assert MoodNumeric[3].0 == "😢 Sad";
    assert MoodNumeric[4].0 == "😠 Angry";
  }

  // ---------------------------------------------------------------------------
  // Reference definitions

  /** The index of the last entry dated `date`, or -1 when there is none. */
  function LastIndex(log: seq<Entry>, date: string): (r: int)
    ensures -1 <= r < |log|
    ensures r >= 0 ==> log[r].date == date
    ensures forall j :: r < j < |log| ==> log[j].date != date
  {
    LastBefore(log, date, |log|)
  }

  /** The index of the last entry dated `date` among `log[..n]`, or -1. */
  function LastBefore(log: seq<Entry>, date: string, n: nat): (r: int)
    requires n <= |log|
    ensures -1 <= r < n
    ensures r >= 0 ==> log[r].date == date
    ensures forall j :: r < j < n ==> log[j].date != date
    decreases n
  {
    if n == 0 then -1
    else if log[n - 1].date == date then n - 1
    else LastBefore(log, date, n - 1)
  }

  /** The distinct dates of the log. */
  function Dates(log: seq<Entry>): set<string> {
    set i | 0 <= i < |log| :: log[i].date
  }

  function Min(a: int, b: int): int {
    if a <= b then a else b
  }

  // ---------------------------------------------------------------------------
  // The backwards scan

  /** The loop `for entry in reversed(mood_log)` with `n` entries left to
      visit (it visits `log[n - 1]` next) and `recent` the dict built so far.
      A new date is a new key, which Python appends at the end. */
  function Scan(log: seq<Entry>, n: nat, recent: Dict<string, string>): (r: Dict<string, string>)
    requires n <= |log|
    ensures |recent| <= |r| <= |recent| + n
    ensures |recent| < TrendDays ==> |r| <= TrendDays
    decreases n
  {
    if n == 0 then recent
    else
      var recent' := Visit(log, n, recent);
      if |recent'| >= TrendDays then recent' else Scan(log, n - 1, recent')
  }

  /** The scan never drops or reorders a date it has recorded: the dict it
      starts from stays in front. */
  lemma {:induction false} ScanKeepsRecorded(log: seq<Entry>, n: nat, recent: Dict<string, string>)
    requires n <= |log|
    ensures Scan(log, n, recent)[..|recent|] == recent
    decreases n
  {
    if n > 0 {
      VisitKeepsRecorded(log, n, recent);
      if |Visit(log, n, recent)| < TrendDays {
        ScanKeepsRecorded(log, n - 1, Visit(log, n, recent));
        ScanKeepsStep(log, n, recent);
      }
    }
  }

  lemma VisitKeepsRecorded(log: seq<Entry>, n: nat, recent: Dict<string, string>)
    requires 0 < n <= |log|
    ensures Visit(log, n, recent)[..|recent|] == recent
  {
    assert (recent + [(log[n - 1].date, log[n - 1].mood)])[..|recent|] == recent;
  }

  lemma ScanKeepsStep(log: seq<Entry>, n: nat, recent: Dict<string, string>)
    requires 0 < n <= |log| && |Visit(log, n, recent)| < TrendDays
    requires Visit(log, n, recent)[..|recent|] == recent
    requires Scan(log, n - 1, Visit(log, n, recent))[..|Visit(log, n, recent)|] == Visit(log, n, recent)
    ensures Scan(log, n, recent)[..|recent|] == recent
  {
    var v := Visit(log, n, recent);
    var r := Scan(log, n - 1, v);
    assert r[..|recent|] == r[..|v|][..|recent|];
  }

  /** One iteration of the loop body: `if day not in recent_moods:
      recent_moods[day] = entry["mood"]` for `entry = log[n - 1]`. */
  function Visit(log: seq<Entry>, n: nat, recent: Dict<string, string>): (r: Dict<string, string>)
    requires 0 < n <= |log|
    ensures |r| <= |recent| + 1
    ensures log[n - 1].date in Keys(recent) ==> r == recent
    ensures log[n - 1].date !in Keys(recent) ==> r == recent + [(log[n - 1].date, log[n - 1].mood)]
  {
    var entry := log[n - 1];
    if entry.date in Keys(recent) then recent else recent + [(entry.date, entry.mood)]
  }

  /** `recent_moods` after the loop. */
  function RecentMoods(log: seq<Entry>): (r: Dict<string, string>)
    ensures |r| <= TrendDays && |r| <= |log|
  {
    Scan(log, |log|, [])
  }

  /** What the scan knows after visiting `log[n..]`, newest first. */
  ghost predicate Scanned(log: seq<Entry>, n: nat, recent: Dict<string, string>) {
    && n <= |log|
    && Valid(recent)
    && (forall j :: 0 <= j < |recent| ==>
          n <= LastIndex(log, recent[j].0) && recent[j].1 == log[LastIndex(log, recent[j].0)].mood)
    && (forall j, k :: 0 <= j < k < |recent| ==> LastIndex(log, recent[j].0) > LastIndex(log, recent[k].0))
    && (forall i :: n <= i < |log| ==> log[i].date in Keys(recent))
  }

  /** What the finished scan delivers. */
  ghost predicate Selected(log: seq<Entry>, recent: Dict<string, string>) {
    SelectedLatest(log, recent) && SelectedNewest(log, recent)
  }

  /** Distinct dates, at most seven, newest first, each with the mood of its
      latest entry. */
  ghost predicate SelectedLatest(log: seq<Entry>, recent: Dict<string, string>) {
    && Valid(recent)
    && |recent| <= TrendDays
    && (forall j :: 0 <= j < |recent| ==>
          0 <= LastIndex(log, recent[j].0) && recent[j].1 == log[LastIndex(log, recent[j].0)].mood)
    && (forall j, k :: 0 <= j < k < |recent| ==> LastIndex(log, recent[j].0) > LastIndex(log, recent[k].0))
  }

  /** Every date left out was last logged before every date kept, and none is
      left out unless seven were kept. */
  ghost predicate SelectedNewest(log: seq<Entry>, recent: Dict<string, string>) {
    && (forall i, j :: 0 <= i < |log| && log[i].date !in Keys(recent) && 0 <= j < |recent| ==>
          i < LastIndex(log, recent[j].0))
    && (|recent| == TrendDays || forall i :: 0 <= i < |log| ==> log[i].date in Keys(recent))
  }

  /** A date not met yet is last logged at the entry the scan is visiting. */
  lemma NewDateLastIndex(log: seq<Entry>, n: nat, recent: Dict<string, string>)
    requires 0 < n && Scanned(log, n, recent)
    requires log[n - 1].date !in Keys(recent)
    ensures LastIndex(log, log[n - 1].date) == n - 1
  {
    assert forall i :: n <= i < |log| ==> log[i].date != log[n - 1].date;
  }

  lemma AppendNewKey(recent: Dict<string, string>, date: string, mood: string)
    requires Valid(recent) && date !in Keys(recent)
    ensures Keys(recent + [(date, mood)]) == Keys(recent) + [date]
    ensures Valid(recent + [(date, mood)])
  {
    assert Keys(recent + [(date, mood)]) == Keys(recent) + [date];
  }

  lemma StepNewMoods(log: seq<Entry>, n: nat, recent: Dict<string, string>)
    requires 0 < n && Scanned(log, n, recent)
    requires log[n - 1].date !in Keys(recent)
    ensures var r := recent + [(log[n - 1].date, log[n - 1].mood)];
      forall j :: 0 <= j < |r| ==> n - 1 <= LastIndex(log, r[j].0) && r[j].1 == log[LastIndex(log, r[j].0)].mood
  {
    var r := recent + [(log[n - 1].date, log[n - 1].mood)];
    NewDateLastIndex(log, n, recent);
    forall j | 0 <= j < |r|
      ensures n - 1 <= LastIndex(log, r[j].0) && r[j].1 == log[LastIndex(log, r[j].0)].mood
    {
      if j < |recent| {
        assert r[j] == recent[j];
      } else {
        assert r[j] == (log[n - 1].date, log[n - 1].mood);
      }
    }
  }

  lemma StepNewOrder(log: seq<Entry>, n: nat, recent: Dict<string, string>)
    requires 0 < n && Scanned(log, n, recent)
    requires log[n - 1].date !in Keys(recent)
    ensures var r := recent + [(log[n - 1].date, log[n - 1].mood)];
      forall j, k :: 0 <= j < k < |r| ==> LastIndex(log, r[j].0) > LastIndex(log, r[k].0)
  {
    var r := recent + [(log[n - 1].date, log[n - 1].mood)];
    NewDateLastIndex(log, n, recent);
    assert forall j :: 0 <= j < |recent| ==> r[j] == recent[j];
  }

  lemma StepNewCover(log: seq<Entry>, n: nat, recent: Dict<string, string>)
    requires 0 < n && Scanned(log, n, recent)
    requires log[n - 1].date !in Keys(recent)
    ensures var r := recent + [(log[n - 1].date, log[n - 1].mood)];
      forall i :: n - 1 <= i < |log| ==> log[i].date in Keys(r)
  {
    var r := recent + [(log[n - 1].date, log[n - 1].mood)];
    AppendNewKey(recent, log[n - 1].date, log[n - 1].mood);
  }

  lemma ScannedStepNew(log: seq<Entry>, n: nat, recent: Dict<string, string>)
    requires 0 < n && Scanned(log, n, recent)
    requires log[n - 1].date !in Keys(recent)
    ensures Scanned(log, n - 1, recent + [(log[n - 1].date, log[n - 1].mood)])
  {
    AppendNewKey(recent, log[n - 1].date, log[n - 1].mood);
    StepNewMoods(log, n, recent);
    StepNewOrder(log, n, recent);
    StepNewCover(log, n, recent);
  }

  lemma ScannedStep(log: seq<Entry>, n: nat, recent: Dict<string, string>)
    requires 0 < n && Scanned(log, n, recent)
    ensures Scanned(log, n - 1, Visit(log, n, recent))
  {
    if log[n - 1].date in Keys(recent) {
      ScannedStepSeen(log, n, recent);
    } else {
      ScannedStepNew(log, n, recent);
    }
  }

  /** Visiting an entry whose date is already recorded changes nothing. */
  lemma ScannedStepSeen(log: seq<Entry>, n: nat, recent: Dict<string, string>)
    requires 0 < n && Scanned(log, n, recent)
    requires log[n - 1].date in Keys(recent)
    ensures Scanned(log, n - 1, recent)
  {
  }

  lemma ScannedSelected(log: seq<Entry>, n: nat, recent: Dict<string, string>)
    requires Scanned(log, n, recent) && |recent| <= TrendDays
    requires n == 0 || |recent| == TrendDays
    ensures Selected(log, recent)
  {
  }

  /** Continuing the scan from a consistent state `recent` with `n` entries
      left ends in a selection. */
  lemma ScanSelects(log: seq<Entry>, n: nat, recent: Dict<string, string>)
    requires Scanned(log, n, recent) && |recent| < TrendDays
    ensures Selected(log, Scan(log, n, recent))
  {
    var inv := (k: nat, r: Dict<string, string>) => Scanned(log, k, r);
    VisitsKeepScanned(log);
    var m := ScanInduction(log, n, recent, inv);
    ScannedSelected(log, m, Scan(log, n, recent));
  }

  lemma VisitsKeepScanned(log: seq<Entry>)
    ensures forall k: nat, r: Dict<string, string> :: 0 < k <= |log| && Scanned(log, k, r) ==>
      Scanned(log, k - 1, Visit(log, k, r))
  {
    forall k: nat, r: Dict<string, string> | 0 < k <= |log| && Scanned(log, k, r)
      ensures Scanned(log, k - 1, Visit(log, k, r))
    {
      ScannedStep(log, k, r);
    }
  }

  /** Induction over the scan: an invariant `inv(k, r)` of the state with `k`
      entries left that every visit short of seven dates preserves still holds
      where the scan stops, with `m` entries left, where no entry is left or
      seven dates are recorded. */
  lemma {:induction false} ScanInduction(log: seq<Entry>, n: nat, recent: Dict<string, string>,
                                         inv: (nat, Dict<string, string>) -> bool) returns (m: nat)
    requires n <= |log| && |recent| < TrendDays && inv(n, recent)
    requires forall k: nat, r: Dict<string, string> :: 0 < k <= n && |r| < TrendDays && inv(k, r) ==>
      inv(k - 1, Visit(log, k, r))
    ensures m <= n && inv(m, Scan(log, n, recent))
    ensures m == 0 || |Scan(log, n, recent)| == TrendDays
    decreases n
  {
    if n == 0 {
      m := 0;
    } else if |Visit(log, n, recent)| >= TrendDays {
      m := n - 1;
    } else {
      m := ScanInduction(log, n - 1, Visit(log, n, recent), inv);
    }
  }

  /** The recent dates are `min(k, 7)` of the `k` distinct dates of the log. */
  lemma SelectedCount(log: seq<Entry>, recent: Dict<string, string>)
    requires Selected(log, recent)
    ensures |recent| == Min(|Dates(log)|, TrendDays)
  {
    var ks := Keys(recent);
    var kset := set x | x in ks;
    DistinctCard(ks);
    assert kset <= Dates(log) by {
      forall x | x in kset ensures x in Dates(log) {
        var j :| 0 <= j < |ks| && ks[j] == x;
        assert log[LastIndex(log, recent[j].0)].date == x;
      }
    }
    if |recent| < TrendDays {
      assert Dates(log) <= kset;
      assert Dates(log) == kset;
    } else {
      SubsetCard(kset, Dates(log));
    }
  }

  lemma {:induction false} SubsetCard<T>(a: set<T>, b: set<T>)
    requires a <= b
    ensures |a| <= |b|
    decreases |a|
  {
    if a != {} {
      var x :| x in a;
      SubsetCard(a - {x}, b - {x});
    }
  }

  lemma RecentMoodsSelected(log: seq<Entry>)
    ensures Selected(log, RecentMoods(log))
    ensures |RecentMoods(log)| == Min(|Dates(log)|, TrendDays)
  {
    ScanSelects(log, |log|, []);
    SelectedCount(log, RecentMoods(log));
  }

  // ---------------------------------------------------------------------------
  // The trend

  /** The chart series: dates oldest first, their moods and scores, and the
      mood shown as today's. */
  datatype Trend = Trend(dateKeys: seq<string>, moodLabels: seq<string>, moodScores: seq<int>, todayMood: string)

  /** `show_dashboard`: no trend for an empty log (it returns early), else the
      series built from `recent_moods`. */
  function ShowDashboard(log: seq<Entry>): (r: Option<Trend>)
    ensures r.None? <==> log == []
    ensures r.Some? ==> |r.value.dateKeys| == |r.value.moodLabels| == |r.value.moodScores|
    ensures r.Some? ==> forall i :: 0 <= i < |r.value.moodScores| ==>
      r.value.moodScores[i] == MoodScore(r.value.moodLabels[i]) && 0 <= r.value.moodScores[i] <= 5
  {
    if log == [] then None
    else
      var recent := RecentMoods(log);
      var dateKeys := Reverse(Keys(recent));
      var moodLabels := Reverse(Values(recent));
      var moodScores := seq(|moodLabels|, i requires 0 <= i < |moodLabels| => MoodScore(moodLabels[i]));
      var todayMood := if moodLabels != [] then moodLabels[|moodLabels| - 1] else NoMoodLabel;
      Some(Trend(dateKeys, moodLabels, moodScores, todayMood))
  }

  /** The series are `recent_moods`'s keys and values reversed. */
  lemma TrendShape(log: seq<Entry>)
    requires log != []
    ensures ShowDashboard(log).value.dateKeys == Reverse(Keys(RecentMoods(log)))
    ensures ShowDashboard(log).value.moodLabels == Reverse(Values(RecentMoods(log)))
  {
  }

  /** The trend series is `recent_moods` read backwards. */
  lemma TrendIsRecentReversed(log: seq<Entry>)
    requires log != []
    ensures var t := ShowDashboard(log).value; var recent := RecentMoods(log);
      && |t.dateKeys| == |recent|
      && (forall i :: 0 <= i < |recent| ==>
            t.dateKeys[i] == recent[|recent| - 1 - i].0 && t.moodLabels[i] == recent[|recent| - 1 - i].1)
  {
    TrendShape(log);
    ReversedEntries(RecentMoods(log));
  }

  lemma ReversedEntries(d: Dict<string, string>)
    ensures |Reverse(Keys(d))| == |d|
    ensures forall i :: 0 <= i < |d| ==>
      Reverse(Keys(d))[i] == d[|d| - 1 - i].0 && Reverse(Values(d))[i] == d[|d| - 1 - i].1
  {
    ReversedKeys(d);
    ReversedValues(d);
  }

  lemma ReversedKeys(d: Dict<string, string>)
    ensures |Reverse(Keys(d))| == |d|
    ensures forall i :: 0 <= i < |d| ==> Reverse(Keys(d))[i] == d[|d| - 1 - i].0
  {
    var ks := Keys(d);
    forall i | 0 <= i < |d|
      ensures Reverse(ks)[i] == d[|d| - 1 - i].0
    {
      assert Reverse(ks)[i] == ks[|d| - 1 - i];
    }
  }

  lemma ReversedValues(d: Dict<string, string>)
    ensures forall i :: 0 <= i < |d| ==> Reverse(Values(d))[i] == d[|d| - 1 - i].1
  {
    var vs := Values(d);
    forall i | 0 <= i < |d|
      ensures Reverse(vs)[i] == d[|d| - 1 - i].1
    {
      assert Reverse(vs)[i] == vs[|d| - 1 - i];
    }
  }

  /** At most seven points, on pairwise distinct dates. */
  lemma TrendDistinctDates(log: seq<Entry>)
    requires log != []
    ensures var t := ShowDashboard(log).value;
      |t.dateKeys| <= TrendDays && Distinct(t.dateKeys)
  {
    var recent := RecentMoods(log);
    RecentMoodsSelected(log);
    var ks := Keys(recent);
    assert Distinct(ks);
    assert ShowDashboard(log).value.dateKeys == Reverse(ks);
  }

  /** Each point is a date of the log with the mood of the last entry logged
      that day. */
  lemma TrendLatestMoods(log: seq<Entry>)
    requires log != []
    ensures var t := ShowDashboard(log).value;
      && (forall i :: 0 <= i < |t.dateKeys| ==> t.dateKeys[i] in Dates(log))
      && (forall i :: 0 <= i < |t.dateKeys| ==> t.moodLabels[i] == log[LastIndex(log, t.dateKeys[i])].mood)
  {
    var recent := RecentMoods(log);
    RecentMoodsSelected(log);
    TrendIsRecentReversed(log);
    var t := ShowDashboard(log).value;
    forall i | 0 <= i < |t.dateKeys|
      ensures t.dateKeys[i] in Dates(log)
    {
      var li := LastIndex(log, t.dateKeys[i]);
      assert log[li].date == t.dateKeys[i];
    }
  }

  /** Labels and dates are index-aligned through `recent_moods`:
      `mood_labels[i] == recent_moods[date_keys[i]]`. */
  lemma TrendAligned(log: seq<Entry>)
    requires log != []
    ensures var t := ShowDashboard(log).value;
      forall i :: 0 <= i < |t.dateKeys| ==> Lookup(RecentMoods(log), t.dateKeys[i]) == Some(t.moodLabels[i])
  {
    var recent := RecentMoods(log);
    RecentMoodsSelected(log);
    TrendIsRecentReversed(log);
    assert Valid(recent);
  }

  /** There are `min(k, 7)` points for a log with `k` distinct dates, and they
      run oldest to newest by latest entry. */
  lemma TrendSelection(log: seq<Entry>)
    requires log != []
    ensures var t := ShowDashboard(log).value;
      && |t.dateKeys| == Min(|Dates(log)|, TrendDays)
      && (forall i, j :: 0 <= i < j < |t.dateKeys| ==> LastIndex(log, t.dateKeys[i]) < LastIndex(log, t.dateKeys[j]))
  {
    RecentMoodsSelected(log);
    TrendIsRecentReversed(log);
  }

  /** A date the scan did not keep was last logged before every date it kept. */
  lemma SelectedKeepsNewest(log: seq<Entry>, recent: Dict<string, string>, d: string, j: nat)
    requires Selected(log, recent)
    requires d in Dates(log) && d !in Keys(recent) && j < |recent|
    ensures LastIndex(log, d) < LastIndex(log, recent[j].0)
  {
    var i :| 0 <= i < |log| && log[i].date == d;
    assert LastIndex(log, d) >= i;
  }

  /** Every date `recent_moods` left out was last logged before every date
      it kept. */
  lemma RecentKeepsNewest(log: seq<Entry>)
    ensures var recent := RecentMoods(log);
      forall d, j :: d in Dates(log) && d !in Keys(recent) && 0 <= j < |recent| ==>
        LastIndex(log, d) < LastIndex(log, recent[j].0)
  {
    var recent := RecentMoods(log);
    RecentMoodsSelected(log);
    forall d, j | d in Dates(log) && d !in Keys(recent) && 0 <= j < |recent|
      ensures LastIndex(log, d) < LastIndex(log, recent[j].0)
    {
      SelectedKeepsNewest(log, recent, d, j);
    }
  }

  /** The chosen dates are those whose latest entry is most recent: every date
      left out was last logged before every date kept. */
  lemma TrendKeepsNewestDates(log: seq<Entry>)
    requires log != []
    ensures var t := ShowDashboard(log).value;
      forall d, j :: d in Dates(log) && d !in t.dateKeys && 0 <= j < |t.dateKeys| ==>
        LastIndex(log, d) < LastIndex(log, t.dateKeys[j])
  {
    TrendShape(log);
    RecentKeepsNewest(log);
    ReversedKeepsNewest(log, RecentMoods(log));
  }

  /** The newest-dates property carries over from the keys to their reversal. */
  lemma ReversedKeepsNewest(log: seq<Entry>, recent: Dict<string, string>)
    requires forall d, j :: d in Dates(log) && d !in Keys(recent) && 0 <= j < |recent| ==>
      LastIndex(log, d) < LastIndex(log, recent[j].0)
    ensures var dk := Reverse(Keys(recent));
      forall d, j :: d in Dates(log) && d !in dk && 0 <= j < |dk| ==>
        LastIndex(log, d) < LastIndex(log, dk[j])
  {
    var ks := Keys(recent);
    var dk := Reverse(ks);
    ReversedKeys(recent);
    forall d, j | d in Dates(log) && d !in dk && 0 <= j < |dk|
      ensures LastIndex(log, d) < LastIndex(log, dk[j])
    {
      ReverseMembers(ks, d);
      var k := |recent| - 1 - j;
      assert dk[j] == recent[k].0;
    }
  }

  /** Today's mood is the mood of the newest entry, so the Neutral fallback
      is never shown. */
  lemma TodayMoodIsNewest(log: seq<Entry>)
    requires log != []
    ensures ShowDashboard(log).value.todayMood == log[|log| - 1].mood
  {
    var recent := RecentMoods(log);
    RecentMoodsSelected(log);
    var d := log[|log| - 1].date;
    assert LastIndex(log, d) == |log| - 1;
    assert d in Dates(log);
    assert |recent| > 0;
    // The newest date is the first key the scan records.
    assert LastIndex(log, recent[0].0) <= |log| - 1;
    assert d in Keys(recent);
    var k :| 0 <= k < |recent| && Keys(recent)[k] == d;
    assert k == 0;
  }
}
