/** The session mood log: entries appended by the two tracker screens and the
    per-mood count `generate_summary` derives from them. */
module MoodLog {
  import opened Wrappers
  import opened Seqs
  import opened Text
  import opened OrderedDict

  /** One logged mood. `date` is the ISO calendar date the entry was made
      (`YYYY-MM-DD`); `mood` is the label as chosen on the form. */
  datatype Entry = Entry(date: string, mood: string, note: string)

  /** The mood column of the log, oldest first. */
  function Moods(log: seq<Entry>): (ms: seq<string>)
    ensures |ms| == |log|
  {
    seq(|log|, i requires 0 <= i < |log| => log[i].mood)
  }

  /** The number of entries whose mood is `mood`. */
  function CountMood(log: seq<Entry>, mood: string): nat {
    if log == [] then 0
    else CountMood(log[..|log| - 1], mood) + (if log[|log| - 1].mood == mood then 1 else 0)
  }

  /** `generate_summary(logs)`: a dict from mood to count, filled by one pass
      over the log with `mood_count[mood] = mood_count.get(mood, 0) + 1`. */
  function Summarize(log: seq<Entry>): (summary: Dict<string, nat>)
    ensures Valid(summary)
    ensures Keys(summary) == Dedup(Moods(log))
    ensures forall m :: Get(summary, m, 0) == CountMood(log, m)
    ensures SumValues(summary) == |log|
  {
    if log == [] then []
    else
      var prefix := log[..|log| - 1];
      var d := Summarize(prefix);
      var m := log[|log| - 1].mood;
      var c := Get(d, m, 0);
      PutValid(d, m, c + 1);
      SumValuesBump(d, m, c);
      SummarizeStepKeys(log, d);
      SummarizeStepCounts(log, d);
      Put<string, nat>(d, m, c + 1)
  }

  /** The keys after counting one more entry. */
  lemma SummarizeStepKeys(log: seq<Entry>, d: Dict<string, nat>)
    requires log != []
    requires Keys(d) == Dedup(Moods(log[..|log| - 1]))
    ensures Keys(Put<string, nat>(d, log[|log| - 1].mood, Get(d, log[|log| - 1].mood, 0) + 1)) == Dedup(Moods(log))
  {
    assert Moods(log)[..|log| - 1] == Moods(log[..|log| - 1]);
  }

  /** The counts after counting one more entry. */
  lemma SummarizeStepCounts(log: seq<Entry>, d: Dict<string, nat>)
    requires log != []
    requires forall m :: Get(d, m, 0) == CountMood(log[..|log| - 1], m)
    ensures var m := log[|log| - 1].mood;
      forall x :: Get(Put<string, nat>(d, m, Get(d, m, 0) + 1), x, 0) == CountMood(log, x)
  {
    var m := log[|log| - 1].mood;
    var r := Put<string, nat>(d, m, Get(d, m, 0) + 1);
    forall x ensures Get(r, x, 0) == CountMood(log, x) {
      GetPut<string, nat>(d, m, Get(d, m, 0) + 1, x, 0);
    }
  }

  /** A mood is a key of the summary exactly when some entry has it. */
  lemma SummarizeKeys(log: seq<Entry>, mood: string)
    ensures mood in Keys(Summarize(log)) <==> exists i :: 0 <= i < |log| && log[i].mood == mood
  {
    var ms := Moods(log);
    var ks := Keys(Summarize(log));
    if mood in ks {
      var j :| 0 <= j < |ks| && ks[j] == mood;
      var i :| 0 <= i < |ms| && ms[i] == ks[j];
      assert log[i].mood == mood;
    }
    if i :| 0 <= i < |log| && log[i].mood == mood {
      assert ms[i] == mood;
    }
  }

  // ---------------------------------------------------------------------------
  // Logging a mood

  /** The radio labels of the first tracker's form. */
  const TrackerMoods: seq<string> := ["😊 Happy", "😐 Neutral", "😰 Anxious", "😢 Sad", "😠 Angry"]

  /** Submitting the first tracker's form: one entry for `today`, with the note
      stripped of surrounding whitespace, appended to the log. */
  function LogMood(log: seq<Entry>, today: string, mood: string, note: string): (r: seq<Entry>)
    ensures |r| == |log| + 1 && r[..|log|] == log
    ensures r[|log|].date == today && r[|log|].mood == mood
    ensures Words(r[|log|].note) == Words(note)
    ensures r[|log|].note == "" <==> AllSpace(note)
    ensures r[|log|].note != "" ==> !IsSpace(r[|log|].note[0]) && !IsSpace(r[|log|].note[|r[|log|].note| - 1])
    ensures StrippedFrom(r[|log|].note, note)
  {
    WordsOfStrip(note);
    StrippedUnique(Strip(note), note);
    log + [Entry(today, mood, Strip(note))]
  }

  /** The session keys the second tracker reads and writes. */
  datatype Tracker = Tracker(
    moodLog: seq<Entry>,
    lastDate: Option<string>,
    lastMood: Option<string>,
    lastNote: Option<string>)

  /** Submitting the second tracker's form: one entry appended, the note kept
      exactly as typed, and `last_note`, `last_mood`, `last_date` set to the
      new entry's fields for the one-entry report. */
  function SubmitMood(s: Tracker, today: string, mood: string, noteInput: string): (r: Tracker)
    ensures |r.moodLog| == |s.moodLog| + 1 && r.moodLog[..|s.moodLog|] == s.moodLog
    ensures r.moodLog[|s.moodLog|] == Entry(today, mood, noteInput)
    ensures r.lastDate == Some(r.moodLog[|s.moodLog|].date)
    ensures r.lastMood == Some(r.moodLog[|s.moodLog|].mood)
    ensures r.lastNote == Some(r.moodLog[|s.moodLog|].note)
  {
    Tracker(s.moodLog + [Entry(today, mood, noteInput)], Some(today), Some(mood), Some(noteInput))
  }

  /** The two trackers log the same entry exactly when the note has no
      surrounding whitespace. */
  lemma TrackersAgree(s: Tracker, today: string, mood: string, note: string)
    ensures SubmitMood(s, today, mood, note).moodLog == LogMood(s.moodLog, today, mood, note)
      <==> Strip(note) == note
  {
    var a := SubmitMood(s, today, mood, note).moodLog;
    var b := LogMood(s.moodLog, today, mood, note);
    if a == b {
      assert a[|s.moodLog|] == b[|s.moodLog|];
    }
  }
}
