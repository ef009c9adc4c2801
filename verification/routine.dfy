/** The daily routine of the wellness-tips screen (phase5_personalized_tips.py).
    The `routines.csv` file is a table of `(date, activity)` rows; `None`
    stands for the file not existing yet. The screen edits an in-memory
    working set, a dict from activity to completed flag, and saves only its
    activity names. */
module Routine {
  import opened Wrappers
  import opened Seqs
  import opened Text
  import opened OrderedDict

  datatype Row = Row(date: string, activity: string)

  type Table = seq<Row>

  /** The rows `save_routine` builds for `date`: one per activity, in order. */
  function NewRows(date: string, activities: seq<string>): (rows: Table)
    ensures |rows| == |activities|
  {
    seq(|activities|, i requires 0 <= i < |activities| => Row(date, activities[i]))
  }

  /** `existing[existing["date"] != date]`: the rows of the other dates, in
      order. */
  function OtherDates(rows: Table, date: string): (r: Table)
    ensures |r| <= |rows|
    ensures forall i :: 0 <= i < |r| ==> r[i].date != date
  {
    if rows == [] then []
    else if rows[0].date != date then [rows[0]] + OtherDates(rows[1..], date)
    else OtherDates(rows[1..], date)
  }

  /** `df[df["date"] == date]["activity"].tolist()`. */
  function ActivitiesOn(rows: Table, date: string): seq<string> {
    if rows == [] then []
    else if rows[0].date == date then [rows[0].activity] + ActivitiesOn(rows[1..], date)
    else ActivitiesOn(rows[1..], date)
  }

  /** The table read from the store; an absent file reads as no rows. */
  function Rows(store: Option<Table>): Table {
    store.GetOr([])
  }

  /** `save_routine(date, selected_activities)`: the rows of `date` are
      replaced by the new ones, which go at the end of the table. */
  function SaveRoutine(store: Option<Table>, date: string, activities: seq<string>): (t: Table)
    ensures ActivitiesOn(t, date) == activities
    ensures |activities| <= |t| && t[|t| - |activities|..] == NewRows(date, activities)
    ensures OtherDates(t, date) == OtherDates(Rows(store), date)
    ensures forall d :: d != date ==> ActivitiesOn(t, d) == ActivitiesOn(Rows(store), d)
    ensures store.None? ==> t == NewRows(date, activities)
  {
    var added := NewRows(date, activities);
    var t := match store
      case None => added
      case Some(existing) => OtherDates(existing, date) + added;
    var others := OtherDates(Rows(store), date);
    assert t == others + added;
    assert t[|others|..] == added;
    SaveRoutineRows(OtherDates(Rows(store), date), date, activities);
    OtherDatesTwice(Rows(store), date);
    forall d | d != date ensures ActivitiesOn(t, d) == ActivitiesOn(Rows(store), d) {
      ActivitiesOnOther(Rows(store), date, d);
      ActivitiesOnAppend(OtherDates(Rows(store), date), added, d);
      ActivitiesOnNew(date, activities, d);
    }
    t
  }

  /** `load_today_routine(date)`: the activities of the rows of `date`, in
      row order; none when the file is absent. */
  function LoadTodayRoutine(store: Option<Table>, date: string): (acts: seq<string>)
    ensures store.None? ==> acts == []
    ensures |acts| <= |Rows(store)|
  {
    match store
    case None => []
    case Some(rows) => ActivitiesOnLength(rows, date); ActivitiesOn(rows, date)
  }

  // ---------------------------------------------------------------------------
  // Helper facts about the row filters

  lemma {:induction false} ActivitiesOnLength(rows: Table, date: string)
    ensures |ActivitiesOn(rows, date)| <= |rows|
  {
    if rows != [] {
      ActivitiesOnLength(rows[1..], date);
    }
  }

  lemma {:induction false} ActivitiesOnAppend(a: Table, b: Table, date: string)
    ensures ActivitiesOn(a + b, date) == ActivitiesOn(a, date) + ActivitiesOn(b, date)
  {
    if a == [] {
      assert a + b == b;
    } else {
      assert (a + b)[1..] == a[1..] + b;
      ActivitiesOnAppend(a[1..], b, date);
    }
  }

  lemma {:induction false} OtherDatesAppend(a: Table, b: Table, date: string)
    ensures OtherDates(a + b, date) == OtherDates(a, date) + OtherDates(b, date)
  {
    if a == [] {
      assert a + b == b;
    } else {
      assert (a + b)[1..] == a[1..] + b;
      OtherDatesAppend(a[1..], b, date);
    }
  }

  lemma {:induction false} ActivitiesOnNew(date: string, activities: seq<string>, d: string)
    ensures ActivitiesOn(NewRows(date, activities), d) == if d == date then activities else []
  {
    if activities != [] {
      assert NewRows(date, activities)[1..] == NewRows(date, activities[1..]);
      ActivitiesOnNew(date, activities[1..], d);
    }
  }

  lemma {:induction false} OtherDatesNew(date: string, activities: seq<string>)
    ensures OtherDates(NewRows(date, activities), date) == []
  {
    if activities != [] {
      assert NewRows(date, activities)[1..] == NewRows(date, activities[1..]);
      OtherDatesNew(date, activities[1..]);
    }
  }

  /** Rows of other dates carry none of `date`'s activities. */
  lemma {:induction false} ActivitiesOnOther(rows: Table, date: string, d: string)
    ensures ActivitiesOn(OtherDates(rows, date), d) == if d == date then [] else ActivitiesOn(rows, d)
  {
    if rows != [] {
      ActivitiesOnOther(rows[1..], date, d);
    }
  }

  lemma {:induction false} OtherDatesTwice(rows: Table, date: string)
    ensures OtherDates(OtherDates(rows, date), date) == OtherDates(rows, date)
  {
    if rows != [] {
      OtherDatesTwice(rows[1..], date);
    }
  }

  /** The table `others + NewRows(date, activities)` for rows `others` of other dates. */
  lemma SaveRoutineRows(others: Table, date: string, activities: seq<string>)
    requires forall i :: 0 <= i < |others| ==> others[i].date != date
    ensures ActivitiesOn(others + NewRows(date, activities), date) == activities
    ensures OtherDates(others + NewRows(date, activities), date) == OtherDates(others, date)
  {
    ActivitiesOnAppend(others, NewRows(date, activities), date);
    ActivitiesOnNew(date, activities, date);
    OtherDatesAppend(others, NewRows(date, activities), date);
    OtherDatesNew(date, activities);
    NoActivitiesOn(others, date);
  }

  lemma {:induction false} NoActivitiesOn(rows: Table, date: string)
    requires forall i :: 0 <= i < |rows| ==> rows[i].date != date
    ensures ActivitiesOn(rows, date) == []
  {
    if rows != [] {
      NoActivitiesOn(rows[1..], date);
    }
  }

  // ---------------------------------------------------------------------------
  // Properties of the store

  /** Loading a date just saved gives back exactly the saved activities. */
  lemma SaveThenLoad(store: Option<Table>, date: string, activities: seq<string>)
    ensures LoadTodayRoutine(Some(SaveRoutine(store, date, activities)), date) == activities
  {
  }

  /** Saving leaves what every other date loads unchanged. */
  lemma SaveKeepsOtherDates(store: Option<Table>, date: string, activities: seq<string>, other: string)
    requires other != date
    ensures LoadTodayRoutine(Some(SaveRoutine(store, date, activities)), other) == LoadTodayRoutine(store, other)
  {
  }

  /** Saving the same routine twice gives the table of saving it once. */
  lemma SaveIdempotent(store: Option<Table>, date: string, activities: seq<string>)
    ensures SaveRoutine(Some(SaveRoutine(store, date, activities)), date, activities)
         == SaveRoutine(store, date, activities)
  {
    var t := SaveRoutine(store, date, activities);
    var others := OtherDates(Rows(store), date);
    assert t == others + NewRows(date, activities);
  }

  // ---------------------------------------------------------------------------
  // The working set

  /** `routine_data`: activity name to completed flag, in insertion order. */
  type WorkingSet = Dict<string, bool>

  /** `{activity: False for activity in activities}`: a repeated name keeps
      its first position. */
  function InitWorkingSet(activities: seq<string>): (ws: WorkingSet)
    ensures Valid(ws)
    ensures Keys(ws) == Dedup(activities)
    ensures forall i :: 0 <= i < |ws| ==> !ws[i].1
  {
    if activities == [] then []
    else
      var prefix := activities[..|activities| - 1];
      var d := InitWorkingSet(prefix);
      var a := activities[|activities| - 1];
      PutValid(d, a, false);
      PutAllFalse(d, a);
      Put(d, a, false)
  }

  lemma {:induction false} PutAllFalse(d: WorkingSet, a: string)
    requires forall i :: 0 <= i < |d| ==> !d[i].1
    ensures forall i :: 0 <= i < |Put(d, a, false)| ==> !Put(d, a, false)[i].1
  {
    if d != [] && d[0].0 != a {
      PutCons(d, a, false);
      PutAllFalse(d[1..], a);
    }
  }

  /** `if "routine_data" not in st.session_state`: the working set is built
      from the store only when the session has none yet. */
  function SessionWorkingSet(session: Option<WorkingSet>, store: Option<Table>, date: string): (ws: WorkingSet)
    ensures session.Some? ==> ws == session.value
    ensures session.None? ==> Keys(ws) == Dedup(LoadTodayRoutine(store, date))
    ensures session.None? ==> forall i :: 0 <= i < |ws| ==> !ws[i].1
  {
    match session
    case Some(ws) => ws
    case None => InitWorkingSet(LoadTodayRoutine(store, date))
  }

  /** The checkbox column: each row's flag becomes what its checkbox shows;
      names and order are untouched. */
  function ApplyCheckboxes(ws: WorkingSet, ticks: seq<bool>): (r: WorkingSet)
    requires |ticks| == |ws|
    ensures Keys(r) == Keys(ws)
    ensures forall i :: 0 <= i < |r| ==> r[i] == (ws[i].0, ticks[i])
  {
    seq(|ws|, i requires 0 <= i < |ws| => (ws[i].0, ticks[i]))
  }

  /** One pass over the saved-routine rows: checkboxes are applied, then the
      rows whose delete button was pressed are popped. */
  function RoutineRowsPass(ws: WorkingSet, ticks: seq<bool>, pressed: set<string>): (r: WorkingSet)
    requires Valid(ws) && |ticks| == |ws|
    ensures Valid(r)
    ensures forall k :: k in Keys(r) <==> k in Keys(ws) && k !in pressed
    ensures forall i :: 0 <= i < |ws| && ws[i].0 !in pressed ==> Lookup(r, ws[i].0) == Some(ticks[i])
  {
    var checked := ApplyCheckboxes(ws, ticks);
    forall i | 0 <= i < |ws| ensures Lookup(checked, ws[i].0) == Some(ticks[i]) {
      assert Keys(checked)[i] == ws[i].0;
    }
    DeletePressed(checked, pressed)
  }

  /** The "Add Activity" button: a blank input is ignored; otherwise the
      stripped name is marked not completed, appended if new, and nothing
      else changes. */
  function AddActivity(ws: WorkingSet, input: string): (r: WorkingSet)
    ensures AllSpace(input) ==> r == ws
    ensures !AllSpace(input) ==> Lookup(r, Strip(input)) == Some(false)
    ensures !AllSpace(input) ==>
      Keys(r) == if Strip(input) in Keys(ws) then Keys(ws) else Keys(ws) + [Strip(input)]
    ensures forall k :: (AllSpace(input) || k != Strip(input)) ==> Lookup(r, k) == Lookup(ws, k)
    ensures Valid(ws) ==> Valid(r)
  {
    var name := Strip(input);
    if name == "" then ws
    else if Valid(ws) then
      PutValid(ws, name, false);
      Put(ws, name, false)
    else
      Put(ws, name, false)
  }

  /** The checkbox loop row by row: after `n` rows, each of the first `n`
      activities has been assigned its checkbox value. */
  function CheckRows(ws: WorkingSet, ticks: seq<bool>, n: nat): (r: WorkingSet)
    requires |ticks| == |ws| && n <= |ws|
    ensures Keys(r) == Keys(ws)
  {
    if n == 0 then ws
    else
      var prev := CheckRows(ws, ticks, n - 1);
      assert ws[n - 1].0 == Keys(prev)[n - 1];
      SetCompleted(prev, ws[n - 1].0, ticks[n - 1])
  }

  /** Assigning the checkboxes one row at a time gives the whole checkbox
      column at once. */
  lemma {:induction false} CheckboxesRowByRow(ws: WorkingSet, ticks: seq<bool>, n: nat)
    requires Valid(ws) && |ticks| == |ws| && n <= |ws|
    ensures CheckRows(ws, ticks, n) == ApplyCheckboxes(ws[..n], ticks[..n]) + ws[n..]
  {
    if n == 0 {
      assert ws[..0] == [] && ws[0..] == ws;
    } else {
      CheckboxesRowByRow(ws, ticks, n - 1);
      CheckStepAt(ws, ticks, n);
      CheckStep(ws, ticks, n);
      RowStep(CheckRows(ws, ticks, n - 1), n - 1, ticks[n - 1],
        ApplyCheckboxes(ws[..n - 1], ticks[..n - 1]) + ws[n - 1..], ApplyCheckboxes(ws[..n], ticks[..n]) + ws[n..]);
    }
  }

  /** The whole checkbox loop of the screen equals `ApplyCheckboxes`. */
  lemma CheckboxLoop(ws: WorkingSet, ticks: seq<bool>)
    requires Valid(ws) && |ticks| == |ws|
    ensures CheckRows(ws, ticks, |ws|) == ApplyCheckboxes(ws, ticks)
  {
    CheckboxesRowByRow(ws, ticks, |ws|);
    assert ws[..|ws|] == ws && ticks[..|ws|] == ticks && ws[|ws|..] == [];
  }

  /** One row of the loop, over any dicts standing for the states before
      and after it: assigning the row's flag is updating that row in place. */
  lemma RowStep(prev: WorkingSet, i: nat, v: bool, before: WorkingSet, after: WorkingSet)
    requires Valid(prev) && i < |prev| && prev == before
    requires after == before[i := (before[i].0, v)]
    ensures Put(prev, prev[i].0, v) == after
  {
    FirstAt(prev, i);
    PutAt(prev, i, v);
  }

  lemma CheckStepAt(ws: WorkingSet, ticks: seq<bool>, n: nat)
    requires |ticks| == |ws| && 0 < n <= |ws|
    ensures (ApplyCheckboxes(ws[..n - 1], ticks[..n - 1]) + ws[n - 1..])[n - 1] == ws[n - 1]
  {
  }

  lemma CheckStep(ws: WorkingSet, ticks: seq<bool>, n: nat)
    requires |ticks| == |ws| && 0 < n <= |ws|
    ensures (ApplyCheckboxes(ws[..n - 1], ticks[..n - 1]) + ws[n - 1..])[n - 1 := (ws[n - 1].0, ticks[n - 1])]
      == ApplyCheckboxes(ws[..n], ticks[..n]) + ws[n..]
  {
  }

  /** Ticking or unticking the checkbox of an activity. */
  function SetCompleted(ws: WorkingSet, activity: string, completed: bool): (r: WorkingSet)
    requires activity in Keys(ws)
    ensures Keys(r) == Keys(ws)
    ensures Lookup(r, activity) == Some(completed)
    ensures forall k :: k != activity ==> Lookup(r, k) == Lookup(ws, k)
  {
    Put(ws, activity, completed)
  }

  /** `to_delete`: the activities whose delete button was pressed, in the
      working set's order. */
  function MarkedForDeletion(ws: WorkingSet, pressed: set<string>): (marked: seq<string>)
    ensures Distinct(Keys(ws)) ==> Distinct(marked)
    ensures forall i :: 0 <= i < |marked| ==> marked[i] in Keys(ws) && marked[i] in pressed
    ensures forall i :: 0 <= i < |ws| && ws[i].0 in pressed ==> ws[i].0 in marked
  {
    if ws == [] then []
    else
      var rest := MarkedForDeletion(ws[1..], pressed);
      KeysCons(ws);
      if ws[0].0 in pressed then [ws[0].0] + rest else rest
  }

  /** The set of the elements of `s`. */
  function Elements(s: seq<string>): (r: set<string>)
    ensures forall x :: x in r <==> x in s
  {
    set x | x in s
  }

  /** `for act in to_delete: routine_data.pop(act)`; `pop` would raise
      `KeyError` on a name not in the dict. */
  function PopAll(ws: WorkingSet, toDelete: seq<string>): (r: WorkingSet)
    requires Valid(ws) && Distinct(toDelete)
    requires forall i :: 0 <= i < |toDelete| ==> toDelete[i] in Keys(ws)
    ensures r == Without(ws, Elements(toDelete))
    decreases toDelete
  {
    if toDelete == [] then
      assert Elements(toDelete) == {};
      WithoutAbsent(ws, {});
      ws
    else
      var k := toDelete[0];
      var rest := toDelete[1..];
      var ws' := Pop(ws, k);
      PopStep(ws, toDelete);
      var r := PopAll(ws', rest);
      assert ws' == Without(ws, {k});
      WithoutWithout(ws, {k}, Elements(rest));
      assert r == Without(ws, {k} + Elements(rest));
      r
  }

  /** After popping the first name, the rest still meet `PopAll`'s demands. */
  lemma PopStep(ws: WorkingSet, toDelete: seq<string>)
    requires Valid(ws) && Distinct(toDelete) && toDelete != []
    requires forall i :: 0 <= i < |toDelete| ==> toDelete[i] in Keys(ws)
    ensures Valid(Pop(ws, toDelete[0]))
    ensures Distinct(toDelete[1..])
    ensures forall i :: 0 <= i < |toDelete| - 1 ==> toDelete[1..][i] in Keys(Pop(ws, toDelete[0]))
    ensures Elements(toDelete) == {toDelete[0]} + Elements(toDelete[1..])
  {
    var k := toDelete[0];
    var rest := toDelete[1..];
    assert forall i :: 0 <= i < |rest| ==> rest[i] == toDelete[i + 1];
    assert forall i :: 0 <= i < |rest| ==> rest[i] in Keys(ws) && rest[i] != k;
    PopKeeps(ws, k, rest);
    ElementsCons(toDelete);
  }

  /** Popping one name keeps the dict valid and keeps every other name. */
  lemma PopKeeps(ws: WorkingSet, k: string, rest: seq<string>)
    requires Valid(ws) && k in Keys(ws)
    requires forall i :: 0 <= i < |rest| ==> rest[i] in Keys(ws) && rest[i] != k
    ensures Valid(Pop(ws, k))
    ensures forall i :: 0 <= i < |rest| ==> rest[i] in Keys(Pop(ws, k))
  {
    assert Pop(ws, k) == Without(ws, {k});
  }

  lemma ElementsCons(s: seq<string>)
    requires s != []
    ensures Elements(s) == {s[0]} + Elements(s[1..])
  {
    assert s == [s[0]] + s[1..];
  }

  /** The delete buttons of one run: exactly the pressed activities leave the
      working set; the others keep their flags and their order. */
  function DeletePressed(ws: WorkingSet, pressed: set<string>): (r: WorkingSet)
    requires Valid(ws)
    ensures r == Without(ws, pressed)
    ensures forall k :: Lookup(r, k) == if k in pressed then None else Lookup(ws, k)
  {
    var marked := MarkedForDeletion(ws, pressed);
    var r := PopAll(ws, marked);
    WithoutOnKeys(ws, Elements(marked), pressed);
    r
  }

  /** The "Save Today's Routine" button: only the names are written. */
  function SaveWorkingSet(store: Option<Table>, date: string, ws: WorkingSet): (t: Table)
    ensures ActivitiesOn(t, date) == Keys(ws)
  {
    SaveRoutine(store, date, Keys(ws))
  }

  /** Completion state does not survive a save and reload: the reloaded
      working set has the same activities in the same order, all not done. */
  lemma CompletionNotPersisted(store: Option<Table>, date: string, ws: WorkingSet)
    requires Valid(ws)
    ensures var reloaded := InitWorkingSet(LoadTodayRoutine(Some(SaveWorkingSet(store, date, ws)), date));
      && Keys(reloaded) == Keys(ws)
      && forall i :: 0 <= i < |reloaded| ==> !reloaded[i].1
  {
    DedupOfDistinct(Keys(ws));
  }
}
