# MindMates core in Dafny

A functional model of the logic inside MindMates, a Streamlit wellness app.
The model covers four screens.

- **Mood tracker** (`phase1_mood_tracker.py`).
  - Submitting the form appends an entry with the note stripped of surrounding whitespace.
  - `generate_summary` counts entries per mood in a dict that keeps insertion order.
  - `generate_pdf` produces the report: a total, the summary lines, then one block per entry, newest first and numbered from 1. A non-empty note is wrapped by `split_text` at 85 characters.
- **Dashboard** (`phase4_dashboard.py`).
  - The second tracker appends the note exactly as typed and records `last_date`, `last_mood` and `last_note`.
  - The mood trend scans the log newest first and keeps the first mood met for each date, which is the last one logged that day. The scan stops at seven dates.
  - The trend is reversed into chronological order and scored through `mood_numeric`, with 3 for an unknown label.
- **Daily routine** (`phase5_personalized_tips.py`).
  - `routines.csv` is a table of (date, activity) rows. `save_routine` replaces the rows of a date and puts the new rows at the end. `load_today_routine` reads the rows of a date back.
  - The screen edits a working set, a dict from activity to completed flag. Checkboxes set the flags, delete buttons pop entries, and "Add Activity" inserts a stripped name. Save writes only the names.
- **AI companion** (`phase3_ai_companion.py`).
  - The chat history is cleared when the date differs from the stored chat date. The check is module-level code, so it runs once, when the server process first imports the module (`main.py:5`). Later reruns in the same process, on any date, keep the history (see Findings).
  - The mood-to-tone table picks the prompt's tone, with a default for unknown moods.
  - The reply gets the `🤖 MindMate: ` prefix and is stripped.
  - Each turn appends the user's message and then the prefixed reply.

Python semantics the model spells out:

- A dict is a sequence of key/value pairs (`OrderedDict`). Assigning to an existing key keeps its position and assigning to a new key appends it. `pop` removes the key in place.
- `str.split()`, `str.strip()` and `" ".join` are defined over Python's whitespace set (`Text`).
- Strings are sequences of code points, so `len` is `|s|`.

Inputs the model treats as parameters:

- The clock: today's date and the report's formatted generation time.
- The language model's reply.
- The routine file, as `Option<Table>`, where `None` means the file does not exist.
- Widget states: checkbox ticks, pressed delete buttons, chat input.

Behaviour the model keeps as the code has it:

- `split_text` tests `len(line + " " + word) <= max_chars` even while the line is empty.
  - A first word of at least `max_chars` characters therefore emits an empty first line. `Wrap.SplitTextLeadingEmpty` states exactly when this happens.
  - A word longer than the width gets a line of its own that is wider than the width.
- The first tracker stores `note.strip()`. The second stores the note as typed. `MoodLog.TrackersAgree` states when the two logs coincide.
- The trend orders its dates by the position of each date's latest entry in the log, not by comparing date strings. With a clock that never runs backwards these are the same order. For a log whose dates are out of order, the points are therefore not in date order, and the model follows the code.
- The companion reads the session key `"mood"` with default `"Calm"`. No screen in this model writes that key. The tracker labels carry an emoji (`"😊 Happy"`), so they would get the default tone even if they were stored there (`Companion.TrackerLabelsGetDefaultTone`).
- The daily reset of the companion runs at import time only, and the model keeps that timing (`Companion.Process`). The reset on every rerun that the comment promises is modelled separately (`Companion.RerunWithReset`).
- The routine file keeps no completion flags, so a save followed by a reload shows every activity not done (`Routine.CompletionNotPersisted`).

Modules: `Wrappers` (Option), `Seqs` (sequence helpers), `Text`, `OrderedDict`, `Wrap` (split_text), `MoodLog`, `Report`, `Dashboard`, `Routine`, `Companion`.

## Model

| member | source | states |
|---|---|---|
| Text.Words | phase1_mood_tracker.py:9 | `split()` yields non-empty words with no whitespace inside, and yields none exactly when the text is all whitespace |
| Text.Strip | phase1_mood_tracker.py:107 | `strip()` is the slice that starts after the leading whitespace and is followed only by whitespace. It is empty exactly when the text is all whitespace, and otherwise starts and ends with a non-whitespace character |
| Text.WordsOfJoin | phase1_mood_tracker.py:13 | splitting the single-space join of a word list gives the same list back, so join and split are inverse on the lines `split_text` builds |
| Text.StrippedUnique | phase1_mood_tracker.py:107 | a text is `s.strip()` if and only if it is a slice of `s` with only whitespace before and after it and no whitespace at either end |
| Text.StripIdempotent | phase1_mood_tracker.py:107 | stripping twice gives the same text as stripping once |
| Text.WordsOfStrip | phase1_mood_tracker.py:107 | stripping a text loses no word: `s.strip().split() == s.split()` |
| Wrap.Fill | phase1_mood_tracker.py:10-18 | the loop of `split_text` only appends: the lines already emitted stay in front, and at most one line per remaining word, plus one, is added |
| Wrap.FillLayout | phase1_mood_tracker.py:10-18 | the loop, started with no lines and an empty line, emits the single-space joins of a word grouping laid out as `Layout` says: the groups concatenate to the words, only the first may be empty (exactly when the first word has at least `max_chars` characters), a group of two or more words fits, and each break is greedy |
| Wrap.SplitText | phase1_mood_tracker.py:8-19 | no contract of its own: it runs `Fill` on `text.split()` from an empty state, and `Wrap.SplitTextGroups` gives its layout |
| Wrap.SplitTextGroups | phase1_mood_tracker.py:8-19 | the lines are the single-space joins of word groups. The groups concatenate to `text.split()`, every group after the first is non-empty, a group of two or more words fits the width, and each break is greedy |
| Wrap.SplitTextNoWords | phase1_mood_tracker.py:8-19 | `split_text` returns no lines exactly when the text has no words |
| Wrap.SplitTextKeepsWords | phase1_mood_tracker.py:8-19 | the words of the lines, read in order, are exactly the words of the text, and each line is its words joined by single spaces |
| Wrap.SplitTextWidth | phase1_mood_tracker.py:12-16 | a line of two or more words is at most `max_chars` long. A non-empty line longer than that holds a single word |
| Wrap.SplitTextGreedy | phase1_mood_tracker.py:12-16 | after a non-empty line, the next line's first word would have made that line longer than `max_chars` |
| Wrap.SplitTextLeadingEmpty | phase1_mood_tracker.py:10-18 | only the first line can be empty, and it is empty exactly when the first word has at least `max_chars` characters |
| OrderedDict.GetLookup | phase1_mood_tracker.py:25 | `d.get(k, default)` is the value stored under `k` when `k` is a key, and the default otherwise |
| OrderedDict.PutAt | phase5_personalized_tips.py:98 | assigning to a key that first occurs at position `i` replaces the pair at `i` and leaves the rest of the dict as it was |
| OrderedDict.Put | phase1_mood_tracker.py:25 | `d[k] = v` keeps the key order for an existing key and appends a new key. Afterwards `k` maps to `v` and every other key is unchanged |
| OrderedDict.Pop | phase5_personalized_tips.py:106 | `d.pop(k)` on a present key of a dict with distinct keys is the dict without that key, in the same order |
| MoodLog.Summarize | phase1_mood_tracker.py:21-26 | the summary's keys are the distinct moods in first-logged order. Each mood's count equals the number of entries with that mood, counted independently, and the counts add up to the number of entries |
| MoodLog.SummarizeKeys | phase1_mood_tracker.py:21-26 | a mood is a key of the summary if and only if some entry has that mood |
| MoodLog.LogMood | phase1_mood_tracker.py:103-109 | one entry is appended after the unchanged log, with today's date and the chosen mood. Its note is exactly `note.strip()`: the slice of the typed note between its leading and trailing whitespace. It keeps the typed note's words and is empty exactly when the typed note is all whitespace |
| MoodLog.SubmitMood | phase4_dashboard.py:137-150 | one entry with the note exactly as typed is appended after the unchanged log, and `last_date`, `last_mood` and `last_note` equal the new entry's fields |
| MoodLog.TrackersAgree | phase4_dashboard.py:137-144 | the two trackers append the same entry if and only if the typed note has no surrounding whitespace |
| Report.Blocks | phase1_mood_tracker.py:61-85 | one block per entry in drawing order, numbered consecutively. Each block has the entry's date and mood, and a wrapped note exactly when the note is non-empty |
| Report.GeneratePdf | phase1_mood_tracker.py:43-85 | the total is the number of entries and equals the sum of the summary counts, which are the per-mood counts. Block `i` is entry `n-1-i`, newest first, numbered `i+1`, with the note wrapped at 85 characters exactly when it is non-empty |
| Report.EmptyReport | phase1_mood_tracker.py:43-62 | the report of an empty log has total 0, no summary lines and no entry blocks |
| Report.SplitTextOfStrip | phase1_mood_tracker.py:76 | wrapping the stripped note gives the same lines as wrapping the typed note |
| Report.LoggedEntryHeadsReport | phase1_mood_tracker.py:62-79 | after a submit, the report's first block is the new entry, numbered 1. It has a note exactly when the typed note has a non-whitespace character, wrapped as the typed note would be |
| Dashboard.MoodScore | phase4_dashboard.py:71 | a score lies in 0..5. It is the table's value for a table label and 3 for any other label |
| Dashboard.MoodScoreTable | phase4_dashboard.py:24-30 | Happy 5, Neutral 3, Anxious 2, Sad 1, Angry 0, with the labels in that key order |
| Dashboard.ScannedStep | phase4_dashboard.py:61-63 | one iteration of the loop body (`Visit`) keeps the scan's invariant. Every recorded date carries the mood of its latest entry, the recorded dates run newest first, and the date of every visited entry is recorded |
| Dashboard.Scan | phase4_dashboard.py:59-65 | the scan adds at most one date per visited entry, and when it starts below seven dates it never goes past seven |
| Dashboard.ScanKeepsRecorded | phase4_dashboard.py:59-65 | the scan never drops or reorders a date it has recorded: the dict it starts from stays in front of the result |
| Dashboard.ScanInduction | phase4_dashboard.py:59-65 | an invariant of the loop state that every visit short of seven dates preserves still holds where the loop stops, and it stops after the last entry or at seven dates |
| Dashboard.RecentMoods | phase4_dashboard.py:59-65 | `recent_moods` holds at most seven dates and no more dates than the log has entries |
| Dashboard.ScanSelects | phase4_dashboard.py:59-65 | continuing the backwards scan from any consistent partial state ends in a selection: distinct dates, at most seven, each with the mood of its latest entry, newest first, covering every date unless seven were reached |
| Dashboard.RecentMoodsSelected | phase4_dashboard.py:59-65 | `recent_moods` is such a selection for the whole log and has `min(k, 7)` entries for a log of `k` distinct dates |
| Dashboard.ShowDashboard | phase4_dashboard.py:53-74 | there is no trend exactly when the log is empty. The three series have equal length, and each score is the label's table score in 0..5 |
| Dashboard.TrendIsRecentReversed | phase4_dashboard.py:67-70 | point `i` of the dates and labels is entry `|recent| - 1 - i` of `recent_moods` |
| Dashboard.TrendDistinctDates | phase4_dashboard.py:59-67 | the trend has at most seven points, on pairwise distinct dates |
| Dashboard.TrendLatestMoods | phase4_dashboard.py:59-70 | every point's date occurs in the log, and its label is the mood of the last entry logged on that date |
| Dashboard.TrendAligned | phase4_dashboard.py:67-70 | `mood_labels[i] == recent_moods[date_keys[i]]`, the alignment the hover labels rely on |
| Dashboard.TrendSelection | phase4_dashboard.py:59-67 | a log with `k` distinct dates gives `min(k, 7)` points, in increasing order of their latest entry |
| Dashboard.RecentKeepsNewest | phase4_dashboard.py:59-65 | every date left out of `recent_moods` was last logged before every date it keeps |
| Dashboard.TrendKeepsNewestDates | phase4_dashboard.py:59-67 | every date of the log missing from the trend was last logged before every date on it |
| Dashboard.TodayMoodIsNewest | phase4_dashboard.py:74 | for a non-empty log, `today_mood` is the mood of the newest entry, so the Neutral fallback never shows |
| Routine.SaveRoutine | phase5_personalized_tips.py:51-63 | the saved table lists exactly the given activities for the date, as its last rows. The other dates' rows and activities are unchanged, and an absent file yields only the new rows |
| Routine.LoadTodayRoutine | phase5_personalized_tips.py:66-71 | an absent file loads nothing, and a load returns no more activities than the table has rows |
| Routine.SaveThenLoad | phase5_personalized_tips.py:51-71 | loading a date right after saving it gives back exactly the saved activities, in order |
| Routine.SaveKeepsOtherDates | phase5_personalized_tips.py:57-61 | saving one date leaves what every other date loads unchanged |
| Routine.SaveIdempotent | phase5_personalized_tips.py:51-63 | saving the same activities for the same date twice gives the table of saving once |
| Routine.InitWorkingSet | phase5_personalized_tips.py:88-89 | the working set built from the loaded names has each name once, in first-occurrence order, all not completed |
| Routine.SessionWorkingSet | phase5_personalized_tips.py:88-89 | an existing session working set is kept as it is. Otherwise the set is built from today's stored routine with every flag false |
| Routine.ApplyCheckboxes | phase5_personalized_tips.py:95-98 | every activity's flag becomes its checkbox's value, and the names and their order stay as they were |
| Routine.SetCompleted | phase5_personalized_tips.py:98 | one checkbox sets one activity's flag and changes nothing else |
| Routine.CheckRows | phase5_personalized_tips.py:95-98 | the checkbox loop after `n` rows, each row one `SetCompleted`: the activity names and their order stay as they were |
| Routine.CheckboxesRowByRow | phase5_personalized_tips.py:95-98 | after `n` rows, the first `n` activities carry their checkbox values and the rest are untouched |
| Routine.CheckboxLoop | phase5_personalized_tips.py:95-98 | running the checkbox assignment row by row over the whole working set gives `ApplyCheckboxes` |
| Routine.MarkedForDeletion | phase5_personalized_tips.py:94-103 | `to_delete` holds exactly the working-set names whose button was pressed, each once |
| Routine.PopAll | phase5_personalized_tips.py:105-106 | popping the marked names one by one removes exactly those names and keeps the rest in order |
| Routine.DeletePressed | phase5_personalized_tips.py:94-106 | exactly the pressed activities leave the working set. Every other activity keeps its flag and position |
| Routine.RoutineRowsPass | phase5_personalized_tips.py:92-106 | after one pass over the rows, the working set holds the names not deleted, each with its checkbox's value, and has distinct names |
| Routine.AddActivity | phase5_personalized_tips.py:114-116 | a blank input changes nothing. Otherwise the stripped name maps to not completed, is appended only if new, and every other entry is unchanged |
| Routine.SaveWorkingSet | phase5_personalized_tips.py:123-124 | the saved routine for the date is the working set's names in order |
| Routine.CompletionNotPersisted | phase5_personalized_tips.py:88-124 | saving and reloading gives the same activities in the same order, all not completed |
| Companion.Tone | phase3_ai_companion.py:21-29 | a mood that is a table key gets the table's tone, and any other mood gets the default tone |
| Companion.ToneTable | phase3_ai_companion.py:21-28 | the six table moods and their tones |
| Companion.ToneIsDefaultExactlyOffTable | phase3_ai_companion.py:29 | the tone is the default if and only if the mood is not one of the six table moods |
| Companion.TrackerLabelsGetDefaultTone | phase3_ai_companion.py:56 | each of the tracker's emoji-prefixed labels gets the default tone |
| Companion.SessionMood | phase3_ai_companion.py:56 | no contract of its own beyond naming `get("mood", "Calm")`. Companion.PromptTone states what the session's mood means for the prompt |
| Companion.PromptTone | phase3_ai_companion.py:56-57 | a session without a mood is answered in the "mindful and reflective" tone. Otherwise the tone is that mood's tone |
| Companion.AddEmojis | phase3_ai_companion.py:48-49 | the result is the MindMate prefix followed by exactly `text.strip()`, the slice of the reply between its leading and trailing whitespace. The rest has the reply's words and is empty exactly when the reply is all whitespace |
| Companion.AddEmojisIdempotent | phase3_ai_companion.py:48-49 | prefixing the text after the prefix again gives back the same message |
| Companion.DailyReset | phase3_ai_companion.py:14-17 | one run of the date check: the date becomes today. On the same day the history is untouched, and on a new day or at first start it is empty |
| Companion.ChatTurn | phase3_ai_companion.py:72-84 | no input or empty input changes nothing. Otherwise the old history is followed by the user's message and then the prefixed reply |
| Companion.ResetKeepsWellFormed | phase3_ai_companion.py:14-17 | if the history is well formed before the reset, it is well formed after it: user and assistant alternate starting with the user, and every assistant message has the prefix |
| Companion.TurnKeepsWellFormed | phase3_ai_companion.py:83-84 | a turn keeps the history well formed |
| Companion.Turns | phase3_ai_companion.py:72-84 | a series of reruns keeps the date and every earlier message, adds exactly two messages per non-empty input, and keeps the history well formed |
| Companion.Process | phase3_ai_companion.py:14-17 | a server process as written: the date check runs once at import, on the start day, and later reruns only append. The date stays the start day, and the history after the check is kept as a prefix |
| Companion.TurnsSnoc | phase3_ai_companion.py:72-84 | one more rerun extends the earlier reruns by exactly one turn |
| Companion.HistoryOutlivesDay | phase3_ai_companion.py:14-17 | in a running process a later input, on any date, adds two messages after everything shown so far, and the stored date stays the start day |
| Companion.NoResetOnNextDay | phase3_ai_companion.py:14-17 | a process that answered one message on its start day still shows it when the next message comes on a later day |
| Companion.RerunWithReset | phase3_ai_companion.py:13-17 | the intended rerun: the date check runs first, so the date becomes today. On the same day the old history is kept, and on another day at most the new turn's two messages remain |
| Companion.SameDayKeepsHistory | phase3_ai_companion.py:14-17 | with the intended check, a rerun on the same day is just the turn on the existing history |
| Companion.NewDayClearsHistory | phase3_ai_companion.py:14-17 | with the intended check, a rerun on a later day is the turn on an empty history, whatever the previous day held |
| Companion.ResetOnNextDay | phase3_ai_companion.py:13-17 | with the intended check, the scenario of `NoResetOnNextDay` shows only the later day's two messages, the user's first |

## Findings

| source | as written | input that shows it | evidently intended | confidence | as-written member | corrected member |
|---|---|---|---|---|---|---|
| phase3_ai_companion.py:13-17 | the date check is module-level code, so it runs once, when the server process first imports the module (`main.py:5`). Reruns on later days never clear the history | a process started on 2025-03-01 answers "hello"; on 2025-03-02 the user sends "good morning" in the same session, and the screen shows four messages, the first day's two included | the check runs on every rerun, so on 2025-03-02 only the two new messages are shown | not executed | Companion.NoResetOnNextDay | Companion.NewDayClearsHistory |

The as-written behaviour is `Companion.Process`, and `Companion.HistoryOutlivesDay` states it for any history. The corrected rerun is `Companion.RerunWithReset`, and `Companion.ResetOnNextDay` replays the same scenario with it.

## Left out

- Rendering is not modelled: Streamlit widgets, markdown/HTML, success messages, `st.rerun` and the clearing of the input box. The model's inputs are what the widgets return.
- PDF drawing is not modelled: coordinates, fonts, colours, separator lines, the `y < 100` page break and the `BytesIO` buffer. The model keeps the report's logical content in drawing order.
- The dashboard's one-entry FPDF report (`generate_pdf(date, mood, note)`, `download_button`) and its Latin-1 encoding are left out. Only the `last_*` keys it reads are modelled.
- Date formatting is left out: weekday and month labels from `strptime`/`strftime`, `today`'s weekday name and the report's generation time. The generation time is a parameter.
- Randomness is left out: the motivational quote, `random.sample` of tips and the phase 6 music screen.
- The language model is left out: `ChatGroq`, `ConversationChain`, its memory and the prompt template text. The model keeps the tone that goes into the template, and the reply is a parameter.
- `main.py` navigation, `utils`, and the wellness tips database are not part of this model.
- pandas/CSV mechanics are left out: type coercion of columns, missing values and the file format. The store is a list of string rows, or `None` when the file is absent.
- `pop` raising `KeyError` is not modelled. `Routine.PopAll` requires every name to be present, which holds because `to_delete` is built from the dict's own keys.
- Routine.LoadTodayRoutine: its own contract only bounds the result. What it returns is stated by `Routine.SaveThenLoad` and `Routine.SaveKeepsOtherDates`.
- Dashboard.ShowDashboard: its own contract states the shape and the scores. Which dates and moods are chosen is stated by the `Trend…` lemmas.
- Text.Words: the whitespace set is the one of `str.isspace` for current Unicode versions. It is fixed in the model rather than read from a Unicode database.
