/** The pure parts of the companion chat screen (phase3_ai_companion.py):
    the mood-to-tone lookup, the reply prefix, the date check that clears
    the chat history (run once, when the module is imported) and the two
    messages each turn appends. The language-model
    call itself is outside the model: its reply is a parameter. */
module Companion {
  import opened Wrappers
  import opened Text
  import opened OrderedDict
  import opened Seqs
  import MoodLog

  // ---------------------------------------------------------------------------
  // Tone of the prompt

  /** `tone_map` in `build_prompt`. */
  const ToneMap: Dict<string, string> := [
    ("Happy", "cheerful and enthusiastic"),
    ("Sad", "gentle and compassionate"),
    ("Anxious", "calming and reassuring"),
    ("Angry", "soothing and understanding"),
    ("Calm", "mindful and reflective"),
    ("Motivated", "encouraging and focused")
  ]

  const DefaultTone := "friendly and emotionally supportive"

  /** The mood used when the session holds none. */
  const DefaultSessionMood := "Calm"

  /** `tone_map.get(mood, "friendly and emotionally supportive")`: the
      table's tone for one of its moods, the default for anything else. */
  function Tone(mood: string): (tone: string)
    ensures mood in Keys(ToneMap) ==> Lookup(ToneMap, mood) == Some(tone)
    ensures mood !in Keys(ToneMap) ==> tone == DefaultTone
    ensures tone == DefaultTone || exists i :: 0 <= i < |ToneMap| && ToneMap[i] == (mood, tone)
  {
    GetLookup(ToneMap, mood, DefaultTone);
    GetIn(ToneMap, mood, DefaultTone);
    Get(ToneMap, mood, DefaultTone)
  }

  /** The tone table has no repeated key. */
  lemma ToneMapValid()
    ensures Valid(ToneMap)
  {
    ToneKeys();
    MoodNamesDistinct();
  }

  /** The six mood names differ in length or in their first letter. */
  lemma MoodNamesDistinct()
    ensures Distinct(["Happy", "Sad", "Anxious", "Angry", "Calm", "Motivated"])
  {
    var ks := ["Happy", "Sad", "Anxious", "Angry", "Calm", "Motivated"];
    assert forall i, j :: 0 <= i < j < |ks| ==> |ks[i]| != |ks[j]| || ks[i][0] != ks[j][0];
  }

  /** The keys of the tone table, in order. */
  lemma ToneKeys()
    ensures Keys(ToneMap) == ["Happy", "Sad", "Anxious", "Angry", "Calm", "Motivated"]
  {
  }

  /** The six plain mood names and their tones. */
  lemma ToneTable()
    ensures Keys(ToneMap) == ["Happy", "Sad", "Anxious", "Angry", "Calm", "Motivated"]
    ensures Tone("Happy") == "cheerful and enthusiastic"
    ensures Tone("Sad") == "gentle and compassionate"
    ensures Tone("Anxious") == "calming and reassuring"
    ensures Tone("Angry") == "soothing and understanding"
    ensures Tone("Calm") == "mindful and reflective"
    ensures Tone("Motivated") == "encouraging and focused"
  {
    ToneKeys();
    ToneMapValid();
    assert ToneMap[1].0 == "Sad";
    assert ToneMap[2].0 == "Anxious";
    assert ToneMap[3].0 == "Angry";
    assert ToneMap[4].0 == "Calm";
    assert ToneMap[5].0 == "Motivated";
  }

  /** `st.session_state.get("mood", "Calm")`. */
  function SessionMood(session: Option<string>): (mood: string)
    ensures session.Some? ==> mood == session.value
    ensures session.None? ==> mood == DefaultSessionMood
  {
    session.GetOr(DefaultSessionMood)
  }

  /** The tone the prompt is built with, given the session's mood. */
  function PromptTone(session: Option<string>): (tone: string)
    ensures session.None? ==> tone == "mindful and reflective"
    ensures session.Some? ==> tone == Tone(session.value)
  {
    ToneTable();
    Tone(SessionMood(session))
  }

  /** Only the moods of the table get anything but the default tone. */
  lemma ToneIsDefaultExactlyOffTable(mood: string)
    ensures Tone(mood) != DefaultTone <==> mood in Keys(ToneMap)
  {
    if mood in Keys(ToneMap) {
      var tone := Tone(mood);
      LookupIn(ToneMap, mood);
      var i :| 0 <= i < |ToneMap| && ToneMap[i] == (mood, tone);
      ToneNotDefault(i);
    }
  }

  /** No entry of the tone table carries the default tone. */
  lemma ToneNotDefault(i: nat)
    requires i < |ToneMap|
    ensures ToneMap[i].1 != DefaultTone
  {
    assert |ToneMap[i].1| != |DefaultTone|;
  }

  /** The emoji-prefixed labels of the mood tracker are not keys of the tone
      table, so a session holding one of them gets the default tone. */
  lemma TrackerLabelsGetDefaultTone(i: nat)
    requires i < |MoodLog.TrackerMoods|
    ensures Tone(MoodLog.TrackerMoods[i]) == DefaultTone
  {
    var tracked := MoodLog.TrackerMoods[i];
    ToneKeys();
    var ks := Keys(ToneMap);
    assert tracked[0] in {'😊', '😐', '😰', '😢', '😠'};
    assert forall j :: 0 <= j < |ks| ==> ks[j][0] !in {'😊', '😐', '😰', '😢', '😠'};
  }

  // ---------------------------------------------------------------------------
  // The reply prefix

  const ReplyPrefix := "🤖 MindMate: "

  /** `add_emojis_to_response(text)`: the prefix, then the reply with the
      surrounding whitespace removed. */
  function AddEmojis(text: string): (r: string)
    ensures |ReplyPrefix| <= |r| && r[..|ReplyPrefix|] == ReplyPrefix
    ensures Words(r[|ReplyPrefix|..]) == Words(text)
    ensures r == ReplyPrefix <==> AllSpace(text)
    ensures r != ReplyPrefix ==> !IsSpace(r[|ReplyPrefix|]) && !IsSpace(r[|r| - 1])
    ensures StrippedFrom(r[|ReplyPrefix|..], text)
  {
    var body := Strip(text);
    WordsOfStrip(text);
    StrippedUnique(body, text);
    assert (ReplyPrefix + body)[|ReplyPrefix|..] == body;
    ReplyPrefix + body
  }

  /** The prefixed reply is already clean: passing its text through
      `add_emojis_to_response` again gives the same message. */
  lemma AddEmojisIdempotent(text: string)
    ensures AddEmojis(AddEmojis(text)[|ReplyPrefix|..]) == AddEmojis(text)
  {
    StripIdempotent(text);
  }

  // ---------------------------------------------------------------------------
  // Chat history

  datatype Role = User | Assistant

  datatype Message = Message(role: Role, content: string)

  /** The chat part of the session: the history and the date it belongs to
      (`None` before the first reset). */
  datatype ChatState = ChatState(messages: seq<Message>, lastChatDate: Option<string>)

  /** The module-level block `if st.session_state.get("last_chat_date") !=
      today_str: ...`: a session whose date is not `today` (or that has no
      date yet) gets an empty history; on the same day it is kept. Being
      module-level code, the block runs when the process first imports the
      module, which main.py does once at start, not on every rerun. */
  function DailyReset(s: ChatState, today: string): (r: ChatState)
    ensures r.lastChatDate == Some(today)
    ensures s.lastChatDate == Some(today) ==> r == s
    ensures s.lastChatDate != Some(today) ==> r.messages == []
  {
    if s.lastChatDate != Some(today) then ChatState([], Some(today)) else s
  }

  /** `if user_prompt := st.chat_input(...)`: no input and the empty string
      change nothing; otherwise the user's message and the prefixed reply are
      appended, in that order. */
  function ChatTurn(s: ChatState, input: Option<string>, reply: string): (r: ChatState)
    ensures input.None? || input == Some("") ==> r == s
    ensures input.Some? && input.value != "" ==>
      && |r.messages| == |s.messages| + 2
      && r.messages[..|s.messages|] == s.messages
      && r.messages[|s.messages|] == Message(User, input.value)
      && r.messages[|s.messages| + 1] == Message(Assistant, AddEmojis(reply))
    ensures r.lastChatDate == s.lastChatDate
  {
    match input
    case None => s
    case Some(prompt) =>
      if prompt == "" then s
      else s.(messages := s.messages + [Message(User, prompt), Message(Assistant, AddEmojis(reply))])
  }

  /** The shape every history keeps: user and assistant messages alternate,
      starting with the user, and every assistant message carries the
      prefix. */
  ghost predicate WellFormed(ms: seq<Message>) {
    && |ms| % 2 == 0
    && (forall i :: 0 <= i < |ms| ==> (ms[i].role == User <==> i % 2 == 0))
    && (forall i :: 0 <= i < |ms| && ms[i].role == Assistant ==>
          |ReplyPrefix| <= |ms[i].content| && ms[i].content[..|ReplyPrefix|] == ReplyPrefix)
  }

  /** Resets and turns both keep the history well formed. */
  lemma ResetKeepsWellFormed(s: ChatState, today: string)
    ensures WellFormed(s.messages) ==> WellFormed(DailyReset(s, today).messages)
  {
  }

  lemma TurnKeepsWellFormed(s: ChatState, input: Option<string>, reply: string)
    ensures WellFormed(s.messages) ==> WellFormed(ChatTurn(s, input, reply).messages)
  {
    if WellFormed(s.messages) && input.Some? && input.value != "" {
      var reply' := AddEmojis(reply);
      assert ChatTurn(s, input, reply).messages == s.messages + [Message(User, input.value), Message(Assistant, reply')];
      AppendPairWellFormed(s.messages, input.value, reply');
    }
  }

  lemma AppendPairWellFormed(ms: seq<Message>, prompt: string, reply: string)
    requires WellFormed(ms)
    requires |ReplyPrefix| <= |reply| && reply[..|ReplyPrefix|] == ReplyPrefix
    ensures WellFormed(ms + [Message(User, prompt), Message(Assistant, reply)])
  {
    var r := ms + [Message(User, prompt), Message(Assistant, reply)];
    var n := |ms|;
    assert n % 2 == 0 && (n + 1) % 2 == 1 && (n + 2) % 2 == 0;
    assert forall i :: 0 <= i < n ==> r[i] == ms[i];
    assert r[n] == Message(User, prompt) && r[n + 1] == Message(Assistant, reply);
  }

  /** The number of inputs that get an answer: present and not empty. */
  function Answered(inputs: seq<Option<string>>): nat {
    if inputs == [] then 0
    else (if inputs[0].Some? && inputs[0].value != "" then 1 else 0) + Answered(inputs[1..])
  }

  /** A sequence of chat inputs, each with the reply it got: the history only
      grows, by two messages per answered input. */
  function Turns(s: ChatState, inputs: seq<Option<string>>, replies: seq<string>): (r: ChatState)
    requires |inputs| == |replies|
    ensures r.lastChatDate == s.lastChatDate
    ensures |r.messages| == |s.messages| + 2 * Answered(inputs)
    ensures r.messages[..|s.messages|] == s.messages
    ensures WellFormed(s.messages) ==> WellFormed(r.messages)
    decreases |inputs|
  {
    if inputs == [] then s
    else
      var s' := ChatTurn(s, inputs[0], replies[0]);
      TurnKeepsWellFormed(s, inputs[0], replies[0]);
      var r := Turns(s', inputs[1..], replies[1..]);
      assert r.messages[..|s.messages|] == r.messages[..|s'.messages|][..|s.messages|];
      r
  }

  // ---------------------------------------------------------------------------
  // Reruns within one server process

  /** The session whose first run made the server process import the module,
      as the program runs it: the module-level reset ran once, in that run, on
      `startDay`; every later rerun only handles its chat input, whatever its
      date. No message is ever dropped while the process lives. A session
      opened later never runs the reset at all: its `last_chat_date` stays
      unset rather than `Some(startDay)`, but its history starts empty, as
      `ai_companion_chat` initialises it, so its messages are the ones this
      function gives from an empty history. */
  function Process(s: ChatState, startDay: string, inputs: seq<Option<string>>, replies: seq<string>): (r: ChatState)
    requires |inputs| == |replies|
    ensures r.lastChatDate == Some(startDay)
    ensures var h := DailyReset(s, startDay).messages;
      |r.messages| == |h| + 2 * Answered(inputs) && r.messages[..|h|] == h
    ensures WellFormed(s.messages) ==> WellFormed(r.messages)
  {
    ResetKeepsWellFormed(s, startDay);
    Turns(DailyReset(s, startDay), inputs, replies)
  }

  /** Handling one more input extends the turns taken so far by that one turn. */
  lemma TurnsSnoc(s: ChatState, inputs: seq<Option<string>>, replies: seq<string>, input: Option<string>, reply: string)
    requires |inputs| == |replies|
    ensures Turns(s, inputs + [input], replies + [reply]) == ChatTurn(Turns(s, inputs, replies), input, reply)
    decreases |inputs|
  {
    if inputs == [] {
      assert inputs + [input] == [input] && replies + [reply] == [reply];
      assert [input][1..] == [] && [reply][1..] == [];
    } else {
      assert (inputs + [input])[1..] == inputs[1..] + [input];
      assert (replies + [reply])[1..] == replies[1..] + [reply];
      TurnsSnoc(ChatTurn(s, inputs[0], replies[0]), inputs[1..], replies[1..], input, reply);
    }
  }

  /** In a running process a later input, whatever its date, is answered
      after everything already shown: nothing earlier is dropped. */
  lemma HistoryOutlivesDay(s: ChatState, day1: string, inputs: seq<Option<string>>, replies: seq<string>, p: string, reply: string)
    requires |inputs| == |replies| && p != ""
    ensures var first := Process(s, day1, inputs, replies);
      var both := Process(s, day1, inputs + [Some(p)], replies + [reply]);
      && |both.messages| == |first.messages| + 2
      && both.messages[..|first.messages|] == first.messages
      && both.lastChatDate == Some(day1)
  {
    TurnsSnoc(DailyReset(s, day1), inputs, replies, Some(p), reply);
  }

  /** A process started on `day1` keeps that day's exchange when a later
      exchange comes, on whatever day: the second one is appended after it. */
  lemma NoResetOnNextDay(s: ChatState, day1: string, p1: string, r1: string, p2: string, r2: string)
    requires p1 != "" && p2 != ""
    ensures var first := Process(s, day1, [Some(p1)], [r1]);
      var both := Process(s, day1, [Some(p1), Some(p2)], [r1, r2]);
      && |both.messages| == |first.messages| + 2
      && both.messages[..|first.messages|] == first.messages
      && both.lastChatDate == Some(day1)
  {
    assert [Some(p1)] + [Some(p2)] == [Some(p1), Some(p2)] && [r1] + [r2] == [r1, r2];
    HistoryOutlivesDay(s, day1, [Some(p1)], [r1], p2, r2);
  }

  /** The evidently intended rerun: the date check runs on every rerun,
      with that rerun's date, before its chat input is handled. */
  function RerunWithReset(s: ChatState, today: string, input: Option<string>, reply: string): (r: ChatState)
    ensures r.lastChatDate == Some(today)
    ensures s.lastChatDate == Some(today) ==>
      |s.messages| <= |r.messages| && r.messages[..|s.messages|] == s.messages
    ensures s.lastChatDate != Some(today) ==> |r.messages| <= 2
    ensures WellFormed(s.messages) ==> WellFormed(r.messages)
  {
    ResetKeepsWellFormed(s, today);
    TurnKeepsWellFormed(DailyReset(s, today), input, reply);
    ChatTurn(DailyReset(s, today), input, reply)
  }

  /** With the intended rerun, a rerun on the session's day is just the turn. */
  lemma SameDayKeepsHistory(s: ChatState, today: string, input: Option<string>, reply: string)
    requires s.lastChatDate == Some(today)
    ensures RerunWithReset(s, today, input, reply) == ChatTurn(s, input, reply)
  {
  }

  /** With the intended rerun, the first rerun on another day starts from an
      empty history, whatever the previous day held. */
  lemma NewDayClearsHistory(s: ChatState, today: string, input: Option<string>, reply: string)
    requires s.lastChatDate != Some(today)
    ensures RerunWithReset(s, today, input, reply) == ChatTurn(ChatState([], Some(today)), input, reply)
  {
  }

  /** The scenario of `NoResetOnNextDay` with the intended rerun: on a
      later day only that day's exchange is shown. */
  lemma ResetOnNextDay(s: ChatState, day1: string, day2: string, p1: string, r1: string, p2: string, r2: string)
    requires p2 != "" && day2 != day1
    ensures var first := Process(s, day1, [Some(p1)], [r1]);
      var next := RerunWithReset(first, day2, Some(p2), r2);
      && |next.messages| == 2
      && next.messages[0] == Message(User, p2)
  {
    var first := Process(s, day1, [Some(p1)], [r1]);
    NewDayClearsHistory(first, day2, Some(p2), r2);
  }
}
