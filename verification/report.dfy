/** The logical content of the mood report `generate_pdf(log_data)` builds:
    title, generation time, total, one line per summary item, a separator,
    then one block per entry, newest first, numbered from 1. Coordinates,
    fonts, colours and page breaks are drawing concerns and are not part of
    the model. */
module Report {
  import opened Wrappers
  import opened Seqs
  import opened Text
  import opened OrderedDict
  import opened Wrap
  import opened MoodLog

  const Title := "🧠 MindMates Mood Log Report"

  /** The wrap width of note lines. */
  const NoteWidth := 85

  /** One entry block: the `n. date — mood` heading and, when the note is
      non-empty, the wrapped note lines (each drawn after a "📝 " marker). */
  datatype Block = Block(number: nat, date: string, mood: string, note: Option<seq<string>>)

  datatype Report = Report(
    title: string,
    generatedOn: string,
    totalEntries: nat,
    summary: Dict<string, nat>,
    blocks: seq<Block>)

  function EntryBlock(e: Entry, number: nat): Block {
    Block(number, e.date, e.mood, if e.note != "" then Some(SplitText(e.note, NoteWidth)) else None)
  }

  /** The entry loop: `entries` in drawing order, the first numbered `number`. */
  function Blocks(entries: seq<Entry>, number: nat): (bs: seq<Block>)
    ensures |bs| == |entries|
    ensures forall i :: 0 <= i < |bs| ==> bs[i].number == number + i
    ensures forall i :: 0 <= i < |bs| ==> bs[i].date == entries[i].date && bs[i].mood == entries[i].mood
    ensures forall i :: 0 <= i < |bs| ==> (bs[i].note.Some? <==> entries[i].note != "")
    ensures forall i :: 0 <= i < |bs| && bs[i].note.Some? ==> bs[i].note.value == SplitText(entries[i].note, NoteWidth)
  {
    if entries == [] then []
    else [EntryBlock(entries[0], number)] + Blocks(entries[1..], number + 1)
  }

  /** `generate_pdf(log_data)`; `generatedOn` is the formatted current time. */
  function GeneratePdf(log: seq<Entry>, generatedOn: string): (r: Report)
    ensures r.totalEntries == |log|
    ensures SumValues(r.summary) == r.totalEntries
    ensures forall m :: Get(r.summary, m, 0) == CountMood(log, m)
    ensures Keys(r.summary) == Dedup(Moods(log))
    ensures |r.blocks| == |log|
    ensures forall i :: 0 <= i < |log| ==> r.blocks[i].number == i + 1
    ensures forall i :: 0 <= i < |log| ==>
      r.blocks[i].date == log[|log| - 1 - i].date && r.blocks[i].mood == log[|log| - 1 - i].mood
    ensures forall i :: 0 <= i < |log| ==> (r.blocks[i].note.Some? <==> log[|log| - 1 - i].note != "")
    ensures forall i :: 0 <= i < |log| && r.blocks[i].note.Some? ==>
      r.blocks[i].note.value == SplitText(log[|log| - 1 - i].note, NoteWidth)
  {
    Report(Title, generatedOn, |log|, Summarize(log), Blocks(Reverse(log), 1))
  }

  /** The report of an empty log has a zero total, no summary lines and no
      entry blocks. */
  lemma EmptyReport(generatedOn: string)
    ensures GeneratePdf([], generatedOn).totalEntries == 0
    ensures GeneratePdf([], generatedOn).summary == []
    ensures GeneratePdf([], generatedOn).blocks == []
  {
    assert |Summarize([])| == 0 by {
      assert SumValues(Summarize([])) == 0;
      assert Keys(Summarize([])) == Dedup(Moods([]));
    }
  }

  /** Splitting depends only on the words of the text. */
  lemma SplitTextOfStrip(text: string, maxChars: int)
    ensures SplitText(Strip(text), maxChars) == SplitText(text, maxChars)
  {
    WordsOfStrip(text);
  }

  /** After a note is logged through the first tracker, the newest block of the
      report is that entry, numbered 1, with a note block exactly when the
      typed note has a non-whitespace character, wrapped as the typed note. */
  lemma LoggedEntryHeadsReport(log: seq<Entry>, today: string, mood: string, note: string, generatedOn: string)
    ensures var r := GeneratePdf(LogMood(log, today, mood, note), generatedOn);
      && r.blocks[0] == Block(1, today, mood, if AllSpace(note) then None else Some(SplitText(note, NoteWidth)))
  {
    SplitTextOfStrip(note, NoteWidth);
  }
}
