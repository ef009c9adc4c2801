/** The greedy word wrap `split_text(text, max_chars)` of the mood report
    (phase1_mood_tracker.py). Words are added to the current line while
    `len(line + " " + word) <= max_chars`; otherwise the line is emitted and the
    word starts a new one. The test measures `" " + word` even while the line is
    still empty, so a first word of `max_chars` characters or more pushes out an
    empty first line; the model keeps that. */
module Wrap {
  import opened Text
  import opened Seqs

  /** The loop of `split_text`: `words` still to place, `lines` emitted so
      far, `line` the line being filled. */
  function Fill(words: seq<string>, lines: seq<string>, line: string, maxChars: int): (r: seq<string>)
    ensures |lines| <= |r| <= |lines| + |words| + 1
    ensures r[..|lines|] == lines
    decreases |words|
  {
    if words == [] then
      if line != "" then lines + [line] else lines
    else
      var word := words[0];
      if |line + " " + word| <= maxChars then
        Fill(words[1..], lines, if line != "" then line + " " + word else word, maxChars)
      else
        var r := Fill(words[1..], lines + [line], word, maxChars);
        assert r[..|lines|] == r[..|lines + [line]|][..|lines|];
        r
  }

  /** `split_text(text, max_chars)`. What its lines are is stated by
      `SplitTextGroups`. */
  function SplitText(text: string, maxChars: int): seq<string> {
    Fill(Words(text), [], "", maxChars)
  }

  /** The words of each line, line by line. */
  function LineWords(lines: seq<string>): (r: seq<seq<string>>)
    ensures |r| == |lines|
  {
    seq(|lines|, i requires 0 <= i < |lines| => Words(lines[i]))
  }

  // ---------------------------------------------------------------------------
  // The same loop over word groups instead of joined strings. A line is the
  // single-space join of its group; an empty group is the empty line.

  function JoinAll(gs: seq<seq<string>>): (r: seq<string>)
    ensures |r| == |gs|
  {
    seq(|gs|, i requires 0 <= i < |gs| => Join(gs[i]))
  }

  ghost function Regroup(words: seq<string>, gs: seq<seq<string>>, g: seq<string>, maxChars: int): seq<seq<string>>
    decreases |words|
  {
    if words == [] then
      if g != [] then gs + [g] else gs
    else if |Join(g)| + 1 + |words[0]| <= maxChars then
      Regroup(words[1..], gs, g + [words[0]], maxChars)
    else
      Regroup(words[1..], gs + [g], [words[0]], maxChars)
  }

  /** A group of two or more words fits the width. */
  ghost predicate Fits(g: seq<string>, maxChars: int) {
    |g| >= 2 ==> |Join(g)| <= maxChars
  }

  /** No non-empty line could have taken the next line's first word. */
  ghost predicate Greedy(gs: seq<seq<string>>, maxChars: int) {
    forall i :: 0 <= i < |gs| - 1 && gs[i] != [] && gs[i + 1] != [] ==>
      |Join(gs[i])| + 1 + |gs[i + 1][0]| > maxChars
  }

  /** What the finished wrap of `words` looks like. */
  ghost predicate Layout(words: seq<string>, gs: seq<seq<string>>, maxChars: int) {
    && Flatten(gs) == words
    && (forall i :: 0 <= i < |gs| ==> AllWords(gs[i]))
    && (forall i :: 0 < i < |gs| ==> gs[i] != [])
    && (words == [] ==> gs == [])
    && (words != [] ==> ((gs != [] && gs[0] == []) <==> |words[0]| >= maxChars))
    && (forall i :: 0 <= i < |gs| ==> Fits(gs[i], maxChars))
    && Greedy(gs, maxChars)
  }

  /** The loop invariant: `done` placed into emitted groups `gs` and current `g`. */
  ghost predicate Partial(done: seq<string>, gs: seq<seq<string>>, g: seq<string>, maxChars: int) {
    && Flatten(gs) + g == done
    && (forall i :: 0 <= i < |gs| ==> AllWords(gs[i]))
    && AllWords(g)
    && (forall i :: 0 < i < |gs| ==> gs[i] != [])
    && (g == [] <==> done == [])
    && (done == [] ==> gs == [])
    && (done != [] ==> ((gs != [] && gs[0] == []) <==> |done[0]| >= maxChars))
    && (forall i :: 0 <= i < |gs| ==> Fits(gs[i], maxChars))
    && Fits(g, maxChars)
    && Greedy(gs, maxChars)
    && (gs != [] && gs[|gs| - 1] != [] && g != [] ==> |Join(gs[|gs| - 1])| + 1 + |g[0]| > maxChars)
  }

  lemma PartialFit(done: seq<string>, gs: seq<seq<string>>, g: seq<string>, w: string, maxChars: int)
    requires Partial(done, gs, g, maxChars) && IsWord(w)
    requires |Join(g)| + 1 + |w| <= maxChars
    ensures Partial(done + [w], gs, g + [w], maxChars)
  {
    if g != [] {
      JoinSnoc(g, w);
      assert (g + [w])[0] == g[0];
    }
    if done != [] {
      assert (done + [w])[0] == done[0];
    }
  }

  lemma PartialBreak(done: seq<string>, gs: seq<seq<string>>, g: seq<string>, w: string, maxChars: int)
    requires Partial(done, gs, g, maxChars) && IsWord(w)
    requires |Join(g)| + 1 + |w| > maxChars
    ensures Partial(done + [w], gs + [g], [w], maxChars)
  {
    FlattenSnoc(gs, g);
    SnocGroups(gs, g, maxChars);
    SnocGreedy(gs, g, maxChars);
    if done != [] {
      assert (done + [w])[0] == done[0];
    }
  }

  /** Emitting the current group keeps the per-group facts. */
  lemma SnocGroups(gs: seq<seq<string>>, g: seq<string>, maxChars: int)
    requires forall i :: 0 <= i < |gs| ==> AllWords(gs[i]) && Fits(gs[i], maxChars)
    requires forall i :: 0 < i < |gs| ==> gs[i] != []
    requires AllWords(g) && Fits(g, maxChars)
    requires gs != [] ==> g != []
    ensures forall i :: 0 <= i < |gs + [g]| ==> AllWords((gs + [g])[i]) && Fits((gs + [g])[i], maxChars)
    ensures forall i :: 0 < i < |gs + [g]| ==> (gs + [g])[i] != []
    ensures (gs + [g])[0] == if gs == [] then g else gs[0]
  {
    var gs' := gs + [g];
    assert forall i :: 0 <= i < |gs| ==> gs'[i] == gs[i];
  }

  /** Emitting the current group keeps the wrap greedy. */
  lemma SnocGreedy(gs: seq<seq<string>>, g: seq<string>, maxChars: int)
    requires Greedy(gs, maxChars)
    requires gs != [] && gs[|gs| - 1] != [] && g != [] ==> |Join(gs[|gs| - 1])| + 1 + |g[0]| > maxChars
    ensures Greedy(gs + [g], maxChars)
  {
    var gs' := gs + [g];
    forall i | 0 <= i < |gs'| - 1 && gs'[i] != [] && gs'[i + 1] != []
      ensures |Join(gs'[i])| + 1 + |gs'[i + 1][0]| > maxChars
    {
      if i < |gs| - 1 {
        assert gs'[i] == gs[i] && gs'[i + 1] == gs[i + 1];
      } else {
        assert gs'[i] == gs[|gs| - 1] && gs'[i + 1] == g;
      }
    }
  }

  lemma PartialDone(done: seq<string>, gs: seq<seq<string>>, g: seq<string>, maxChars: int)
    requires Partial(done, gs, g, maxChars)
    ensures Layout(done, if g != [] then gs + [g] else gs, maxChars)
  {
    if g == [] {
      assert gs == [] && done == [];
    } else {
      FlattenSnoc(gs, g);
      SnocGroups(gs, g, maxChars);
      SnocGreedy(gs, g, maxChars);
    }
  }

  lemma {:induction false} RegroupLayout(done: seq<string>, words: seq<string>, gs: seq<seq<string>>, g: seq<string>, maxChars: int)
    requires Partial(done, gs, g, maxChars) && AllWords(words)
    ensures Layout(done + words, Regroup(words, gs, g, maxChars), maxChars)
    decreases |words|
  {
    if words == [] {
      PartialDone(done, gs, g, maxChars);
      assert done + words == done;
    } else {
      var w := words[0];
      assert done + words == (done + [w]) + words[1..];
      if |Join(g)| + 1 + |w| <= maxChars {
        PartialFit(done, gs, g, w, maxChars);
        RegroupLayout(done + [w], words[1..], gs, g + [w], maxChars);
      } else {
        PartialBreak(done, gs, g, w, maxChars);
        RegroupLayout(done + [w], words[1..], gs + [g], [w], maxChars);
      }
    }
  }

  /** The string loop is the group loop with every group joined. */
  lemma {:induction false} FillRegroup(words: seq<string>, gs: seq<seq<string>>, g: seq<string>, maxChars: int)
    requires AllWords(words) && AllWords(g)
    ensures Fill(words, JoinAll(gs), Join(g), maxChars) == JoinAll(Regroup(words, gs, g, maxChars))
    decreases |words|
  {
    JoinEmpty(g);
    if words == [] {
      if g != [] {
        assert JoinAll(gs + [g]) == JoinAll(gs) + [Join(g)];
      }
    } else {
      var w := words[0];
      if |Join(g)| + 1 + |w| <= maxChars {
        if g != [] {
          JoinSnoc(g, w);
        } else {
          assert g + [w] == [w];
        }
        FillRegroup(words[1..], gs, g + [w], maxChars);
      } else {
        assert JoinAll(gs + [g]) == JoinAll(gs) + [Join(g)];
        FillRegroup(words[1..], gs + [g], [w], maxChars);
      }
    }
  }

  /** The string loop from its start lays its words out as `Layout` says. */
  lemma FillLayout(words: seq<string>, maxChars: int)
    requires AllWords(words)
    ensures var r := Fill(words, [], "", maxChars);
      Layout(words, LineWords(r), maxChars) && r == JoinAll(LineWords(r))
  {
    var gs := Regroup(words, [], [], maxChars);
    assert Partial([], [], [], maxChars);
    RegroupLayout([], words, [], [], maxChars);
    assert [] + words == words;
    assert JoinAll([]) == [];
    FillRegroup(words, [], [], maxChars);
    forall i | 0 <= i < |gs| ensures Words(Join(gs[i])) == gs[i] {
      WordsOfJoin(gs[i]);
    }
    assert LineWords(JoinAll(gs)) == gs;
  }

  /** The groups behind `SplitText(text, maxChars)`, with their layout. */
  lemma SplitTextGroups(text: string, maxChars: int) returns (gs: seq<seq<string>>)
    ensures Layout(Words(text), gs, maxChars)
    ensures SplitText(text, maxChars) == JoinAll(gs)
    ensures LineWords(SplitText(text, maxChars)) == gs
  {
    FillLayout(Words(text), maxChars);
    gs := LineWords(SplitText(text, maxChars));
  }

  // ---------------------------------------------------------------------------
  // Properties of split_text

  /** No words, no lines; and a text with a word yields at least one line. */
  lemma SplitTextNoWords(text: string, maxChars: int)
    ensures SplitText(text, maxChars) == [] <==> AllSpace(text)
  {
    var gs := SplitTextGroups(text, maxChars);
  }

  /** No word is lost, reordered or altered, and each line is its words
      separated by single spaces. */
  lemma SplitTextKeepsWords(text: string, maxChars: int)
    ensures Flatten(LineWords(SplitText(text, maxChars))) == Words(text)
    ensures forall i :: 0 <= i < |SplitText(text, maxChars)| ==>
      SplitText(text, maxChars)[i] == Join(Words(SplitText(text, maxChars)[i]))
  {
    var gs := SplitTextGroups(text, maxChars);
    var lines := SplitText(text, maxChars);
    assert forall i :: 0 <= i < |lines| ==> Words(lines[i]) == LineWords(lines)[i];
  }

  /** A line of two or more words fits the width; a non-empty line wider than
      the width holds a single word. */
  lemma SplitTextWidth(text: string, maxChars: int)
    ensures forall i :: 0 <= i < |SplitText(text, maxChars)| && |Words(SplitText(text, maxChars)[i])| >= 2 ==>
      |SplitText(text, maxChars)[i]| <= maxChars
    ensures forall i :: 0 <= i < |SplitText(text, maxChars)| && SplitText(text, maxChars)[i] != "" && |SplitText(text, maxChars)[i]| > maxChars ==>
      |Words(SplitText(text, maxChars)[i])| == 1
  {
    var gs := SplitTextGroups(text, maxChars);
    var lines := SplitText(text, maxChars);
    forall i | 0 <= i < |lines|
      ensures Words(lines[i]) == gs[i] && lines[i] == Join(gs[i])
    {
      assert LineWords(lines)[i] == Words(lines[i]);
    }
  }

  /** The wrap is greedy: after a non-empty line, the next line's first word
      would not have fitted on it. */
  lemma SplitTextGreedy(text: string, maxChars: int)
    ensures forall i :: 0 <= i < |SplitText(text, maxChars)| - 1 && SplitText(text, maxChars)[i] != "" ==>
      && Words(SplitText(text, maxChars)[i + 1]) != []
      && |SplitText(text, maxChars)[i] + " " + Words(SplitText(text, maxChars)[i + 1])[0]| > maxChars
  {
    var gs := SplitTextGroups(text, maxChars);
    var lines := SplitText(text, maxChars);
    forall i | 0 <= i < |lines|
      ensures Words(lines[i]) == gs[i] && lines[i] == Join(gs[i])
    {
      assert LineWords(lines)[i] == Words(lines[i]);
    }
    forall i | 0 <= i < |lines| - 1 && lines[i] != ""
      ensures Words(lines[i + 1]) != [] && |lines[i] + " " + Words(lines[i + 1])[0]| > maxChars
    {
      assert gs[i] != [];
      assert gs[i + 1] != [];
    }
  }

  /** An empty line can only come first, and comes first exactly when the
      first word is at least `maxChars` long. */
  lemma SplitTextLeadingEmpty(text: string, maxChars: int)
    ensures forall i :: 0 <= i < |SplitText(text, maxChars)| && SplitText(text, maxChars)[i] == "" ==> i == 0
    ensures (|SplitText(text, maxChars)| > 0 && SplitText(text, maxChars)[0] == "") <==>
      (Words(text) != [] && |Words(text)[0]| >= maxChars)
  {
    var gs := SplitTextGroups(text, maxChars);
    var lines := SplitText(text, maxChars);
    forall i | 0 <= i < |lines|
      ensures lines[i] == "" <==> gs[i] == []
    {
      JoinEmpty(gs[i]);
    }
  }
}
