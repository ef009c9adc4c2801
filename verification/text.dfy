/** Python's notion of whitespace and the three string operations the
    application relies on: `str.split()` with no separator, `str.strip()` and
    `" ".join(...)`. Strings are sequences of Unicode code points, as in Python,
    so `|s|` is Python's `len(s)`. */
module Text {
  import opened Seqs


  /** `str.isspace()` of one code point: the characters `split()` and `strip()`
      treat as separators (the ASCII controls TAB through CR and FS through US,
      SPACE, NEL, NO-BREAK SPACE, OGHAM SPACE MARK, EN QUAD through HAIR SPACE,
      LINE and PARAGRAPH SEPARATOR, NARROW NO-BREAK SPACE, MEDIUM MATHEMATICAL
      SPACE and IDEOGRAPHIC SPACE). */
  predicate IsSpace(c: char) {
    || c == ' '
    || ('\t' <= c <= '\r')
    || ('\U{1c}' <= c <= '\U{1f}')
    || c == '\U{85}' || c == '\U{a0}' || c == '\U{1680}'
    || ('\U{2000}' <= c <= '\U{200a}')
    || c == '\U{2028}' || c == '\U{2029}' || c == '\U{202f}'
    || c == '\U{205f}' || c == '\U{3000}'
  }

  predicate AllSpace(s: string) {
    forall i :: 0 <= i < |s| ==> IsSpace(s[i])
  }

  /** A word as `split()` yields it: non-empty, no whitespace inside. */
  predicate IsWord(w: string) {
    |w| > 0 && forall i :: 0 <= i < |w| ==> !IsSpace(w[i])
  }

  predicate AllWords(ws: seq<string>) {
    forall i :: 0 <= i < |ws| ==> IsWord(ws[i])
  }

  /** Length of the whitespace run that starts `s`. */
  function LeadingSpace(s: string): (n: nat)
    ensures n <= |s|
    ensures AllSpace(s[..n])
    ensures n < |s| ==> !IsSpace(s[n])
  {
    if s == [] || !IsSpace(s[0]) then 0
    else
      var k := LeadingSpace(s[1..]);
      assert forall i :: 1 <= i < k + 1 ==> s[i] == s[1..][..k][i - 1];
      1 + k
  }

  /** Length of the whitespace run that ends `s`. */
  function TrailingSpace(s: string): (n: nat)
    ensures n <= |s|
    ensures AllSpace(s[|s| - n..])
    ensures n < |s| ==> !IsSpace(s[|s| - n - 1])
  {
    if s == [] || !IsSpace(s[|s| - 1]) then 0
    else
      var p := s[..|s| - 1];
      var k := TrailingSpace(p);
      assert forall i :: |s| - k - 1 <= i < |s| - 1 ==> s[i] == p[|p| - k..][i - (|p| - k)];
      1 + k
  }

  /** Length of the run of non-whitespace that starts `s`. */
  function WordLength(s: string): (n: nat)
    ensures n <= |s|
    ensures forall i :: 0 <= i < n ==> !IsSpace(s[i])
    ensures n < |s| ==> IsSpace(s[n])
  {
    if s == [] || IsSpace(s[0]) then 0 else 1 + WordLength(s[1..])
  }

  /** `s.split()`: the maximal runs of non-whitespace, left to right. */
  function Words(s: string): (ws: seq<string>)
    ensures AllWords(ws)
    ensures ws == [] <==> AllSpace(s)
    decreases |s|
  {
    var t := s[LeadingSpace(s)..];
    if t == [] then []
    else
      var n := WordLength(t);
      [t[..n]] + Words(t[n..])
  }

  /** `s.strip()`: `s` without its leading and trailing whitespace runs. */
  function Strip(s: string): (r: string)
    ensures var i := LeadingSpace(s);
      && i + |r| <= |s|
      && r == s[i..i + |r|]
      && AllSpace(s[i + |r|..])
    ensures r == [] <==> AllSpace(s)
    ensures r != [] ==> !IsSpace(r[0]) && !IsSpace(r[|r| - 1])
  {
    var i := LeadingSpace(s);
    var j := TrailingSpace(s[i..]);
    StripTail(s, i, j);
    StripEmpty(s, i, j);
    StripEnds(s, i, j);
    s[i..|s| - j]
  }

  /** What follows the stripped part is the trailing run. */
  lemma StripTail(s: string, i: nat, j: nat)
    requires i + j <= |s|
    requires AllSpace(s[i..][|s| - i - j..])
    ensures AllSpace(s[|s| - j..])
  {
    assert s[|s| - j..] == s[i..][|s| - i - j..];
  }

  /** The stripped part, when not empty, starts and ends with a non-space. */
  lemma StripEnds(s: string, i: nat, j: nat)
    requires i + j <= |s|
    requires i < |s| ==> !IsSpace(s[i])
    requires j < |s| - i ==> !IsSpace(s[i..][|s| - i - j - 1])
    ensures i < |s| - j ==> !IsSpace(s[i]) && !IsSpace(s[|s| - j - 1])
  {
    if i < |s| - j {
      assert s[|s| - j - 1] == s[i..][|s| - i - j - 1];
    }
  }

  /** Nothing is left after stripping exactly when `s` is all whitespace. */
  lemma StripEmpty(s: string, i: nat, j: nat)
    requires i + j <= |s|
    requires AllSpace(s[..i]) && (i < |s| ==> !IsSpace(s[i]))
    requires AllSpace(s[i..][|s| - i - j..])
    ensures i == |s| - j <==> AllSpace(s)
  {
    if i < |s| {
      assert s[i..][0] == s[i];
    }
    if i == |s| - j {
      forall k | 0 <= k < |s| ensures IsSpace(s[k]) {
        assert s[k] == s[..i][k];
      }
    }
  }

  /** `t` is what `strip()` leaves of `s`: a piece of `s` with only
      whitespace before and after it, and no whitespace at either of its own
      ends. */
  ghost predicate StrippedFrom(t: string, s: string) {
    exists i :: StripCut(t, s, i)
  }

  /** `s` is whitespace, then `t` from index `i`, then whitespace. */
  ghost predicate StripCut(t: string, s: string, i: nat) {
    && i + |t| <= |s|
    && AllSpace(s[..i])
    && t == s[i..i + |t|]
    && AllSpace(s[i + |t|..])
    && (t != [] ==> !IsSpace(t[0]) && !IsSpace(t[|t| - 1]))
  }

  /** `Strip` cuts exactly that piece, and only one piece qualifies. */
  lemma StrippedUnique(t: string, s: string)
    ensures StrippedFrom(t, s) <==> t == Strip(s)
  {
    var r := Strip(s);
    var l := LeadingSpace(s);
    assert StripCut(r, s, l);
    if StrippedFrom(t, s) {
      var i :| StripCut(t, s, i);
      StripCutUnique(t, r, s, i, l);
    }
  }

  lemma StripCutUnique(t: string, r: string, s: string, i: nat, l: nat)
    requires StripCut(t, s, i) && StripCut(r, s, l) && l == LeadingSpace(s)
    ensures t == r
  {
    if t == [] {
      AllSpaceSplit(s, i);
      assert r == [];
    } else {
      LeadingSpaceUnique(s, i);
    }
  }

  /** Whitespace up to `i` and from `i` on is whitespace throughout. */
  lemma AllSpaceSplit(s: string, i: nat)
    requires i <= |s| && AllSpace(s[..i]) && AllSpace(s[i..])
    ensures AllSpace(s)
  {
    forall k | 0 <= k < |s| ensures IsSpace(s[k]) {
      if k < i {
        assert s[k] == s[..i][k];
      } else {
        assert s[k] == s[i..][k - i];
      }
    }
  }

  /** Stripping twice is stripping once. */
  lemma StripIdempotent(s: string)
    ensures Strip(Strip(s)) == Strip(s)
  {
    var r := Strip(s);
    assert r[..0] == [] && r[0..|r|] == r && r[|r|..] == [];
    assert StripCut(r, r, 0);
    StrippedUnique(r, r);
  }

  /** `" ".join(ws)`. */
  function Join(ws: seq<string>): string {
    if ws == [] then "" else if |ws| == 1 then ws[0] else ws[0] + " " + Join(ws[1..])
  }

  // ---------------------------------------------------------------------------
  // Properties of the definitions above

  lemma LeadingSpaceUnique(s: string, n: nat)
    requires n <= |s| && AllSpace(s[..n]) && (n < |s| ==> !IsSpace(s[n]))
    ensures LeadingSpace(s) == n
  {
    var k := LeadingSpace(s);
    assert forall i :: 0 <= i < n ==> s[..n][i] == s[i];
    assert forall i :: 0 <= i < k ==> s[..k][i] == s[i];
  }

  lemma WordLengthUnique(s: string, n: nat)
    requires n <= |s| && (forall i :: 0 <= i < n ==> !IsSpace(s[i])) && (n < |s| ==> IsSpace(s[n]))
    ensures WordLength(s) == n
  {
  }

  /** A whitespace character in front changes nothing about the words. */
  lemma WordsSkipSpace(c: char, s: string)
    requires IsSpace(c)
    ensures Words([c] + s) == Words(s)
  {
    var cs := [c] + s;
    var k := LeadingSpace(s);
    assert cs[..k + 1] == [c] + s[..k];
    LeadingSpaceUnique(cs, k + 1);
    assert cs[k + 1..] == s[k..];
  }

  /** A word followed by a separator (or by nothing) is the first word. */
  lemma WordsOfWordThen(w: string, rest: string)
    requires IsWord(w)
    requires rest == [] || IsSpace(rest[0])
    ensures Words(w + rest) == [w] + Words(rest)
  {
    var s := w + rest;
    LeadingSpaceUnique(s, 0);
    assert s[0..] == s;
    WordLengthUnique(s, |w|);
    assert s[..|w|] == w;
    assert s[|w|..] == rest;
  }

  lemma {:induction false} JoinSnoc(ws: seq<string>, w: string)
    requires ws != []
    ensures Join(ws + [w]) == Join(ws) + " " + w
  {
    if |ws| == 1 {
      assert (ws + [w])[1..] == [w];
    } else {
      assert (ws + [w])[1..] == ws[1..] + [w];
      JoinSnoc(ws[1..], w);
    }
  }

  lemma {:induction false} JoinEmpty(ws: seq<string>)
    requires AllWords(ws)
    ensures Join(ws) == "" <==> ws == []
  {
    if |ws| > 1 {
      assert Join(ws)[0] == ws[0][0];
    } else if |ws| == 1 {
      assert |Join(ws)| > 0;
    }
  }

  /** Splitting a single-space join of words gives the words back: `" ".join`
      and `split()` are inverse on word lists. */
  lemma {:induction false} WordsOfJoin(ws: seq<string>)
    requires AllWords(ws)
    ensures Words(Join(ws)) == ws
  {
    if ws == [] {
    } else if |ws| == 1 {
      WordsOfWordThen(ws[0], "");
      assert ws[0] + "" == ws[0];
    } else {
      var rest := ws[1..];
      assert AllWords(rest) by {
        forall i | 0 <= i < |rest| ensures IsWord(rest[i]) {
          assert rest[i] == ws[i + 1];
        }
      }
      WordsOfJoin(rest);
      WordsOfJoinStep(ws);
    }
  }

  /** One word more in front of a join that splits back. */
  lemma WordsOfJoinStep(ws: seq<string>)
    requires |ws| > 1 && IsWord(ws[0])
    requires Words(Join(ws[1..])) == ws[1..]
    ensures Words(Join(ws)) == ws
  {
    var j := Join(ws[1..]);
    JoinCons(ws);
    WordsOfWordThen(ws[0], [' '] + j);
    WordsSkipSpace(' ', j);
    assert ws == [ws[0]] + ws[1..];
  }

  lemma JoinCons(ws: seq<string>)
    requires |ws| > 1
    ensures Join(ws) == ws[0] + ([' '] + Join(ws[1..]))
  {
  }

  /** Trailing whitespace changes nothing about the words. */
  lemma {:induction false} WordsDropTrailingSpace(x: string, sp: string)
    requires AllSpace(sp)
    ensures Words(x + sp) == Words(x)
    decreases |x|
  {
    if AllSpace(x) {
      AllSpaceConcat(x, sp);
    } else {
      var l := LeadingSpace(x);
      var t := x[l..];
      var n := WordLength(t);
      WordsDropStep(x, sp, l, n);
      WordsDropTrailingSpace(t[n..], sp);
    }
  }

  lemma AllSpaceConcat(x: string, sp: string)
    requires AllSpace(x) && AllSpace(sp)
    ensures AllSpace(x + sp)
  {
    var s := x + sp;
    forall i | 0 <= i < |s| ensures IsSpace(s[i]) {
      if i < |x| { assert s[i] == x[i]; } else { assert s[i] == sp[i - |x|]; }
    }
  }

  /** The first word of `x + sp` is the first word of `x`. */
  lemma WordsDropStep(x: string, sp: string, l: nat, n: nat)
    requires AllSpace(sp)
    requires l == LeadingSpace(x) && l < |x| && n == WordLength(x[l..])
    ensures Words(x + sp) == [x[l..][..n]] + Words(x[l..][n..] + sp)
  {
    var s := x + sp;
    var t := x[l..];
    LeadingSpaceAppend(x, sp);
    SliceAppend(x, sp, l);
    WordLengthAppend(t, sp);
    SliceAppend(t, sp, n);
    WordsUnfold(s);
  }

  /** One step of `Words` on a string with a word in it. */
  lemma WordsUnfold(s: string)
    ensures var l := LeadingSpace(s); var n := WordLength(s[l..]);
      l < |s| ==> Words(s) == [s[l..][..n]] + Words(s[l..][n..])
  {
  }

  lemma LeadingSpaceAppend(x: string, sp: string)
    requires LeadingSpace(x) < |x|
    ensures LeadingSpace(x + sp) == LeadingSpace(x)
  {
    var l := LeadingSpace(x);
    SliceAppend(x, sp, l);
    assert (x + sp)[l] == x[l];
    LeadingSpaceUnique(x + sp, l);
  }

  lemma WordLengthAppend(t: string, sp: string)
    requires AllSpace(sp)
    ensures WordLength(t + sp) == WordLength(t)
  {
    var n := WordLength(t);
    var s := t + sp;
    assert forall i :: 0 <= i < n ==> s[i] == t[i];
    assert n < |t| ==> s[n] == t[n];
    assert n == |t| && sp != [] ==> s[n] == sp[0];
    WordLengthUnique(s, n);
  }

  /** Leading whitespace changes nothing about the words. */
  lemma WordsAfterLeading(s: string)
    ensures Words(s[LeadingSpace(s)..]) == Words(s)
  {
    var t := s[LeadingSpace(s)..];
    if t != [] {
      LeadingSpaceUnique(t, 0);
      assert t[0..] == t;
    }
  }

  /** Stripping keeps every word: `s.strip().split() == s.split()`. */
  lemma WordsOfStrip(s: string)
    ensures Words(Strip(s)) == Words(s)
  {
    var l := LeadingSpace(s);
    var r := Strip(s);
    var rest := s[l + |r|..];
    assert s[l..] == r + rest;
    WordsDropTrailingSpace(r, rest);
    WordsAfterLeading(s);
  }
}
