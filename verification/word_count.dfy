/**
  Text statistics of the word counter: characters, characters without white
  space, words (every CJK character counts as one word), sentences,
  paragraphs and an estimated reading time. The three regular-expression
  splits are modelled by one scanner, `Pieces`, over the three separator
  patterns; reading time uses exact rational arithmetic.
 */
module WordCount {
  import opened Common

  datatype WordCountStats = WordCountStats(
    characters: nat,
    charactersNoSpaces: nat,
    words: nat,
    sentences: nat,
    paragraphs: nat,
    readingTimeSeconds: nat)

  /** A character of one of the five blocks the word counter treats as CJK:
      CJK Unified Ideographs, Extension A, Hiragana, Katakana and Hangul
      Syllables. */
  predicate IsCjk(c: char) {
    || ('\U{4E00}' <= c <= '\U{9FFF}')
    || ('\U{3400}' <= c <= '\U{4DBF}')
    || ('\U{3040}' <= c <= '\U{309F}')
    || ('\U{30A0}' <= c <= '\U{30FF}')
    || ('\U{AC00}' <= c <= '\U{D7AF}')
  }

  /** `(text.match(cjkPattern) || []).length`. */
  function CjkCount(s: string): nat {
    if |s| == 0 then 0 else CjkCount(s[..|s| - 1]) + (if IsCjk(Last(s)) then 1 else 0)
  }

  /** `text.replace(cjkPattern, ' ')`. */
  function BlankCjk(s: string): string {
    seq(|s|, i requires 0 <= i < |s| => if IsCjk(s[i]) then ' ' else s[i])
  }

  /** `text.replace(/\s/g, '').length`. */
  function NonSpaceCount(s: string): nat {
    if |s| == 0 then 0 else NonSpaceCount(s[..|s| - 1]) + (if IsSpace(Last(s)) then 0 else 1)
  }

  // ---------------------------------------------------------------------------
  // Splitting on a regular expression
  // ---------------------------------------------------------------------------

  /** The three separators: `/\s+/`, `/[.!?。！？]+/` and `/\n\s*\n/`. */
  datatype Separator = SpaceRun | SentenceMarks | BlankLine

  predicate IsSentenceMark(c: char) {
    c == '.' || c == '!' || c == '?' || c == '\U{3002}' || c == '\U{FF01}' || c == '\U{FF1F}'
  }

  /** The end of the run of sentence marks starting at `from`. */
  function MarkRunEnd(s: string, from: nat): (k: nat)
    requires from <= |s|
    ensures from <= k <= |s|
    decreases |s| - from
  {
    if from < |s| && IsSentenceMark(s[from]) then MarkRunEnd(s, from + 1) else from
  }

  /** The last newline in `s[from..upto]`, if any. */
  function LastNewline(s: string, from: nat, upto: nat): (r: Option<nat>)
    requires from <= upto <= |s|
    ensures r.Some? ==> from <= r.value < upto && s[r.value] == '\n'
    decreases upto
  {
    if upto == from then None
    else if s[upto - 1] == '\n' then Some(upto - 1)
    else LastNewline(s, from, upto - 1)
  }

  /** The length of the separator's match at position `p`, 0 when it does not
      match there. The quantifiers are greedy: a run is taken whole, and
      `\n\s*\n` extends to the last newline of the white space that follows
      its first newline. */
  function MatchLength(sep: Separator, s: string, p: nat): (n: nat)
    requires p < |s|
    ensures p + n <= |s|
  {
    match sep
    case SpaceRun => SkipSpaces(s, p) - p
    case SentenceMarks => MarkRunEnd(s, p) - p
    case BlankLine =>
      if s[p] != '\n' then 0
      else match LastNewline(s, p + 1, SkipSpaces(s, p + 1))
        case None => 0
        case Some(j) => j + 1 - p
  }

  /** The characters a separator's match is made of. */
  predicate InSeparator(sep: Separator, c: char) {
    match sep
    case SpaceRun => IsSpace(c)
    case SentenceMarks => IsSentenceMark(c)
    case BlankLine => IsSpace(c)
  }

  /** `String.prototype.split` with a regular expression that never matches
      the empty string: scanning from `p`, the piece under construction began
      at `start`; each match ends a piece and the scan resumes after it. */
  function Pieces(s: string, sep: Separator, start: nat, p: nat): seq<string>
    requires start <= p <= |s|
    decreases |s| - p
  {
    if p == |s| then [s[start..]]
    else
      var n := MatchLength(sep, s, p);
      if n > 0 then [s[start..p]] + Pieces(s, sep, p + n, p + n)
      else Pieces(s, sep, start, p + 1)
  }

  function SplitOn(s: string, sep: Separator): seq<string> {
    Pieces(s, sep, 0, 0)
  }

  /** The number of maximal runs of non-space characters in `s[p..]`, each
      counted at its first character: a character that is not white space and
      follows white space or the start. `afterSpace` says whether position
      `p` is such a start (the character before it is white space, or there
      is none). */
  function RunStarts(s: string, p: nat, afterSpace: bool): nat
    requires p <= |s|
    decreases |s| - p
  {
    if p == |s| then 0
    else (if afterSpace && !IsSpace(s[p]) then 1 else 0) + RunStarts(s, p + 1, IsSpace(s[p]))
  }

  /** The number of maximal non-space runs of `s`: what a count of
      white-space separated words means, independently of `split`. */
  function Runs(s: string): nat {
    RunStarts(s, 0, true)
  }

  /** `.filter((s) => s.trim().length > 0).length`. */
  function CountNonBlank(pieces: seq<string>): nat {
    if |pieces| == 0 then 0
    else CountNonBlank(pieces[..|pieces| - 1]) + (if Trim(Last(pieces)) != "" then 1 else 0)
  }

  /** `Math.ceil(((latin / 200) + (cjk / 400)) * 60)`, in exact arithmetic. */
  function ReadingTime(latin: nat, cjk: nat): nat {
    Ceil((latin as real / 200.0 + cjk as real / 400.0) * 60.0)
  }

  /** `countWords`. */
  function CountWords(text: string): WordCountStats {
    if Trim(text) == "" then WordCountStats(0, 0, 0, 0, 0, 0)
    else
      var cjk := CjkCount(text);
      var latin := |NonEmpty(SplitOn(BlankCjk(text), SpaceRun))|;
      var sentences := CountNonBlank(SplitOn(text, SentenceMarks));
      var paragraphs := CountNonBlank(SplitOn(text, BlankLine));
      WordCountStats(
        |text|,
        NonSpaceCount(text),
        latin + cjk,
        sentences,
        if paragraphs != 0 then paragraphs else if Trim(text) != "" then 1 else 0,
        ReadingTime(latin, cjk))
  }

  // ---------------------------------------------------------------------------
  // Properties
  // ---------------------------------------------------------------------------

  /** A match consists of separator characters only, and none starts at a
      character that is not one. */
  lemma MatchChars(sep: Separator, s: string, p: nat)
    requires p < |s|
    ensures forall k :: p <= k < p + MatchLength(sep, s, p) ==> InSeparator(sep, s[k])
    ensures !InSeparator(sep, s[p]) ==> MatchLength(sep, s, p) == 0
  {
    match sep
    case SpaceRun =>
      SkipSpacesProperties(s, p);
    case SentenceMarks =>
      MarkRunChars(s, p);
    case BlankLine =>
      if s[p] == '\n' {
        SkipSpacesProperties(s, p + 1);
      }
  }

  /** The run of sentence marks from `from` is maximal: it holds only marks,
      and it stops at the end of the text or at a character that is not one. */
  lemma {:induction false} MarkRunChars(s: string, from: nat)
    requires from <= |s|
    ensures forall k :: from <= k < MarkRunEnd(s, from) ==> IsSentenceMark(s[k])
    ensures MarkRunEnd(s, from) == |s| || !IsSentenceMark(s[MarkRunEnd(s, from)])
    decreases |s| - from
  {
    if from < |s| && IsSentenceMark(s[from]) {
      MarkRunChars(s, from + 1);
    }
  }

  /** `LastNewline` finds the last newline of the range, and reports none
      exactly when the range has none. */
  lemma {:induction false} LastNewlineProperties(s: string, from: nat, upto: nat)
    requires from <= upto <= |s|
    ensures LastNewline(s, from, upto).None? ==> forall k :: from <= k < upto ==> s[k] != '\n'
    ensures LastNewline(s, from, upto).Some? ==>
              forall k :: LastNewline(s, from, upto).value < k < upto ==> s[k] != '\n'
    decreases upto
  {
    if upto > from && s[upto - 1] != '\n' {
      LastNewlineProperties(s, from, upto - 1);
    }
  }

  /** `/\s+/` matches at `p` exactly when `s[p]` is white space, and then takes
      the whole run of white space. */
  lemma SpaceRunMatch(s: string, p: nat)
    requires p < |s|
    ensures MatchLength(SpaceRun, s, p) > 0 <==> IsSpace(s[p])
    ensures IsBlank(s[p..p + MatchLength(SpaceRun, s, p)])
    ensures p + MatchLength(SpaceRun, s, p) == |s| || !IsSpace(s[p + MatchLength(SpaceRun, s, p)])
  {
    SkipSpacesProperties(s, p);
  }

  /** `/[.!?。！？]+/` matches at `p` exactly when `s[p]` is a sentence mark,
      and then takes the whole run of marks. */
  lemma SentenceMarksMatch(s: string, p: nat)
    requires p < |s|
    ensures MatchLength(SentenceMarks, s, p) > 0 <==> IsSentenceMark(s[p])
    ensures forall k :: p <= k < p + MatchLength(SentenceMarks, s, p) ==> IsSentenceMark(s[k])
    ensures p + MatchLength(SentenceMarks, s, p) == |s| ||
            !IsSentenceMark(s[p + MatchLength(SentenceMarks, s, p)])
  {
    MarkRunChars(s, p);
  }

  /** `/\n\s*\n/` matches at `p` exactly when `s[p]` is a newline followed by
      white space holding another newline; the greedy `\s*` then makes the
      match end just after the last newline of that white space. */
  lemma BlankLineMatch(s: string, p: nat)
    requires p < |s|
    ensures var q := SkipSpaces(s, p + 1);
            MatchLength(BlankLine, s, p) > 0 <==>
              s[p] == '\n' && exists k :: p + 1 <= k < q && s[k] == '\n'
    ensures var n := MatchLength(BlankLine, s, p);
            n > 0 ==>
              (n >= 2 && s[p + n - 1] == '\n' && IsBlank(s[p..p + n])
               && forall k :: p + n <= k < SkipSpaces(s, p + 1) ==> s[k] != '\n')
  {
    var q := SkipSpaces(s, p + 1);
    if s[p] == '\n' {
      SkipSpacesProperties(s, p + 1);
      LastNewlineProperties(s, p + 1, q);
      match LastNewline(s, p + 1, q)
      case None =>
      case Some(j) =>
        assert s[p + 1..j + 1] == s[p + 1..q][..j - p];
        assert s[p..j + 1] == [s[p]] + s[p + 1..j + 1];
    }
  }

  /** Where the separator cannot match, the scan yields the rest in one
      piece. */
  lemma {:induction false} PiecesWithoutSeparator(s: string, sep: Separator, start: nat, p: nat)
    requires start <= p <= |s|
    requires forall k :: p <= k < |s| ==> !InSeparator(sep, s[k])
    ensures Pieces(s, sep, start, p) == [s[start..]]
    decreases |s| - p
  {
    if p < |s| {
      MatchChars(sep, s, p);
      PiecesWithoutSeparator(s, sep, start, p + 1);
    }
  }

  /** A character that no match can contain ends up in some piece. */
  lemma {:induction false} PiecesKeep(s: string, sep: Separator, start: nat, p: nat, i: nat)
    requires start <= p <= |s| && start <= i < |s|
    requires !InSeparator(sep, s[i])
    ensures exists j :: 0 <= j < |Pieces(s, sep, start, p)| && s[i] in Pieces(s, sep, start, p)[j]
    decreases |s| - p
  {
    var pieces := Pieces(s, sep, start, p);
    if p == |s| {
      assert s[i] == s[start..][i - start];
      assert s[i] in pieces[0];
    } else {
      var n := MatchLength(sep, s, p);
      if n > 0 {
        if i < p {
          assert s[i] == s[start..p][i - start];
          assert s[i] in pieces[0];
        } else {
          assert p + n <= i by {
            MatchChars(sep, s, p);
          }
          var rest := Pieces(s, sep, p + n, p + n);
          assert pieces == [s[start..p]] + rest;
          PiecesKeep(s, sep, p + n, p + n, i);
          var j :| 0 <= j < |rest| && s[i] in rest[j];
          assert s[i] in pieces[j + 1];
        }
      } else {
        PiecesKeep(s, sep, start, p + 1, i);
      }
    }
  }

  /** A piece holding a non-space character is counted. */
  lemma {:induction false} CountNonBlankPositive(pieces: seq<string>, j: nat, c: char)
    requires j < |pieces| && c in pieces[j] && !IsSpace(c)
    ensures CountNonBlank(pieces) >= 1
  {
    if j == |pieces| - 1 {
      assert !IsBlank(Last(pieces));
      TrimKeepsContent(Last(pieces));
    } else {
      CountNonBlankPositive(pieces[..|pieces| - 1], j, c);
    }
  }

  lemma {:induction false} CjkCountPositive(s: string, i: nat)
    requires i < |s| && IsCjk(s[i])
    ensures CjkCount(s) >= 1
  {
    if i < |s| - 1 {
      CjkCountPositive(s[..|s| - 1], i);
    }
  }

  /** Blank text (the empty string included) gives all six counts 0, and
      text with a non-space character gives at least one character, word
      and paragraph. */
  lemma BlankTextCountsNothing(text: string)
    ensures IsBlank(text) <==> CountWords(text) == WordCountStats(0, 0, 0, 0, 0, 0)
    ensures !IsBlank(text) ==> CountWords(text).characters >= 1 && CountWords(text).words >= 1
                               && CountWords(text).paragraphs >= 1
  {
    TrimProperties(text);
    if !IsBlank(text) {
      var i :| 0 <= i < |text| && !IsSpace(text[i]);
      WordsPositive(text, i);
    }
  }

  /** A non-space character is a CJK word or part of a Latin word. */
  lemma WordsPositive(text: string, i: nat)
    requires i < |text| && !IsSpace(text[i])
    ensures |NonEmpty(SplitOn(BlankCjk(text), SpaceRun))| + CjkCount(text) >= 1
  {
    if IsCjk(text[i]) {
      CjkCountPositive(text, i);
    } else {
      var t := BlankCjk(text);
      PiecesKeep(t, SpaceRun, 0, 0, i);
      var pieces := SplitOn(t, SpaceRun);
      var j :| 0 <= j < |pieces| && t[i] in pieces[j];
      NonEmptyMembers(pieces);
      assert pieces[j] in NonEmpty(pieces);
    }
  }

  /** In text that is not blank some paragraph piece holds a non-space
      character, so the `|| 1` fallback is never what decides the count. */
  lemma ParagraphFallbackUnused(text: string, i: nat)
    requires i < |text| && !IsSpace(text[i])
    ensures CountNonBlank(SplitOn(text, BlankLine)) >= 1
    ensures CountWords(text).paragraphs == CountNonBlank(SplitOn(text, BlankLine))
  {
    PiecesKeep(text, BlankLine, 0, 0, i);
    var pieces := SplitOn(text, BlankLine);
    var j :| 0 <= j < |pieces| && text[i] in pieces[j];
    CountNonBlankPositive(pieces, j, text[i]);
    TrimProperties(text);
  }

  /** Text that is not blank and has no sentence mark is one sentence. */
  lemma SingleSentence(text: string)
    requires !IsBlank(text)
    requires forall k :: 0 <= k < |text| ==> !IsSentenceMark(text[k])
    ensures CountWords(text).sentences == 1
  {
    PiecesWithoutSeparator(text, SentenceMarks, 0, 0);
    assert SplitOn(text, SentenceMarks) == [text];
    TrimProperties(text);
    assert CountNonBlank([text]) == CountNonBlank([]) + 1;
  }

  /** A run of white space starts no word. */
  lemma {:induction false} RunStartsOverSpaces(s: string, p: nat, q: nat)
    requires p <= q <= |s|
    requires forall k :: p <= k < q ==> IsSpace(s[k])
    ensures RunStarts(s, p, true) == RunStarts(s, q, true)
    decreases q - p
  {
    if p < q {
      RunStartsOverSpaces(s, p + 1, q);
    }
  }

  lemma NonEmptyCons(x: string, rest: seq<string>)
    ensures |NonEmpty([x] + rest)| == (if x != "" then 1 else 0) + |NonEmpty(rest)|
  {
    assert ([x] + rest)[1..] == rest;
  }

  /** Splitting on `/\s+/` and dropping the empty pieces leaves one piece per
      maximal non-space run. Scanning from `p`, the piece under construction
      (from `start`) holds no white space; if it is not empty, its run began
      before `p`. */
  lemma {:induction false} PiecesRuns(s: string, start: nat, p: nat)
    requires start <= p <= |s|
    requires forall k :: start <= k < p ==> !IsSpace(s[k])
    ensures |NonEmpty(Pieces(s, SpaceRun, start, p))| ==
            (if start < p then 1 else 0) + RunStarts(s, p, start == p)
    decreases |s| - p
  {
    if p == |s| {
      NonEmptyCons(s[start..], []);
    } else {
      SpaceRunMatch(s, p);
      var n := MatchLength(SpaceRun, s, p);
      if n > 0 {
        var q := p + n;
        var rest := Pieces(s, SpaceRun, q, q);
        assert Pieces(s, SpaceRun, start, p) == [s[start..p]] + rest;
        NonEmptyCons(s[start..p], rest);
        PiecesRuns(s, q, q);
        assert forall k :: p <= k < q ==> IsSpace(s[k]) by {
          assert forall k :: p <= k < q ==> s[k] == s[p..q][k - p];
        }
        RunStartsOverSpaces(s, p, q);
      } else {
        PiecesRuns(s, start, p + 1);
      }
    }
  }

  /** Blank text has no CJK character. */
  lemma {:induction false} CjkCountBlank(s: string)
    requires IsBlank(s)
    ensures CjkCount(s) == 0
  {
    if |s| > 0 {
      CjkCountBlank(s[..|s| - 1]);
    }
  }

  /** The word count is the number of CJK characters plus the number of
      maximal non-space runs once every CJK character is replaced by a
      space; blank text has neither. */
  lemma WordsCount(text: string)
    ensures CountWords(text).words == CjkCount(text) + Runs(BlankCjk(text))
  {
    var t := BlankCjk(text);
    TrimProperties(text);
    if IsBlank(text) {
      CjkCountBlank(text);
      RunStartsOverSpaces(t, 0, |t|);
    } else {
      PiecesRuns(t, 0, 0);
    }
  }

  /** Removing white space never adds characters. */
  lemma {:induction false} NonSpaceCountAtMost(s: string)
    ensures NonSpaceCount(s) <= |s|
    ensures NonSpaceCount(s) == |s| <==> forall k :: 0 <= k < |s| ==> !IsSpace(s[k])
  {
    if |s| > 0 {
      NonSpaceCountAtMost(s[..|s| - 1]);
    }
  }

  /** `charactersNoSpaces` never exceeds `characters`. */
  lemma CharactersNoSpacesAtMost(text: string)
    ensures CountWords(text).charactersNoSpaces <= CountWords(text).characters
  {
    NonSpaceCountAtMost(text);
  }

  /** The reading time is `ceil(3 * (2 * latin + cjk) / 20)` seconds, which is
      0 exactly when there are no words at all. */
  lemma ReadingTimeFormula(latin: nat, cjk: nat)
    ensures ReadingTime(latin, cjk) == (3 * (2 * latin + cjk) + 19) / 20
    ensures ReadingTime(latin, cjk) == 0 <==> latin == 0 && cjk == 0
  {
    var x := (latin as real / 200.0 + cjk as real / 400.0) * 60.0;
    var m := 3 * (2 * latin + cjk);
    assert x == m as real / 20.0;
    var q := (m + 19) / 20;
    assert (q - 1) * 20 < m <= q * 20;
    assert (q - 1) as real < x <= q as real;
  }
}
