/**
  The syntax both page-range parsers share: a comma-separated list whose
  pieces are trimmed and whose empty pieces are dropped, and the pattern
  `^(\d+)\s*-\s*(\d+)$` that recognises a span "a-b".
 */
module RangeSyntax {
  import opened Common

  /** The comma-separated pieces, trimmed, with empty pieces dropped. */
  function Segments(rangeStr: string): seq<string> {
    NonEmpty(TrimAll(Split(rangeStr, ',')))
  }

  /** A segment is a trimmed comma-separated piece that is not empty. */
  lemma SegmentsMembers(rangeStr: string)
    ensures forall seg :: seg in Segments(rangeStr) <==>
              seg != "" && exists piece :: piece in Split(rangeStr, ',') && seg == Trim(piece)
  {
    var pieces := Split(rangeStr, ',');
    NonEmptyMembers(TrimAll(pieces));
    forall seg ensures seg in TrimAll(pieces) <==> exists piece :: piece in pieces && seg == Trim(piece) {
      if seg in TrimAll(pieces) {
        var i :| 0 <= i < |pieces| && TrimAll(pieces)[i] == seg;
        assert pieces[i] in pieces;
      }
      if exists piece :: piece in pieces && seg == Trim(piece) {
        var piece :| piece in pieces && seg == Trim(piece);
        var i :| 0 <= i < |pieces| && pieces[i] == piece;
        assert TrimAll(pieces)[i] == seg;
      }
    }
  }

  /** `parseInt(d, 10)` of a string of decimal digits (see `ParseIntDigits`). */
  function Number(d: string): nat
    requires AllDigits(d)
  {
    DigitsValue(d, 10)
  }

  /** The regular expression `^(\d+)\s*-\s*(\d+)$`: the two captured digit
      strings, when the segment matches. */
  function MatchRange(seg: string): (r: Option<(string, string)>)
    ensures r.Some? ==> |r.value.0| > 0 && |r.value.1| > 0 && AllDigits(r.value.0) && AllDigits(r.value.1)
  {
    var i := DigitRun(seg, 10);
    var j := SkipSpaces(seg, i);
    if i == 0 || j == |seg| || seg[j] != '-' then None
    else
      var k := SkipSpaces(seg, j + 1);
      if k < |seg| && AllDigits(seg[k..]) then Some((seg[..i], seg[k..])) else None
  }

  /** Whatever matches the pattern is digits, optional white space, a hyphen,
      optional white space and digits, and the captures are the digits. */
  lemma MatchRangeSound(seg: string)
    requires MatchRange(seg).Some?
    ensures var (a, b) := MatchRange(seg).value;
            exists w1, w2 :: IsBlank(w1) && IsBlank(w2) && seg == a + w1 + "-" + w2 + b
  {
    var i := DigitRun(seg, 10);
    var j := SkipSpaces(seg, i);
    var k := SkipSpaces(seg, j + 1);
    assert MatchRange(seg).value == (seg[..i], seg[k..]);
    var w1, w2 := seg[i..j], seg[j + 1..k];
    assert IsBlank(w1) by {
      SkipSpacesProperties(seg, i);
    }
    assert IsBlank(w2) by {
      SkipSpacesProperties(seg, j + 1);
    }
    assert seg == seg[..i] + w1 + "-" + w2 + seg[k..] by {
      assert seg[j] == '-';
      FiveParts(seg, i, j, k);
    }
  }

  /** ... and everything of that shape matches, with exactly those captures. */
  lemma MatchRangeComplete(a: string, w1: string, w2: string, b: string)
    requires |a| > 0 && |b| > 0 && AllDigits(a) && AllDigits(b) && IsBlank(w1) && IsBlank(w2)
    ensures MatchRange(a + w1 + "-" + w2 + b) == Some((a, b))
  {
    var seg := a + w1 + "-" + w2 + b;
    var i, j, k := |a|, |a| + |w1|, |a| + |w1| + 1 + |w2|;
    LeadingDigitsOfFive(a, w1, w2, b);
    BlanksOfFive(a, w1, w2, b);
    PartsOfFive(a, w1, '-', w2, b);
    MatchRangeAt(seg, i, j, k);
  }

  /** In digits, blanks, a hyphen, blanks and digits, the digit run is the
      first part. */
  lemma LeadingDigitsOfFive(a: string, w1: string, w2: string, b: string)
    requires AllDigits(a) && IsBlank(w1)
    ensures DigitRun(a + w1 + "-" + w2 + b, 10) == |a|
  {
    var rest := w1 + "-" + w2 + b;
    assert a + w1 + "-" + w2 + b == a + rest;
    assert !IsDigit(rest[0]) by {
      if |w1| > 0 {
        assert rest[0] == w1[0];
      } else {
        assert rest[0] == '-';
      }
    }
    DigitRunAfterDigits(a, rest);
  }

  /** ... and the two runs of white space end at the hyphen and at the
      second part's digits. */
  lemma BlanksOfFive(a: string, w1: string, w2: string, b: string)
    requires |b| > 0 && AllDigits(b) && IsBlank(w1) && IsBlank(w2)
    ensures var seg, j := a + w1 + "-" + w2 + b, |a| + |w1|;
            && SkipSpaces(seg, |a|) == j
            && SkipSpaces(seg, j + 1) == j + 1 + |w2|
  {
    var seg := a + w1 + "-" + w2 + b;
    var i, j, k := |a|, |a| + |w1|, |a| + |w1| + 1 + |w2|;
    PartsOfFive(a, w1, '-', w2, b);
    assert seg[i..j] == w1 && seg[j] == '-';
    SkipSpacesTo(seg, i, j);
    assert seg[j + 1..k] == w2 && seg[k..] == b;
    BlankThenDigits(seg, j + 1, k);
  }

  lemma BlankThenDigits(s: string, from: nat, to: nat)
    requires from <= to < |s| && IsBlank(s[from..to]) && AllDigits(s[to..])
    ensures SkipSpaces(s, from) == to
  {
    assert IsDigit(s[to..][0]);
    SkipSpacesTo(s, from, to);
  }

  /** Cutting a sequence at `i`, `j`, `j + 1` and `k`. */
  lemma FiveParts<T>(s: seq<T>, i: nat, j: nat, k: nat)
    requires i <= j < k <= |s|
    ensures s == s[..i] + s[i..j] + [s[j]] + s[j + 1..k] + s[k..]
  {
  }

  /** The pieces of a five-part concatenation, recovered by slicing. */
  lemma PartsOfFive<T>(a: seq<T>, w1: seq<T>, x: T, w2: seq<T>, b: seq<T>)
    ensures var s, i, j := a + w1 + [x] + w2 + b, |a|, |a| + |w1|;
            var k := j + 1 + |w2|;
            && s[..i] == a && s[i..j] == w1 && s[j] == x && s[j + 1..k] == w2 && s[k..] == b
  {
  }

  /** The matcher reads the digits up to `i`, the white space up to the
      hyphen at `j`, the white space up to `k` and the digits after it. */
  lemma MatchRangeAt(seg: string, i: nat, j: nat, k: nat)
    requires 0 < i <= j < k < |seg| && DigitRun(seg, 10) == i
    requires j == SkipSpaces(seg, i) && seg[j] == '-'
    requires k == SkipSpaces(seg, j + 1) && AllDigits(seg[k..])
    ensures MatchRange(seg) == Some((seg[..i], seg[k..]))
  {
  }

}
