/**
  Shared vocabulary for the browser file tools: optional and error-carrying
  results, JavaScript's white-space set and `trim`, `split` on one character,
  ASCII lower-casing, `parseInt` with radix 10 or 16, decimal rendering of
  naturals, `Math.round` / `Math.ceil` over exact reals, and the
  `round(done / total * 100)` progress percentage every tool reports.
 */
module Common {

  datatype Option<T> = None | Some(value: T)

  datatype Result<T, E> = Success(value: T) | Failure(error: E)

  // ---------------------------------------------------------------------------
  // White space and trimming
  // ---------------------------------------------------------------------------

  /** The characters matched by the regular-expression class `\s` and removed
      by `String.prototype.trim`: WhiteSpace and LineTerminator of ECMA-262. */
  predicate IsSpace(c: char) {
    || c == ' ' || c == '\t' || c == '\n' || c == '\r'
    || c == '\U{000B}' || c == '\U{000C}' || c == '\U{00A0}' || c == '\U{1680}'
    || ('\U{2000}' <= c <= '\U{200A}')
    || c == '\U{2028}' || c == '\U{2029}' || c == '\U{202F}' || c == '\U{205F}'
    || c == '\U{3000}' || c == '\U{FEFF}'
  }

  /** Only white space (the empty string included): what `s.trim()` turns into "". */
  predicate IsBlank(s: string) {
    forall i :: 0 <= i < |s| ==> IsSpace(s[i])
  }

  /** The index of the first character at or after `from` that is not
      white space (`|s|` when there is none): what `\s*` consumes. */
  function SkipSpaces(s: string, from: nat): (k: nat)
    requires from <= |s|
    ensures from <= k <= |s|
    decreases |s| - from
  {
    if from < |s| && IsSpace(s[from]) then SkipSpaces(s, from + 1) else from
  }

  /** Everything skipped is white space, and the scan stops at the end or
      at a character that is not. */
  lemma {:induction false} SkipSpacesProperties(s: string, from: nat)
    requires from <= |s|
    ensures IsBlank(s[from..SkipSpaces(s, from)])
    ensures SkipSpaces(s, from) == |s| || !IsSpace(s[SkipSpaces(s, from)])
    decreases |s| - from
  {
    if from < |s| && IsSpace(s[from]) {
      var k := SkipSpaces(s, from);
      SkipSpacesProperties(s, from + 1);
      assert s[from..k] == [s[from]] + s[from + 1..k];
    }
  }

  /** White space from `from` up to `to`, then the end or a character that is
      not white space: the scan stops exactly at `to`. */
  lemma {:induction false} SkipSpacesTo(s: string, from: nat, to: nat)
    requires from <= to <= |s| && IsBlank(s[from..to]) && (to == |s| || !IsSpace(s[to]))
    ensures SkipSpaces(s, from) == to
    decreases |s| - from
  {
    if from < to {
      assert s[from..to][0] == s[from];
      assert s[from + 1..to] == s[from..to][1..];
      SkipSpacesTo(s, from + 1, to);
    }
  }

  /** Number of leading white-space characters. */
  function LeadingSpaces(s: string): (k: nat)
    ensures k <= |s|
  {
    SkipSpaces(s, 0)
  }

  /** Length of `s` without its trailing white space. */
  function ContentEnd(s: string): (k: nat)
    ensures k <= |s|
    ensures IsBlank(s[k..])
    ensures k == 0 || !IsSpace(s[k - 1])
  {
    if |s| == 0 || !IsSpace(s[|s| - 1]) then |s|
    else
      var k := ContentEnd(s[..|s| - 1]);
      assert s[k..] == s[..|s| - 1][k..] + [s[|s| - 1]];
      k
  }

  function TrimStart(s: string): string {
    s[LeadingSpaces(s)..]
  }

  function TrimEnd(s: string): string {
    s[..ContentEnd(s)]
  }

  /** `String.prototype.trim`. */
  function Trim(s: string): string {
    TrimEnd(TrimStart(s))
  }

  /** Trimming removes a blank prefix and a blank suffix and nothing else:
      it yields "" exactly for blank strings, and otherwise a substring of `s`
      that starts and ends with a non-space character. */
  lemma TrimProperties(s: string)
    ensures Trim(s) == "" <==> IsBlank(s)
    ensures Trim(s) != "" ==> !IsSpace(Trim(s)[0]) && !IsSpace(Trim(s)[|Trim(s)| - 1])
    ensures exists i, j :: 0 <= i <= j <= |s| && IsBlank(s[..i]) && IsBlank(s[j..]) && Trim(s) == s[i..j]
  {
    var i := LeadingSpaces(s);
    SkipSpacesProperties(s, 0);
    assert s[0..i] == s[..i];
    var t := s[i..];
    var j := ContentEnd(t);
    assert Trim(s) == s[i..i + j];
    assert s[i + j..] == t[j..];
    if Trim(s) == "" {
      assert t[j..] == t;
      assert s == s[..i] + t;
      BlankConcat(s[..i], t);
    } else {
      assert !IsSpace(s[i]);
    }
  }

  lemma BlankConcat(a: string, b: string)
    requires IsBlank(a) && IsBlank(b)
    ensures IsBlank(a + b)
  {
  }

  /** A string with a non-space character keeps it through trimming. */
  lemma TrimKeepsContent(s: string)
    requires !IsBlank(s)
    ensures Trim(s) != ""
  {
    TrimProperties(s);
  }

  // ---------------------------------------------------------------------------
  // split(sep) on one character
  // ---------------------------------------------------------------------------

  /** `pieces.join(sep)`. */
  function Join(pieces: seq<string>, sep: char): string
    requires |pieces| >= 1
  {
    if |pieces| == 1 then pieces[0] else pieces[0] + [sep] + Join(pieces[1..], sep)
  }

  /** `s.split(sep)`: the pieces between occurrences of `sep`. */
  function Split(s: string, sep: char): (pieces: seq<string>)
    ensures |pieces| >= 1
  {
    if |s| == 0 then [""]
    else
      var rest := Split(s[1..], sep);
      if s[0] == sep then [""] + rest
      else [[s[0]] + rest[0]] + rest[1..]
  }

  /** The pieces are free of `sep`, and joining them with `sep` gives `s`
      back. */
  lemma SplitProperties(s: string, sep: char)
    ensures forall i :: 0 <= i < |Split(s, sep)| ==> sep !in Split(s, sep)[i]
    ensures Join(Split(s, sep), sep) == s
  {
    SplitPiecesFree(s, sep);
    SplitJoin(s, sep);
  }

  lemma {:induction false} SplitPiecesFree(s: string, sep: char)
    ensures forall i :: 0 <= i < |Split(s, sep)| ==> sep !in Split(s, sep)[i]
  {
    if |s| > 0 {
      var rest := Split(s[1..], sep);
      SplitPiecesFree(s[1..], sep);
      var pieces := Split(s, sep);
      if s[0] == sep {
        assert pieces[1..] == rest;
      } else {
        assert pieces[1..] == rest[1..];
        assert pieces[0] == [s[0]] + rest[0];
      }
    }
  }

  lemma {:induction false} SplitJoin(s: string, sep: char)
    ensures Join(Split(s, sep), sep) == s
  {
    if |s| > 0 {
      var rest := Split(s[1..], sep);
      SplitJoin(s[1..], sep);
      var pieces := Split(s, sep);
      if s[0] == sep {
        assert pieces[1..] == rest;
        assert s == [sep] + s[1..];
      } else {
        assert pieces[1..] == rest[1..];
        if |rest| > 1 {
          assert Join(pieces, sep) == [s[0]] + rest[0] + [sep] + Join(rest[1..], sep);
        }
        assert s == [s[0]] + s[1..];
      }
    }
  }

  /** Splitting at a separator that `a` does not contain: `a` is the first
      piece and the rest is split as before. */
  lemma {:induction false} SplitAtFirst(a: string, b: string, sep: char)
    requires sep !in a
    ensures Split(a + [sep] + b, sep) == [a] + Split(b, sep)
  {
    if |a| == 0 {
      assert a + [sep] + b == [sep] + b;
      assert ([sep] + b)[1..] == b;
    } else {
      SplitAtFirst(a[1..], b, sep);
      assert (a + [sep] + b)[1..] == a[1..] + [sep] + b;
      assert [a[0]] + a[1..] == a;
    }
  }

  /** `.filter((s) => s.length > 0)`. */
  function NonEmpty(pieces: seq<string>): seq<string> {
    if |pieces| == 0 then []
    else (if pieces[0] != "" then [pieces[0]] else []) + NonEmpty(pieces[1..])
  }

  /** The filter keeps exactly the non-empty pieces. */
  lemma {:induction false} NonEmptyMembers(pieces: seq<string>)
    ensures forall p :: p in NonEmpty(pieces) <==> p in pieces && p != ""
  {
    if |pieces| > 0 {
      NonEmptyMembers(pieces[1..]);
      assert pieces == [pieces[0]] + pieces[1..];
    }
  }

  /** `.map((s) => s.trim())`. */
  function TrimAll(pieces: seq<string>): seq<string> {
    seq(|pieces|, i requires 0 <= i < |pieces| => Trim(pieces[i]))
  }

  function Last<T>(s: seq<T>): T
    requires |s| > 0
  {
    s[|s| - 1]
  }

  /** A non-empty sequence is its front followed by its last element. */
  lemma InitLast<T>(s: seq<T>)
    requires |s| > 0
    ensures s[..|s| - 1] + [Last(s)] == s
  {
  }

  /** No piece is empty. */
  predicate NonEmptyGroups<T>(g: seq<seq<T>>) {
    forall i :: 0 <= i < |g| ==> |g[i]| > 0
  }

  /** `.flat()`: the pieces concatenated in order. */
  function Flatten<T>(g: seq<seq<T>>): seq<T> {
    if |g| == 0 then [] else Flatten(g[..|g| - 1]) + Last(g)
  }

  lemma FlattenSnoc<T>(g: seq<seq<T>>, x: seq<T>)
    ensures Flatten(g + [x]) == Flatten(g) + x
  {
    assert (g + [x])[..|g|] == g;
  }

  /** `.filter(keep)`. */
  function Filter<T>(s: seq<T>, keep: T -> bool): seq<T> {
    if |s| == 0 then [] else Filter(s[..|s| - 1], keep) + if keep(Last(s)) then [Last(s)] else []
  }

  /** The filter keeps exactly the elements that pass. */
  lemma {:induction false} FilterMembers<T>(s: seq<T>, keep: T -> bool)
    ensures forall x :: x in Filter(s, keep) <==> x in s && keep(x)
  {
    if |s| > 0 {
      var init := s[..|s| - 1];
      FilterMembers(init, keep);
      assert s == init + [Last(s)];
    }
  }

  /** The filter keeps the order: it distributes over concatenation. */
  lemma {:induction false} FilterConcat<T>(a: seq<T>, b: seq<T>, keep: T -> bool)
    ensures Filter(a + b, keep) == Filter(a, keep) + Filter(b, keep)
  {
    if |b| == 0 {
      assert a + b == a;
    } else {
      var init := b[..|b| - 1];
      FilterConcat(a, init, keep);
      assert (a + b)[..|a + b| - 1] == a + init;
    }
  }

  /** Extending a prefix of `full` by its next element gives the next prefix. */
  lemma NextPrefix<T>(done: seq<T>, full: seq<T>, i: nat, x: T)
    requires i < |full| && done == full[..i] && x == full[i]
    ensures done + [x] == full[..i + 1]
  {
  }

  /** Where `slice` and `splice` start for a relative index `k` into a
      sequence of length `len`: a negative index counts from the end, and the
      result is clamped to `0..len`. */
  function SliceIndex(k: int, len: nat): (r: nat)
    ensures r <= len
  {
    if k < 0 then (if len + k < 0 then 0 else len + k) else if k > len then len else k
  }

  // ---------------------------------------------------------------------------
  // ASCII lower-casing
  // ---------------------------------------------------------------------------

  function LowerChar(c: char): char {
    if 'A' <= c <= 'Z' then (c as int - 'A' as int + 'a' as int) as char else c
  }

  /** `toLowerCase`, restricted to the ASCII letters. */
  function Lower(s: string): (r: string)
    ensures |r| == |s| && forall i :: 0 <= i < |s| ==> r[i] == LowerChar(s[i])
  {
    seq(|s|, i requires 0 <= i < |s| => LowerChar(s[i]))
  }

  // ---------------------------------------------------------------------------
  // Digits, parseInt and decimal rendering
  // ---------------------------------------------------------------------------

  predicate IsDigit(c: char) {
    '0' <= c <= '9'
  }

  predicate AllDigits(s: string) {
    forall i :: 0 <= i < |s| ==> IsDigit(s[i])
  }

  /** Value of one digit of base 10 or 16 (either letter case), if it is one. */
  function DigitValue(c: char, radix: nat): Option<nat> {
    if '0' <= c <= '9' && (c as int) - ('0' as int) < radix then Some((c as int) - ('0' as int))
    else if radix == 16 && 'a' <= c <= 'f' then Some((c as int) - ('a' as int) + 10)
    else if radix == 16 && 'A' <= c <= 'F' then Some((c as int) - ('A' as int) + 10)
    else None
  }

  /** Length of the longest prefix of `s` made of digits of the radix. */
  function DigitRun(s: string, radix: nat): (k: nat)
    ensures k <= |s|
    ensures forall i :: 0 <= i < k ==> DigitValue(s[i], radix).Some?
    ensures k == |s| || DigitValue(s[k], radix).None?
  {
    if |s| == 0 || DigitValue(s[0], radix).None? then 0 else 1 + DigitRun(s[1..], radix)
  }

  /** Decimal digits followed by a non-digit: the digit run is exactly them. */
  lemma {:induction false} DigitRunAfterDigits(a: string, t: string)
    requires AllDigits(a) && (|t| == 0 || !IsDigit(t[0]))
    ensures DigitRun(a + t, 10) == |a|
  {
    if |a| > 0 {
      assert (a + t)[1..] == a[1..] + t;
      DigitRunAfterDigits(a[1..], t);
    }
  }

  /** Positional value of a string of digits, most significant first. */
  function DigitsValue(s: string, radix: nat): nat
    requires forall i :: 0 <= i < |s| ==> DigitValue(s[i], radix).Some?
  {
    if |s| == 0 then 0
    else DigitsValue(s[..|s| - 1], radix) * radix + DigitValue(s[|s| - 1], radix).value
  }

  /** `parseInt(s, radix)` for radix 10 or 16: skip leading white space, read
      an optional sign, (radix 16 only) an optional `0x`/`0X`, then the longest
      run of digits. No digit at all is NaN, here `None`. */
  function ParseInt(s: string, radix: nat): (r: Option<int>)
    requires radix == 10 || radix == 16
  {
    var t := TrimStart(s);
    var negative := |t| > 0 && t[0] == '-';
    var u := if |t| > 0 && (t[0] == '-' || t[0] == '+') then t[1..] else t;
    var v := if radix == 16 && |u| >= 2 && u[0] == '0' && (u[1] == 'x' || u[1] == 'X') then u[2..] else u;
    var k := DigitRun(v, radix);
    if k == 0 then None
    else
      var magnitude := DigitsValue(v[..k], radix);
      var value: int := if negative then 0 - magnitude as int else magnitude;
      Some(value)
  }

  /** A string of decimal digits is read back by `ParseInt` as its value. */
  lemma ParseIntDigits(s: string)
    requires |s| > 0 && AllDigits(s)
    ensures forall i :: 0 <= i < |s| ==> DigitValue(s[i], 10).Some?
    ensures ParseInt(s, 10) == Some(DigitsValue(s, 10))
  {
    assert s + "" == s;
    ParseIntLeadingDigits(s, "");
  }

  /** Decimal digits followed by a non-digit (or nothing): `ParseInt` reads
      the digits and ignores the rest. */
  lemma ParseIntLeadingDigits(a: string, t: string)
    requires |a| > 0 && AllDigits(a) && (|t| == 0 || !IsDigit(t[0]))
    ensures forall i :: 0 <= i < |a| ==> DigitValue(a[i], 10).Some?
    ensures ParseInt(a + t, 10) == Some(DigitsValue(a, 10))
  {
    var s := a + t;
    assert TrimStart(s) == s by {
      assert s[0] == a[0];
      TrimStartAtDigit(s);
    }
    assert DigitRun(s, 10) == |a| by {
      DigitRunAfterDigits(a, t);
    }
    assert s[..|a|] == a;
    ParseIntUnsigned(s);
  }

  /** Without leading white space or a sign, base 10 reads the leading digits. */
  lemma ParseIntUnsigned(s: string)
    requires TrimStart(s) == s && |s| > 0 && s[0] != '-' && s[0] != '+'
    ensures var k := DigitRun(s, 10);
            ParseInt(s, 10) == if k == 0 then None else Some(DigitsValue(s[..k], 10))
  {
    var t := TrimStart(s);
    assert !(|t| > 0 && t[0] == '-');
    assert !(|t| > 0 && (t[0] == '-' || t[0] == '+'));
  }

  lemma TrimStartAtDigit(s: string)
    requires |s| > 0 && IsDigit(s[0])
    ensures TrimStart(s) == s
  {
    assert !IsSpace(s[0]);
    assert LeadingSpaces(s) == 0;
  }

  function DigitChar(d: nat): (c: char)
    requires d < 10
    ensures IsDigit(c) && DigitValue(c, 10) == Some(d)
  {
    ('0' as int + d) as char
  }

  /** Decimal rendering of a natural, as in a template literal `${n}`. */
  function NatToString(n: nat): (s: string)
    ensures |s| >= 1 && AllDigits(s)
    ensures forall i :: 0 <= i < |s| ==> DigitValue(s[i], 10).Some?
    ensures DigitsValue(s, 10) == n
    ensures n >= 10 ==> s[0] != '0'
    decreases n
  {
    if n < 10 then [DigitChar(n)]
    else
      var s := NatToString(n / 10) + [DigitChar(n % 10)];
      assert s[..|s| - 1] == NatToString(n / 10);
      s
  }

  // ---------------------------------------------------------------------------
  // Math.round, Math.ceil and progress percentages over exact reals
  // ---------------------------------------------------------------------------

  function Abs(x: real): real {
    if x < 0.0 then -x else x
  }

  /** `Math.round`: the nearest integer, halves rounded up. */
  function Round(x: real): (r: int)
    ensures r as real - 0.5 <= x < r as real + 0.5
  {
    (x + 0.5).Floor
  }

  /** `Math.ceil`: the least integer not below `x`. */
  function Ceil(x: real): (r: int)
    ensures x <= r as real < x + 1.0
  {
    -((-x).Floor)
  }

  lemma RoundMonotone(x: real, y: real)
    requires x <= y
    ensures Round(x) <= Round(y)
  {
  }

  /** `Math.round((done / total) * 100)`. */
  function Percent(done: nat, total: nat): int
    requires total > 0
  {
    Round(done as real / total as real * 100.0)
  }

  /** Progress reports never go backwards, stay within 0..100 and reach 100
      when all the work is done (rounding can show 100 a little earlier). */
  lemma PercentProperties(done: nat, later: nat, total: nat)
    requires total > 0 && done <= later <= total
    ensures Percent(done, total) <= Percent(later, total)
    ensures 0 <= Percent(done, total) <= 100
    ensures Percent(total, total) == 100
  {
    var t := total as real;
    DivMonotone(0.0, done as real, t);
    DivMonotone(done as real, later as real, t);
    DivMonotone(done as real, t, t);
    RoundMonotone(0.0, done as real / t * 100.0);
    RoundMonotone(done as real / t * 100.0, later as real / t * 100.0);
    RoundMonotone(done as real / t * 100.0, 100.0);
  }

  /** The reports `round((i + 1) / n * 100)` made after each of `n` steps. */
  function ProgressReports(n: nat): (r: seq<int>)
    ensures |r| == n
  {
    seq(n, i requires 0 <= i < n => Percent(i + 1, n))
  }

  /** A run of progress reports never goes backwards, stays within 0..100
      and ends at 100. */
  lemma ProgressReportsProperties(n: nat)
    ensures forall i, j :: 0 <= i <= j < n ==> 0 <= ProgressReports(n)[i] <= ProgressReports(n)[j] <= 100
    ensures n > 0 ==> ProgressReports(n)[n - 1] == 100
  {
    var r := ProgressReports(n);
    forall i, j | 0 <= i <= j < n ensures 0 <= r[i] <= r[j] <= 100 {
      PercentProperties(i + 1, j + 1, n);
      PercentProperties(j + 1, n, n);
    }
    if n > 0 {
      PercentProperties(n, n, n);
    }
  }

  lemma DivMonotone(x: real, y: real, t: real)
    requires x <= y && t > 0.0
    ensures x / t <= y / t
    ensures t / t == 1.0
  {
  }
}
