/**
  File-name helpers: the extension of a name, replacing it, and checking a
  file against a list of accepted extensions and MIME types. The helpers use
  `lastIndexOf('.')`, which is -1 for a name without a dot, and `slice`,
  which counts a negative index from the end; both are modelled as written,
  so a dot-less name behaves as its last character being the extension.
 */
module FileHelpers {
  import opened Common

  /** `s.lastIndexOf(c)`: the index of the last `c`, or -1. */
  function LastIndexOf(s: string, c: char): (k: int)
    ensures -1 <= k < |s|
  {
    if |s| == 0 then -1
    else if Last(s) == c then |s| - 1
    else LastIndexOf(s[..|s| - 1], c)
  }

  lemma {:induction false} LastIndexOfProperties(s: string, c: char)
    ensures LastIndexOf(s, c) == -1 <==> c !in s
    ensures LastIndexOf(s, c) >= 0 ==> s[LastIndexOf(s, c)] == c && c !in s[LastIndexOf(s, c) + 1..]
  {
    if |s| > 0 {
      var init := s[..|s| - 1];
      LastIndexOfProperties(init, c);
      assert s == init + [Last(s)];
      if Last(s) != c && LastIndexOf(init, c) >= 0 {
        var k := LastIndexOf(init, c);
        assert s[k + 1..] == init[k + 1..] + [Last(s)];
      }
    }
  }

  /** `filename.slice(filename.lastIndexOf('.')).toLowerCase()`. */
  function GetFileExtension(filename: string): string {
    Lower(filename[SliceIndex(LastIndexOf(filename, '.'), |filename|)..])
  }

  /** `${filename.slice(0, filename.lastIndexOf('.'))}.${newExt}`. */
  function ReplaceExtension(filename: string, newExt: string): string {
    filename[..SliceIndex(LastIndexOf(filename, '.'), |filename|)] + "." + newExt
  }

  /** `Math.pow(1024, i)`. */
  function Pow1024(i: nat): (p: nat)
    ensures p >= 1
  {
    if i == 0 then 1 else 1024 * Pow1024(i - 1)
  }

  /** `Math.floor(Math.log(bytes) / Math.log(1024))` in exact arithmetic:
      the largest `i` with `1024^i <= bytes`. */
  function UnitIndex(bytes: nat): (i: nat)
    requires bytes >= 1
    ensures Pow1024(i) <= bytes < Pow1024(i + 1)
  {
    if bytes < 1024 then 0
    else
      var i := 1 + UnitIndex(bytes / 1024);
      assert Pow1024(i) == 1024 * Pow1024(i - 1);
      assert Pow1024(i + 1) == 1024 * Pow1024(i);
      assert 1024 * (bytes / 1024) <= bytes < 1024 * (bytes / 1024 + 1);
      i
  }

  /** `units[i]`; an index past the table reads `undefined`. */
  function UnitName(i: nat): string {
    if i == 0 then "B" else if i == 1 then "KB" else if i == 2 then "MB"
    else if i == 3 then "GB" else "undefined"
  }

  /** `x.toFixed(1)` for a non-negative `x`: the nearest tenth, halves
      rounded up. */
  function FixedOne(x: real): string
    requires x >= 0.0
  {
    Tenths(Round(x * 10.0))
  }

  /** `n` tenths written with one decimal: "12.5" for 125. */
  function Tenths(n: nat): string {
    NatToString(n / 10) + "." + [DigitChar(n % 10)]
  }

  /** `formatFileSize`: "0 B" for an empty file; otherwise the size in the
      largest unit not above it, whole bytes below 1024 and one decimal
      above. */
  function FormatFileSize(bytes: nat): string {
    if bytes == 0 then "0 B"
    else
      var i := UnitIndex(bytes);
      var x := bytes as real / Pow1024(i) as real;
      (if i > 0 then FixedOne(x) else NatToString(bytes)) + " " + UnitName(i)
  }

  /** `acceptedTypes.some((t) => t === ext || t === file.type)`. */
  function Accepts(acceptedTypes: seq<string>, ext: string, mimeType: string): bool {
    |acceptedTypes| > 0
    && (Accepts(acceptedTypes[..|acceptedTypes| - 1], ext, mimeType)
        || Last(acceptedTypes) == ext || Last(acceptedTypes) == mimeType)
  }

  /** `validateFileType` for a file with the given name and MIME type. */
  function ValidateFileType(name: string, mimeType: string, acceptedTypes: seq<string>): bool {
    Accepts(acceptedTypes, GetFileExtension(name), mimeType)
  }

  // ---------------------------------------------------------------------------
  // Properties
  // ---------------------------------------------------------------------------

  lemma LowerKeepsDots(s: string)
    ensures forall i :: 0 <= i < |s| ==> (Lower(s)[i] == '.' <==> s[i] == '.')
  {
  }

  /** With a dot, the extension is the lower-cased suffix from the last dot:
      it starts with that dot and holds no other. */
  lemma ExtensionWithDot(filename: string)
    requires '.' in filename
    ensures var k := LastIndexOf(filename, '.');
            0 <= k && GetFileExtension(filename) == Lower(filename[k..])
    ensures |GetFileExtension(filename)| > 0 && GetFileExtension(filename)[0] == '.'
    ensures '.' !in GetFileExtension(filename)[1..]
  {
    LastIndexOfProperties(filename, '.');
    var k := LastIndexOf(filename, '.');
    var ext := GetFileExtension(filename);
    LowerKeepsDots(filename[k..]);
    assert filename[k..][1..] == filename[k + 1..];
    forall i | 1 <= i < |ext| ensures ext[i] != '.' {
      assert filename[k..][i] == filename[k + 1..][i - 1];
    }
  }

  /** Without a dot, `lastIndexOf` gives -1 and `slice(-1)` keeps the last
      character: the "extension" is that character lower-cased, or "" for an
      empty name. */
  lemma ExtensionWithoutDot(filename: string)
    requires '.' !in filename
    ensures GetFileExtension(filename) == if |filename| == 0 then "" else [LowerChar(Last(filename))]
  {
    LastIndexOfProperties(filename, '.');
  }

  /** The new name always ends with "." and the new extension; before that
      comes the name up to its last dot, or, without a dot, the name less its
      last character (`slice(0, -1)`). */
  lemma ReplaceExtensionShape(filename: string, newExt: string)
    ensures var r := ReplaceExtension(filename, newExt);
            |r| > |newExt| && r[|r| - |newExt| - 1..] == "." + newExt
    ensures '.' in filename ==>
              var k := LastIndexOf(filename, '.');
              0 <= k && ReplaceExtension(filename, newExt) == filename[..k] + "." + newExt
    ensures '.' !in filename ==>
              ReplaceExtension(filename, newExt)
              == (if |filename| == 0 then "" else filename[..|filename| - 1]) + "." + newExt
  {
    var k := LastIndexOf(filename, '.');
    var i := SliceIndex(k, |filename|);
    DotSuffix(filename[..i], newExt);
    assert k == -1 <==> '.' !in filename by {
      LastIndexOfProperties(filename, '.');
    }
  }

  lemma DotSuffix(base: string, newExt: string)
    ensures var r := base + "." + newExt;
            |r| > |newExt| && r[|r| - |newExt| - 1..] == "." + newExt
  {
    var r := base + "." + newExt;
    assert r[|base|..] == "." + newExt;
  }

  /** Replacing the extension and reading it back gives the new extension,
      lower-cased, when it holds no dot. */
  lemma ReplaceThenGet(filename: string, newExt: string)
    requires '.' !in newExt
    ensures GetFileExtension(ReplaceExtension(filename, newExt)) == Lower("." + newExt)
  {
    var base := filename[..SliceIndex(LastIndexOf(filename, '.'), |filename|)];
    var r := base + "." + newExt;
    LastIndexOfProperties(r, '.');
    var k := LastIndexOf(r, '.');
    assert r[|base|] == '.';
    forall j | |base| < j < |r| ensures r[j] != '.' {
      assert r[j] == newExt[j - |base| - 1];
    }
    assert k == |base|;
  }

  lemma {:induction false} AcceptsExactly(acceptedTypes: seq<string>, ext: string, mimeType: string)
    ensures Accepts(acceptedTypes, ext, mimeType) <==>
              exists i :: 0 <= i < |acceptedTypes| && (acceptedTypes[i] == ext || acceptedTypes[i] == mimeType)
  {
    if |acceptedTypes| > 0 {
      var n := |acceptedTypes| - 1;
      AcceptsExactly(acceptedTypes[..n], ext, mimeType);
      assert forall i :: 0 <= i < n ==> acceptedTypes[..n][i] == acceptedTypes[i];
    }
  }

  /** A file is valid exactly when some accepted entry equals its lower-cased
      extension or its MIME type, and accepting more entries never rejects a
      file that was valid. */
  lemma ValidateFileTypeProperties(name: string, mimeType: string, acceptedTypes: seq<string>, more: seq<string>)
    ensures ValidateFileType(name, mimeType, acceptedTypes) <==>
              exists t :: t in acceptedTypes && (t == GetFileExtension(name) || t == mimeType)
    ensures ValidateFileType(name, mimeType, acceptedTypes) ==> ValidateFileType(name, mimeType, acceptedTypes + more)
  {
    var ext := GetFileExtension(name);
    AcceptsExactly(acceptedTypes, ext, mimeType);
    AcceptsExactly(acceptedTypes + more, ext, mimeType);
    if exists t :: t in acceptedTypes && (t == ext || t == mimeType) {
      var t :| t in acceptedTypes && (t == ext || t == mimeType);
      var i :| 0 <= i < |acceptedTypes| && acceptedTypes[i] == t;
    }
    if ValidateFileType(name, mimeType, acceptedTypes) {
      var i :| 0 <= i < |acceptedTypes| && (acceptedTypes[i] == ext || acceptedTypes[i] == mimeType);
      assert acceptedTypes[i] in acceptedTypes;
      assert (acceptedTypes + more)[i] == acceptedTypes[i];
    }
  }

  lemma {:induction false} Pow1024Monotone(i: nat, j: nat)
    requires i <= j
    ensures Pow1024(i) <= Pow1024(j)
  {
    if i < j {
      Pow1024Monotone(i, j - 1);
    }
  }

  /** The unit index is the only `k` with `1024^k <= bytes < 1024^(k+1)`. */
  lemma UnitIndexUnique(bytes: nat, k: nat)
    requires bytes >= 1 && Pow1024(k) <= bytes < Pow1024(k + 1)
    ensures UnitIndex(bytes) == k
  {
    var i := UnitIndex(bytes);
    if i < k {
      Pow1024Monotone(i + 1, k);
    } else if i > k {
      Pow1024Monotone(k + 1, i);
    }
  }

  /** An empty file is "0 B" and below 1024 bytes the size is shown in
      whole bytes. */
  lemma SmallFileSize(bytes: nat)
    requires bytes < 1024
    ensures bytes == 0 ==> FormatFileSize(bytes) == "0 B"
    ensures bytes >= 1 ==> FormatFileSize(bytes) == NatToString(bytes) + " B"
  {
    if bytes >= 1 {
      assert Pow1024(1) == 1024;
      UnitIndexUnique(bytes, 0);
    }
  }

  /** From 1024 bytes on, the size is shown in the largest unit not above
      it: the scaled size lies in [1, 1024) and is shown rounded to the
      nearest tenth, so just below the next unit it reads "1024.0". */
  lemma LargeFileSize(bytes: nat)
    requires bytes >= 1024
    ensures var i := UnitIndex(bytes);
            var x := bytes as real / Pow1024(i) as real;
            && 1 <= i && 1.0 <= x < 1024.0
            && exists n: nat :: FormatFileSize(bytes) == Tenths(n) + " " + UnitName(i) &&
                                x * 10.0 - 0.5 < n as real <= x * 10.0 + 0.5
  {
    var i := UnitIndex(bytes);
    assert Pow1024(1) == 1024;
    if i == 0 {
      assert false;
    }
    assert Pow1024(i + 1) == 1024 * Pow1024(i);
    var x := bytes as real / Pow1024(i) as real;
    ScaledInRange(bytes as real, Pow1024(i) as real);
    FixedOneValue(x);
  }

  lemma ScaledInRange(b: real, p: real)
    requires 1.0 <= p <= b < 1024.0 * p
    ensures 1.0 <= b / p < 1024.0
  {
    assert (b / p) * p == b;
  }

  /** `toFixed(1)` shows the tenths count nearest to `10 x`. */
  lemma FixedOneValue(x: real)
    requires x >= 0.0
    ensures exists n: nat :: FixedOne(x) == Tenths(n) && x * 10.0 - 0.5 < n as real <= x * 10.0 + 0.5
  {
    var n := Round(x * 10.0);
    assert FixedOne(x) == Tenths(n);
  }

  /** The unit is KB, MB or GB by the power of 1024 the size reaches, and
      `undefined` from 1024 GB on. */
  lemma UnitNames(bytes: nat)
    requires bytes >= 1024
    ensures bytes < 1048576 ==> UnitName(UnitIndex(bytes)) == "KB"
    ensures 1048576 <= bytes < 1073741824 ==> UnitName(UnitIndex(bytes)) == "MB"
    ensures 1073741824 <= bytes < 1099511627776 ==> UnitName(UnitIndex(bytes)) == "GB"
    ensures bytes >= 1099511627776 ==> UnitName(UnitIndex(bytes)) == "undefined"
  {
    assert Pow1024(1) == 1024;
    assert Pow1024(2) == 1048576;
    assert Pow1024(3) == 1073741824;
    assert Pow1024(4) == 1099511627776;
    if bytes < 1048576 {
      UnitIndexUnique(bytes, 1);
    } else if bytes < 1073741824 {
      UnitIndexUnique(bytes, 2);
    } else if bytes < 1099511627776 {
      UnitIndexUnique(bytes, 3);
    } else {
      Pow1024Monotone(4, UnitIndex(bytes));
    }
  }
}
