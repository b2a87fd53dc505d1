/**
  The watermark form: the colour field's hex string becomes the three
  channels handed to the drawing call, and choosing a position resets the
  rotation field. The rest of the form is left out.
 */
module PdfWatermark {
  import opened Common
  import Watermark

  /** A colour channel: `None` stands for the NaN that `parseInt` gives when
      no digit could be read. */
  type Channel = Option<real>

  datatype Color = Color(r: Channel, g: Channel, b: Channel)

  /** `s.replace(c, "")` with a one-character pattern: only the first
      occurrence, wherever it is, is removed. */
  function RemoveFirst(s: string, c: char): string {
    if |s| == 0 then s
    else if s[0] == c then s[1..]
    else [s[0]] + RemoveFirst(s[1..], c)
  }

  /** `s.substring(start, end)`: both ends clamped to the string, and
      swapped when they are out of order. */
  function Substring(s: string, start: int, end: int): (r: string)
    ensures |r| <= |s|
  {
    var a := if start < 0 then 0 else if start > |s| then |s| else start;
    var b := if end < 0 then 0 else if end > |s| then |s| else end;
    if a <= b then s[a..b] else s[b..a]
  }

  /** What `substring` means: ends in order within the string select the
      characters between them; ends out of order are swapped; an end below 0
      reads as 0 and one past the string as its length. */
  lemma SubstringProperties(s: string, start: int, end: int)
    ensures 0 <= start <= end <= |s| ==> Substring(s, start, end) == s[start..end]
    ensures Substring(s, start, end) == Substring(s, end, start)
    ensures start < 0 ==> Substring(s, start, end) == Substring(s, 0, end)
    ensures start > |s| ==> Substring(s, start, end) == Substring(s, |s|, end)
  {
  }

  /** `parseInt(pair, 16) / 255`. */
  function ChannelOf(pair: string): Channel {
    match ParseInt(pair, 16)
    case None => None
    case Some(v) => Some(v as real / 255.0)
  }

  /** `hexToRgb`. */
  function HexToRgb(hex: string): Color {
    var h := RemoveFirst(hex, '#');
    Color(ChannelOf(Substring(h, 0, 2)), ChannelOf(Substring(h, 2, 4)), ChannelOf(Substring(h, 4, 6)))
  }

  /** Every character is a hexadecimal digit. */
  predicate HexDigits(s: string) {
    forall i :: 0 <= i < |s| ==> DigitValue(s[i], 16).Some?
  }

  /** The rotation the form switches to when a position is chosen. */
  function ResetRotation(position: Watermark.Position): real {
    if position == Watermark.Diagonal then -45.0 else 0.0
  }

  /** The two form fields the position select updates. */
  class WatermarkForm {
    var position: Watermark.Position
    var rotation: real

    /** The form opens in diagonal mode at -45 degrees. */
    constructor ()
      ensures position == Watermark.Diagonal && rotation == -45.0
    {
      position := Watermark.Diagonal;
      rotation := -45.0;
    }

    /** The select's change handler: the position is set, and the rotation
        jumps to -45 for diagonal and to 0 for centre, whatever it was. */
    method SelectPosition(pos: Watermark.Position)
      modifies this
      ensures position == pos && rotation == ResetRotation(pos)
    {
      position := pos;
      if pos == Watermark.Diagonal {
        rotation := -45.0;
      } else {
        rotation := 0.0;
      }
    }
  }

  // ---------------------------------------------------------------------------
  // Properties
  // ---------------------------------------------------------------------------

  /** Removing the first `c`: nothing changes without one; otherwise exactly
      the first one goes and everything else stays in order. */
  lemma RemoveFirstProperties(s: string, c: char)
    ensures c !in s ==> RemoveFirst(s, c) == s
    ensures c in s ==> exists i :: 0 <= i < |s| && s[i] == c && c !in s[..i] && RemoveFirst(s, c) == s[..i] + s[i + 1..]
  {
    if c in s {
      var i := FirstIndex(s, c);
      RemoveFirstAt(s, c, i);
    } else {
      RemoveAbsent(s, c);
    }
  }

  /** The position of the first `c`. */
  function FirstIndex(s: string, c: char): (i: nat)
    requires c in s
    ensures i < |s| && s[i] == c && c !in s[..i]
  {
    if s[0] == c then 0
    else
      assert c in s[1..];
      var j := FirstIndex(s[1..], c);
      assert s[..j + 1] == [s[0]] + s[1..][..j];
      j + 1
  }

  /** Removing the first `c` when it sits at `i`. */
  lemma {:induction false} RemoveFirstAt(s: string, c: char, i: nat)
    requires i < |s| && s[i] == c && c !in s[..i]
    ensures RemoveFirst(s, c) == s[..i] + s[i + 1..]
  {
    if i == 0 {
      assert s[..0] == [];
    } else {
      assert s[0] == s[..i][0];
      assert s[1..][..i - 1] == s[1..i];
      RemoveFirstAt(s[1..], c, i - 1);
      assert s[..i] == [s[0]] + s[1..i];
      assert s[1..][i..] == s[i + 1..];
    }
  }

  /** A hexadecimal digit is neither white space, a sign nor the `x` of a
      `0x` prefix. */
  lemma HexDigitIsPlain(c: char)
    requires DigitValue(c, 16).Some?
    ensures !IsSpace(c) && c != '-' && c != '+' && c != 'x' && c != 'X' && c != '#'
  {
  }

  /** The digit run of a string of hexadecimal digits is all of it. */
  lemma {:induction false} HexRunIsAll(s: string)
    requires HexDigits(s)
    ensures DigitRun(s, 16) == |s|
  {
    if |s| > 0 {
      HexRunIsAll(s[1..]);
    }
  }

  /** Two hexadecimal digits are read as the byte they spell. */
  lemma HexPair(pair: string)
    requires |pair| == 2 && HexDigits(pair)
    ensures ParseInt(pair, 16) == Some(DigitValue(pair[0], 16).value * 16 + DigitValue(pair[1], 16).value)
    ensures 0 <= DigitValue(pair[0], 16).value * 16 + DigitValue(pair[1], 16).value <= 255
  {
    var d0, d1 := DigitValue(pair[0], 16).value, DigitValue(pair[1], 16).value;
    HexDigitIsPlain(pair[0]);
    HexDigitIsPlain(pair[1]);
    assert LeadingSpaces(pair) == 0;
    assert TrimStart(pair) == pair;
    HexRunIsAll(pair);
    assert pair[..2] == pair;
    assert pair[..1][..0] == [];
    assert DigitsValue(pair[..1], 16) == d0;
    assert DigitsValue(pair, 16) == d0 * 16 + d1;
  }

  /** The byte two hexadecimal digits spell. */
  function Byte(pair: string): (v: nat)
    requires |pair| == 2 && HexDigits(pair)
    ensures v <= 255
  {
    DigitValue(pair[0], 16).value * 16 + DigitValue(pair[1], 16).value
  }

  /** A pair of hexadecimal digits gives its byte over 255, which lies
      between 0 and 1. */
  lemma PairChannel(pair: string)
    requires |pair| == 2 && HexDigits(pair)
    ensures ChannelOf(pair) == Some(Byte(pair) as real / 255.0)
    ensures 0.0 <= ChannelOf(pair).value <= 1.0
  {
    HexPair(pair);
  }

  /** The digits of a hexadecimal string are hexadecimal digits. */
  lemma HexSlice(s: string, i: nat, j: nat)
    requires HexDigits(s) && i <= j <= |s|
    ensures HexDigits(s[i..j])
  {
    forall k | 0 <= k < j - i ensures DigitValue(s[i..j][k], 16).Some? {
      assert s[i..j][k] == s[i + k];
    }
  }

  /** Removing a character that is not there changes nothing. */
  lemma {:induction false} RemoveAbsent(s: string, c: char)
    requires c !in s
    ensures RemoveFirst(s, c) == s
  {
    if |s| > 0 {
      assert c !in s[1..];
      RemoveAbsent(s[1..], c);
      assert s == [s[0]] + s[1..];
    }
  }

  /** Hexadecimal digits contain no '#'. */
  lemma NoHash(s: string)
    requires HexDigits(s)
    ensures '#' !in s
  {
    forall i | 0 <= i < |s| ensures s[i] != '#' {
      HexDigitIsPlain(s[i]);
    }
  }

  /** A six-digit colour, with or without its '#', is read pair by pair:
      red from the first two digits, green from the next two, blue from the
      last two, each a pair of hexadecimal digits (see `PairChannel`). */
  lemma SixDigitColor(s: string)
    requires |s| == 6 && HexDigits(s)
    ensures HexToRgb(s) == Color(ChannelOf(s[0..2]), ChannelOf(s[2..4]), ChannelOf(s[4..6]))
    ensures HexToRgb("#" + s) == HexToRgb(s)
    ensures HexDigits(s[0..2]) && HexDigits(s[2..4]) && HexDigits(s[4..6])
  {
    NoHash(s);
    RemoveAbsent(s, '#');
    HashOptional(s);
    assert Substring(s, 0, 2) == s[0..2];
    assert Substring(s, 2, 4) == s[2..4];
    assert Substring(s, 4, 6) == s[4..6];
    HexSlice(s, 0, 2);
    HexSlice(s, 2, 4);
    HexSlice(s, 4, 6);
  }

  /** A leading '#' makes no difference when it is the only one. */
  lemma HashOptional(s: string)
    requires '#' !in s
    ensures HexToRgb("#" + s) == HexToRgb(s)
  {
    assert ("#" + s)[1..] == s;
    assert RemoveFirst("#" + s, '#') == s;
    RemoveAbsent(s, '#');
  }

  /** Only the first '#' is removed: a second one is read as part of the red
      pair, which then has no digit to read. */
  lemma SecondHashKept()
    ensures HexToRgb("##000000").r == None
  {
    var h := RemoveFirst("##000000", '#');
    assert h == "#000000" by {
      assert "##000000"[0] == '#';
      assert "##000000"[1..] == "#000000";
    }
    assert Substring(h, 0, 2) == "#0";
    HashPairUnread();
  }

  lemma HashPairUnread()
    ensures ChannelOf("#0") == None
  {
    assert LeadingSpaces("#0") == 0;
    assert DigitRun("#0", 16) == 0;
  }

  /** Black: each pair of "#000000" reads as 0. */
  lemma BlackPair()
    ensures ChannelOf("00") == Some(0.0)
  {
    var pair := "00";
    assert pair[0] == '0' && pair[1] == '0';
    assert HexDigits(pair);
    PairChannel(pair);
  }

  /** White: each pair of "#ffffff" reads as 1. */
  lemma WhitePair()
    ensures ChannelOf("ff") == Some(1.0)
  {
    var pair := "ff";
    assert pair[0] == 'f' && pair[1] == 'f';
    assert HexDigits(pair);
    PairChannel(pair);
  }

  /** Right after a position is chosen, the text is drawn at the form's
      rotation in either mode: -45 degrees for diagonal, upright for centre. */
  lemma ResetMatchesDrawing(pos: Watermark.Position)
    ensures Watermark.RotationFor(pos, ResetRotation(pos)) == ResetRotation(pos)
    ensures pos == Watermark.Diagonal ==> ResetRotation(pos) == -45.0
    ensures pos == Watermark.Center ==> ResetRotation(pos) == 0.0
  {
  }
}
