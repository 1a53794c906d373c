/** The hex-text front end of GetFieldValues: every character becomes a
    4-bit group, and the groups are cut into whole bytes. */
module Hex {
  import opened Common

  /** The value of one hex character. */
  type Nibble = n: int | 0 <= n < 0x10

  predicate IsHexDigit(c: char) {
    '0' <= c <= '9' || 'a' <= c <= 'f' || 'A' <= c <= 'F'
  }

  /** Convert.ToInt32(c.ToString(), 16) on one character: digits in either
      case are accepted; a lone minus sign raises ArgumentException (no sign
      is allowed outside base 10) and any other character FormatException. */
  function HexDigitValue(c: char): (r: Result<Nibble>)
    ensures r.Ok? <==> IsHexDigit(c)
    ensures r.Err? ==> r.error == (if c == '-' then ArgumentError else FormatError)
  {
    if '0' <= c <= '9' then Ok(c as int - '0' as int)
    else if 'a' <= c <= 'f' then Ok(c as int - 'a' as int + 10)
    else if 'A' <= c <= 'F' then Ok(c as int - 'A' as int + 10)
    else if c == '-' then Err(ArgumentError)
    else Err(FormatError)
  }

  /** Character i is the first that is not a hex digit. */
  ghost predicate FirstBadDigit(s: string, i: int) {
    0 <= i < |s| && !IsHexDigit(s[i]) && forall j :: 0 <= j < i ==> IsHexDigit(s[j])
  }

  /** The character-by-character conversion: String.Join enumerates the whole
      text, so every character is converted and the first bad one throws. */
  function HexNibbles(s: string): (r: Result<seq<Nibble>>)
    ensures r.Ok? <==> forall i :: 0 <= i < |s| ==> IsHexDigit(s[i])
    ensures r.Ok? ==> |r.value| == |s|
    ensures r.Ok? ==> forall i :: 0 <= i < |s| ==> HexDigitValue(s[i]) == Ok(r.value[i])
    ensures r.Err? ==> exists i :: FirstBadDigit(s, i) && r.error == HexDigitValue(s[i]).error
  {
    if s == [] then Ok([])
    else
      var n :- HexDigitValue(s[0]);
      var rest :- HexNibbles(s[1..]);
      assert forall i :: 1 <= i < |s| ==> s[i] == s[1..][i - 1];
      Ok([n] + rest)
  }

  /** The byte whose high and low four bits are the given nibbles. */
  function ByteOf(high: Nibble, low: Nibble): Byte {
    0x10 * (high as int) + (low as int)
  }

  /** Whole bytes, high nibble first; an odd trailing nibble is not part of any byte. */
  function PackBytes(nibbles: seq<Nibble>): (r: seq<Byte>)
    ensures |r| == |nibbles| / 2
    ensures forall k :: 0 <= k < |r| ==> r[k] == ByteOf(nibbles[2 * k], nibbles[2 * k + 1])
  {
    if |nibbles| < 2 then []
    else [ByteOf(nibbles[0], nibbles[1])] + PackBytes(nibbles[2..])
  }

  /** The splitting loop: takes 8 bits at a time while a whole byte is left. */
  method SplitIntoBytes(nibbles: seq<Nibble>) returns (bytes: seq<Byte>)
    ensures bytes == PackBytes(nibbles)
  {
    bytes := [];
    var currentByteNumber := 1;
    while currentByteNumber * 2 <= |nibbles|
      invariant 1 <= currentByteNumber && (currentByteNumber - 1) * 2 <= |nibbles|
      invariant |bytes| == currentByteNumber - 1
      invariant forall k :: 0 <= k < |bytes| ==> bytes[k] == ByteOf(nibbles[2 * k], nibbles[2 * k + 1])
      decreases |nibbles| - currentByteNumber * 2
    {
      var high := nibbles[(currentByteNumber - 1) * 2];
      var low := nibbles[(currentByteNumber - 1) * 2 + 1];
      bytes := bytes + [0x10 * (high as int) + (low as int)];
      currentByteNumber := currentByteNumber + 1;
    }
  }

  /** The bytes a hex text stands for, or the exception its conversion throws. */
  function HexToBytes(s: string): (r: Result<seq<Byte>>)
    ensures r.Ok? <==> forall i :: 0 <= i < |s| ==> IsHexDigit(s[i])
    ensures r.Ok? ==> |r.value| == |s| / 2
    ensures r.Err? ==> r.error == FormatError || r.error == ArgumentError
  {
    var nibbles :- HexNibbles(s);
    Ok(PackBytes(nibbles))
  }

  // A reference encoder, the inverse of the conversion above.

  function HexDigit(n: Nibble, upper: bool): char {
    if n < 10 then ('0' as int + n) as char
    else if upper then ('A' as int + n - 10) as char
    else ('a' as int + n - 10) as char
  }

  /** Two hex characters per byte, high nibble first. */
  function ToHex(bytes: seq<Byte>, upper: bool): string {
    if bytes == [] then []
    else [HexDigit(bytes[0] / 0x10, upper), HexDigit(bytes[0] % 0x10, upper)] + ToHex(bytes[1..], upper)
  }

  function Nibbles(bytes: seq<Byte>): seq<Nibble> {
    if bytes == [] then []
    else [bytes[0] / 0x10, bytes[0] % 0x10] + Nibbles(bytes[1..])
  }

  lemma HexDigitRoundTrip(n: Nibble, upper: bool)
    ensures HexDigitValue(HexDigit(n, upper)) == Ok(n)
  {
  }

  lemma HexNibblesCons(c: char, rest: string, n: Nibble, ns: seq<Nibble>)
    requires HexDigitValue(c) == Ok(n) && HexNibbles(rest) == Ok(ns)
    ensures HexNibbles([c] + rest) == Ok([n] + ns)
  {
    assert ([c] + rest)[1..] == rest;
  }

  lemma {:induction false} HexNibblesOfToHex(bytes: seq<Byte>, upper: bool)
    ensures HexNibbles(ToHex(bytes, upper)) == Ok(Nibbles(bytes))
  {
    if bytes != [] {
      var high, low := bytes[0] / 0x10, bytes[0] % 0x10;
      var dh, dl := HexDigit(high, upper), HexDigit(low, upper);
      var tail, ns := ToHex(bytes[1..], upper), Nibbles(bytes[1..]);
      assert HexNibbles(tail) == Ok(ns) by {
        HexNibblesOfToHex(bytes[1..], upper);
      }
      assert HexNibbles([dl] + tail) == Ok([low] + ns) by {
        HexDigitRoundTrip(low, upper);
        HexNibblesCons(dl, tail, low, ns);
      }
      assert HexNibbles([dh] + ([dl] + tail)) == Ok([high] + ([low] + ns)) by {
        HexDigitRoundTrip(high, upper);
        HexNibblesCons(dh, [dl] + tail, high, [low] + ns);
      }
      assert [dh] + ([dl] + tail) == ToHex(bytes, upper);
      assert [high] + ([low] + ns) == Nibbles(bytes);
    }
  }

  lemma {:induction false} PackNibbles(bytes: seq<Byte>)
    ensures PackBytes(Nibbles(bytes)) == bytes
  {
    if bytes != [] {
      var n := Nibbles(bytes);
      assert n == [bytes[0] / 0x10, bytes[0] % 0x10] + Nibbles(bytes[1..]);
      PackNibbles(bytes[1..]);
      assert n[2..] == Nibbles(bytes[1..]);
      assert ByteOf(n[0], n[1]) == bytes[0];
    }
  }

  /** Hex text written for a byte sequence, in either case, converts back to it. */
  lemma HexRoundTrip(bytes: seq<Byte>, upper: bool)
    ensures HexToBytes(ToHex(bytes, upper)) == Ok(bytes)
  {
    HexNibblesOfToHex(bytes, upper);
    PackNibbles(bytes);
  }

  /** ASCII upper-casing of a text. */
  function ToUpper(s: string): (r: string)
    ensures |r| == |s|
    ensures forall i :: 0 <= i < |s| ==> r[i] == UpperChar(s[i])
  {
    if s == [] then []
    else [UpperChar(s[0])] + ToUpper(s[1..])
  }

  function UpperChar(c: char): char {
    if 'a' <= c <= 'z' then (c as int - 32) as char else c
  }

  lemma UpperCharDigit(c: char)
    ensures HexDigitValue(UpperChar(c)) == HexDigitValue(c)
  {
  }

  /** Two texts that agree on the first character's conversion and on the
      conversion of the rest convert alike. */
  lemma HexNibblesCongruent(s: string, t: string)
    requires s != [] && t != []
    requires HexDigitValue(s[0]) == HexDigitValue(t[0]) && HexNibbles(s[1..]) == HexNibbles(t[1..])
    ensures HexNibbles(s) == HexNibbles(t)
  {
  }

  /** The conversion does not depend on the case of the letters, and neither
      does the exception a bad character raises. */
  lemma HexCaseInsensitive(s: string)
    ensures HexToBytes(ToUpper(s)) == HexToBytes(s)
  {
    HexNibblesCaseInsensitive(s);
  }

  lemma {:induction false} HexNibblesCaseInsensitive(s: string)
    ensures HexNibbles(ToUpper(s)) == HexNibbles(s)
  {
    if s != [] {
      var u := ToUpper(s);
      assert u[0] == UpperChar(s[0]) && u[1..] == ToUpper(s[1..]);
      HexNibblesCaseInsensitive(s[1..]);
      UpperCharDigit(s[0]);
      HexNibblesCongruent(u, s);
    }
  }

  /** With an odd number of characters the last one is validated but its
      nibble is dropped. */
  lemma OddLengthDropsLastNibble(s: string, c: char)
    requires |s| % 2 == 0 && IsHexDigit(c)
    ensures HexToBytes(s + [c]) == HexToBytes(s)
  {
    var t := s + [c];
    assert forall i :: 0 <= i < |s| ==> t[i] == s[i];
    assert t[|s|] == c;
    if HexNibbles(s).Ok? {
      var n := HexNibbles(s).value;
      var m := HexNibbles(t).value;
      assert m[..|s|] == n;
      assert PackBytes(m) == PackBytes(n);
    } else {
      var i :| FirstBadDigit(s, i) && HexNibbles(s).error == HexDigitValue(s[i]).error;
      var j :| FirstBadDigit(t, j) && HexNibbles(t).error == HexDigitValue(t[j]).error;
      assert FirstBadDigit(t, j);
      assert 0 <= j < |t|;
      assert IsHexDigit(t[|s|]);
      assert !IsHexDigit(t[j]);
      assert j != |s|;
      assert j < |s|;
      assert i == j;
    }
  }

  /** A character that is not a hex digit makes the conversion throw, even in
      the trailing position whose nibble would be dropped. */
  lemma {:induction false} TrailingBadCharacterThrows(s: string, c: char)
    requires forall i :: 0 <= i < |s| ==> IsHexDigit(s[i])
    requires !IsHexDigit(c)
    ensures HexToBytes(s + [c]) == Err(if c == '-' then ArgumentError else FormatError)
  {
    var t := s + [c];
    assert t[|s|] == c && !IsHexDigit(t[|s|]);
    assert forall i :: 0 <= i < |s| ==> t[i] == s[i];
    var j :| FirstBadDigit(t, j) && HexNibbles(t).error == HexDigitValue(t[j]).error;
    assert FirstBadDigit(t, j);
    assert j == |s|;
  }
}
