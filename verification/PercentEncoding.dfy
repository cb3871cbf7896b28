/** URI percent-escapes in the DoH query parameter, and their composition with base64url. */
module PercentEncoding {
  import opened Wrappers
  import opened Base64Url

  function HexVal(c: char): (r: Option<int>)
    ensures r.Some? ==> 0 <= r.value < 16
  {
    if '0' <= c <= '9' then Some(c as int - '0' as int)
    else if 'a' <= c <= 'f' then Some(c as int - 'a' as int + 10)
    else if 'A' <= c <= 'F' then Some(c as int - 'A' as int + 10)
    else None
  }

  /** The byte escaped by the three characters at the front of `s`. */
  function EscapedByte(s: string): Option<char> {
    if |s| >= 3 && s[0] == '%' then
      var hi, lo := HexVal(s[1]), HexVal(s[2]);
      if hi.Some? && lo.Some? then Some((hi.value * 16 + lo.value) as char) else None
    else None
  }

  /** Invalid escapes stay as they are. */
  function Unescaped(s: string): string {
    if s == "" then ""
    else if EscapedByte(s).Some? then [EscapedByte(s).value] + Unescaped(s[3..])
    else [s[0]] + Unescaped(s[1..])
  }

  predicate AllAscii(s: string) {
    forall i :: 0 <= i < |s| ==> s[i] as int < 0x80
  }

  /** Turning bytes into text, with replacement characters where they are none: ASCII stays as it is,
      and other bytes do not become ASCII. */
  type Lossy = string -> string

  ghost predicate KeepsAscii(lossy: Lossy) {
    forall s :: if AllAscii(s) then lossy(s) == s else !AllAscii(lossy(s))
  }

  method PercentDecode(s: string, lossy: Lossy) returns (text: string)
    ensures text == lossy(Unescaped(s))
  {
    hide EscapedByte, HexVal, Unescaped;
    var out := "";
    var i := 0;
    assert s[0..] == s;
    while i < |s|
      invariant 0 <= i <= |s|
      invariant Unescaped(s) == out + Unescaped(s[i..])
    {
      var byte := EscapedByte(s[i..]);
      UnescapeAt(s, i);
      if byte.Some? {
        out := out + [byte.value];
        i := i + 3;
      } else {
        out := out + [s[i]];
        i := i + 1;
      }
    }
    NothingEscaped();
    assert i == |s| && s[i..] == "";
    assert out == out + "";
    text := lossy(out);
  }

  lemma NothingEscaped()
    ensures Unescaped("") == ""
  {
  }

  lemma UnescapeAt(s: string, i: nat)
    requires i < |s|
    ensures var byte := EscapedByte(s[i..]);
            && (byte.Some? ==> i + 3 <= |s| && Unescaped(s[i..]) == [byte.value] + Unescaped(s[i + 3..]))
            && (byte.None? ==> Unescaped(s[i..]) == [s[i]] + Unescaped(s[i + 1..]))
  {
    hide EscapedByte, HexVal;
    EscapeNeedsThree(s[i..]);
    if EscapedByte(s[i..]).Some? {
      assert s[i..][3..] == s[i + 3..];
    } else {
      assert s[i..][1..] == s[i + 1..];
    }
  }

  lemma EscapeNeedsThree(s: string)
    ensures EscapedByte(s).Some? ==> |s| >= 3
  {
  }

  // ---------------------------------------------------------------------------
  // Escapes as they are written
  // ---------------------------------------------------------------------------

  const UPPER_DIGITS := "0123456789ABCDEF"
  const LOWER_DIGITS := "0123456789abcdef"

  /** `c` is the hexadecimal digit of value `v`, in either case. */
  predicate IsDigit(c: char, v: nat) {
    v < 16 && (c == UPPER_DIGITS[v] || c == LOWER_DIGITS[v])
  }

  /** `e` starts with an escape of the byte `b`: a percent sign and the digits of its upper and lower half. */
  predicate StartsWithEscapeOf(e: string, b: char) {
    |e| >= 3 && e[0] == '%' && IsDigit(e[1], b as int / 16) && IsDigit(e[2], b as int % 16)
  }

  predicate IsHex(c: char) {
    c in UPPER_DIGITS || c in LOWER_DIGITS
  }

  /** `e` starts with a percent sign and two hexadecimal digits. */
  predicate StartsWithEscape(e: string) {
    |e| >= 3 && e[0] == '%' && IsHex(e[1]) && IsHex(e[2])
  }

  /** `e` writes `s`: each character either as an escape of it, or as it is where no escape starts. */
  ghost predicate Escapes(e: string, s: string)
    decreases |s|
  {
    if s == "" then e == ""
    else
      || (e != "" && e[0] == s[0] && !StartsWithEscape(e) && Escapes(e[1..], s[1..]))
      || (StartsWithEscapeOf(e, s[0]) && Escapes(e[3..], s[1..]))
  }

  lemma DigitValue(c: char, v: nat)
    ensures HexVal(c) == Some(v) <==> IsDigit(c, v)
  {
  }

  lemma HexHasValue(c: char)
    ensures HexVal(c).Some? <==> IsHex(c)
  {
    if HexVal(c).Some? {
      DigitValue(c, HexVal(c).value);
    } else if v :| 0 <= v < 16 && (UPPER_DIGITS[v] == c || LOWER_DIGITS[v] == c) {
      DigitValue(c, v);
    }
  }

  /** A byte is read at the front exactly when one of its printed forms stands there. */
  lemma EscapedByteExactly(e: string, b: char)
    ensures EscapedByte(e) == Some(b) <==> StartsWithEscapeOf(e, b)
    ensures EscapedByte(e).Some? <==> StartsWithEscape(e)
  {
    hide HexVal, IsDigit, IsHex;
    if |e| >= 3 {
      DigitValue(e[1], b as int / 16);
      DigitValue(e[2], b as int % 16);
      HexHasValue(e[1]);
      HexHasValue(e[2]);
    }
  }

  /** Decoding gives exactly the text that was written, whatever escapes were chosen; incomplete escapes
      stand for themselves. */
  lemma {:induction false} UnescapeUndoesEscape(e: string, s: string)
    ensures Unescaped(e) == s <==> Escapes(e, s)
    decreases |s|
  {
    hide EscapedByte, StartsWithEscapeOf, StartsWithEscape;
    EscapeNeedsThree(e);
    if s == "" {
      if e != "" {
        EscapedByteExactly(e, e[0]);
      }
    } else {
      EscapedByteExactly(e, s[0]);
      assert s == [s[0]] + s[1..];
      if EscapedByte(e).Some? {
        UnescapeUndoesEscape(e[3..], s[1..]);
      } else if e != "" {
        UnescapeUndoesEscape(e[1..], s[1..]);
      }
    }
  }

  lemma EncodingIsAscii(b: seq<bv8>)
    ensures AllAscii(Encode(b))
  {
    hide EncodeSextets;
    forall v: Sextet ensures CharOf(v) as int < 0x80 {
      AlphabetIsAscii(v);
    }
  }

  lemma AlphabetIsAscii(v: Sextet)
    ensures CharOf(v) as int < 0x80
  {
  }

  /** The query parameter: escapes first, then base64url. */
  method DecodeParameter(value: string, lossy: Lossy) returns (r: Option<seq<bv8>>)
    requires KeepsAscii(lossy)
    ensures forall b :: r == Some(b) <==> b != [] && Escapes(value, Encode(b))
  {
    hide Encode, AllAscii, Escapes, Unescaped;
    var s := PercentDecode(value, lossy);
    r := DecodeBase64Url(s);
    if r.Some? {
      EncodingIsAscii(r.value);
    }
    forall b ensures r == Some(b) <==> b != [] && Escapes(value, Encode(b)) {
      UnescapeUndoesEscape(value, Encode(b));
      EncodingIsAscii(b);
      if r.Some? && Encode(r.value) == Encode(b) {
        EncodeInjective(r.value, b);
      }
    }
  }
}
