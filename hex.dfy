/** The textual form in which a signature is persisted: the lowercase
    hexadecimal digits of its bytes (what `Buffer.toString("hex")` yields),
    wrapped in double quotes by `JSON.stringify`. */
module Hex {
  import opened Wrappers

  /** One byte of an ArrayBuffer. */
  type byte = x: int | 0 <= x < 256

  predicate IsLowerHexDigit(c: char) {
    '0' <= c <= '9' || 'a' <= c <= 'f'
  }

  /** The lowercase digit for a nibble. */
  function HexDigit(n: int): (c: char)
    requires 0 <= n < 16
    ensures IsLowerHexDigit(c)
    ensures c == "0123456789abcdef"[n]
  {
    if n < 10 then ('0' as int + n) as char else ('a' as int + (n - 10)) as char
  }

  /** The nibble a lowercase digit stands for; the inverse of HexDigit. */
  function DigitValue(c: char): (n: int)
    requires IsLowerHexDigit(c)
    ensures 0 <= n < 16
    ensures HexDigit(n) == c
  {
    if c <= '9' then c as int - '0' as int else c as int - 'a' as int + 10
  }

  /** Two digits per byte, high nibble first. */
  function ToHex(bytes: seq<byte>): (h: string)
    ensures |h| == 2 * |bytes|
    ensures forall i :: 0 <= i < |h| ==> IsLowerHexDigit(h[i])
  {
    if bytes == [] then ""
    else [HexDigit(bytes[0] / 16), HexDigit(bytes[0] % 16)] + ToHex(bytes[1..])
  }

  /** Byte i of the input is written at positions 2i and 2i+1, high nibble first. */
  lemma {:induction false} ToHexAt(bytes: seq<byte>, i: nat)
    requires i < |bytes|
    ensures ToHex(bytes)[2 * i] == HexDigit(bytes[i] / 16)
    ensures ToHex(bytes)[2 * i + 1] == HexDigit(bytes[i] % 16)
  {
    if i > 0 {
      ToHexAt(bytes[1..], i - 1);
    }
  }

  lemma ToHexExample()
    ensures ToHex([0, 9, 10, 171, 255]) == "00090aabff"
  {
  }

  /** Reads back a hex string; None unless it is an even number of lowercase digits. */
  function FromHex(h: string): (r: Option<seq<byte>>)
    ensures r.Some? ==> 2 * |r.value| == |h|
    ensures r.Some? <==> |h| % 2 == 0 && forall i :: 0 <= i < |h| ==> IsLowerHexDigit(h[i])
  {
    if h == [] then Some([])
    else if |h| < 2 || !IsLowerHexDigit(h[0]) || !IsLowerHexDigit(h[1]) then None
    else
      match FromHex(h[2..])
      case None => None
      case Some(rest) => Some([DigitValue(h[0]) * 16 + DigitValue(h[1])] + rest)
  }

  lemma {:induction false} FromHexToHex(bytes: seq<byte>)
    ensures FromHex(ToHex(bytes)) == Some(bytes)
  {
    if bytes != [] {
      var b := bytes[0];
      var h := ToHex(bytes);
      FromHexToHex(bytes[1..]);
      assert h[2..] == ToHex(bytes[1..]);
      assert DigitValue(h[0]) == b / 16 && DigitValue(h[1]) == b % 16;
      assert [b] + bytes[1..] == bytes;
    }
  }

  lemma {:induction false} ToHexFromHex(h: string)
    requires FromHex(h).Some?
    ensures ToHex(FromHex(h).value) == h
  {
    if h != [] {
      var rest := FromHex(h[2..]).value;
      ToHexFromHex(h[2..]);
      var b := DigitValue(h[0]) * 16 + DigitValue(h[1]);
      assert FromHex(h).value == [b] + rest;
      assert b / 16 == DigitValue(h[0]) && b % 16 == DigitValue(h[1]);
      assert ([b] + rest)[1..] == rest;
      assert h == [h[0], h[1]] + h[2..];
    }
  }

  /** What is stored under the "signature" slot for a signature: the JSON
      string literal of its hex form. Hex digits need no JSON escaping. */
  function SignatureText(sig: seq<byte>): (t: string)
    ensures |t| == 2 * |sig| + 2
    ensures t[0] == '"' && t[|t| - 1] == '"'
    ensures forall i :: 0 < i < |t| - 1 ==> IsLowerHexDigit(t[i])
  {
    "\"" + ToHex(sig) + "\""
  }

  /** Reads a stored signature back: a quoted string of lowercase hex digit pairs. */
  function ParseSignatureText(t: string): (r: Option<seq<byte>>)
    ensures r.Some? ==> |t| == 2 * |r.value| + 2
  {
    if 2 <= |t| && t[0] == '"' && t[|t| - 1] == '"' then FromHex(t[1..|t| - 1]) else None
  }

  lemma SignatureTextRoundTrip(sig: seq<byte>)
    ensures ParseSignatureText(SignatureText(sig)) == Some(sig)
  {
    var t := SignatureText(sig);
    assert t[1..|t| - 1] == ToHex(sig);
    FromHexToHex(sig);
  }

  lemma ParseSignatureTextRoundTrip(t: string)
    requires ParseSignatureText(t).Some?
    ensures SignatureText(ParseSignatureText(t).value) == t
  {
    ToHexFromHex(t[1..|t| - 1]);
    assert t == "\"" + t[1..|t| - 1] + "\"";
  }

  lemma SignatureTextInjective(a: seq<byte>, b: seq<byte>)
    requires SignatureText(a) == SignatureText(b)
    ensures a == b
  {
    SignatureTextRoundTrip(a);
    SignatureTextRoundTrip(b);
  }
}
