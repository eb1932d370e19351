/**
 * Base 16 encoding of bytes (section 8 of RFC 4648), as commons-codec's
 * `Hex.decodeHex` reads it: the input must have an even number of
 * characters, each a hexadecimal digit of either letter case; the first
 * offending character is reported by its index.
 */
module Hex {
  import opened Wrappers
  import Text

  newtype byte = x: int | 0 <= x < 256

  /** Why `decodeHex` throws its DecoderException. */
  datatype DecodeError = OddNumberOfCharacters | IllegalCharacter(index: nat)

  /** The value of `c` as a base-16 digit, if it is one. */
  function DigitValue(c: char): (d: Option<nat>)
    ensures d.Some? ==> d.value < 16
  {
    if '0' <= c <= '9' then Some(c as int - '0' as int)
    else if 'a' <= c <= 'f' then Some(c as int - 'a' as int + 10)
    else if 'A' <= c <= 'F' then Some(c as int - 'A' as int + 10)
    else None
  }

  predicate IsHexDigit(c: char) {
    DigitValue(c).Some?
  }

  predicate AllHexDigits(s: string) {
    forall i | 0 <= i < |s| :: IsHexDigit(s[i])
  }

  /** The byte spelled by a high and a low digit. */
  function PairValue(hi: char, lo: char): byte
    requires IsHexDigit(hi) && IsHexDigit(lo)
  {
    (16 * DigitValue(hi).value + DigitValue(lo).value) as byte
  }

  /** `Hex.decodeHex(s.toCharArray())` */
  function Decode(s: string): (r: Result<seq<byte>, DecodeError>)
    ensures r.Success? <==> |s| % 2 == 0 && AllHexDigits(s)
    ensures r.Success? ==> 2 * |r.value| == |s|
    ensures r.Failure? && |s| % 2 == 1 ==> r.error == OddNumberOfCharacters
    ensures r.Failure? && |s| % 2 == 0 ==> FirstIllegal(s, r.error)
  {
    if |s| % 2 == 1 then Failure(OddNumberOfCharacters) else DecodeEven(s)
  }

  /** `e` names the first character of `s` that is not a hexadecimal digit. */
  predicate FirstIllegal(s: string, e: DecodeError) {
    e.IllegalCharacter? && e.index < |s| && !IsHexDigit(s[e.index])
    && forall i | 0 <= i < e.index :: IsHexDigit(s[i])
  }

  /** Decoding after the length check: pairs of digits, left to right. */
  function DecodeEven(s: string): (r: Result<seq<byte>, DecodeError>)
    requires |s| % 2 == 0
    ensures r.Success? <==> AllHexDigits(s)
    ensures r.Success? ==> 2 * |r.value| == |s|
    ensures r.Failure? ==> FirstIllegal(s, r.error)
    decreases |s|
  {
    if s == [] then Success([])
    else if !IsHexDigit(s[0]) then Failure(IllegalCharacter(0))
    else if !IsHexDigit(s[1]) then Failure(IllegalCharacter(1))
    else
      var tail := DecodeEven(s[2..]);
      assert forall i | 2 <= i < |s| :: s[i] == s[2..][i - 2];
      match tail
      case Success(rest) => Success([PairValue(s[0], s[1])] + rest)
      case Failure(e) => Failure(IllegalCharacter(e.index + 2))
  }

  const LowerDigits: string := "0123456789abcdef"

  /** `Hex.encodeHex(bytes)`: two lower-case digits per byte, high digit first. */
  function Encode(b: seq<byte>): (s: string)
    ensures |s| == 2 * |b|
  {
    if b == [] then [] else [LowerDigits[b[0] as int / 16], LowerDigits[b[0] as int % 16]] + Encode(b[1..])
  }

  lemma DigitOfValue(v: nat)
    requires v < 16
    ensures DigitValue(LowerDigits[v]) == Some(v)
  {
  }

  /** Decoding what was encoded gives back the bytes. */
  lemma {:induction false} DecodeEncode(b: seq<byte>)
    ensures Decode(Encode(b)) == Success(b)
  {
    if b != [] {
      var s := Encode(b);
      var v := b[0] as int;
      DigitOfValue(v / 16);
      DigitOfValue(v % 16);
      assert s[2..] == Encode(b[1..]);
      DecodeEncode(b[1..]);
      assert PairValue(s[0], s[1]) == b[0];
      assert b == [b[0]] + b[1..];
    }
  }

  /** `s` with every ASCII capital turned into its small letter. */
  function LowerAll(s: string): (t: string)
    ensures |t| == |s|
    ensures forall i | 0 <= i < |s| :: t[i] == Text.AsciiLower(s[i])
  {
    if s == [] then [] else [Text.AsciiLower(s[0])] + LowerAll(s[1..])
  }

  lemma DigitSpelling(c: char)
    requires IsHexDigit(c)
    ensures LowerDigits[DigitValue(c).value] == Text.AsciiLower(c)
  {
  }

  /** Encoding what was decoded gives back the input, spelled in small letters. */
  lemma {:induction false} EncodeDecode(s: string)
    requires Decode(s).Success?
    ensures Encode(Decode(s).value) == LowerAll(s)
  {
    if s != [] {
      var b := Decode(s).value;
      assert forall i | 0 <= i < |s[2..]| :: s[2..][i] == s[i + 2];
      assert Decode(s[2..]).Success?;
      EncodeDecode(s[2..]);
      DigitSpelling(s[0]);
      DigitSpelling(s[1]);
      var v := PairValue(s[0], s[1]) as int;
      assert v / 16 == DigitValue(s[0]).value && v % 16 == DigitValue(s[1]).value;
      assert b[1..] == Decode(s[2..]).value;
      assert LowerAll(s) == [Text.AsciiLower(s[0]), Text.AsciiLower(s[1])] + LowerAll(s[2..]);
    }
  }
}
