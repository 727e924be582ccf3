/**
 Name escaping (pkg/common/utils.go) on bytes: `url.PathEscape` followed by a
 chain of replacements, and percent-decoding as in section 2.1 of RFC 3986.
 */
module Escape {
  import opened Options

  newtype byte = x: int | 0 <= x < 256

  type Bytes = seq<byte>

  const SLASH: byte := 0x2F
  const PERCENT: byte := 0x25
  const PLUS: byte := 0x2B
  const HYPHEN: byte := 0x2D
  const PERIOD: byte := 0x2E
  const UNDERSCORE: byte := 0x5F
  const TILDE: byte := 0x7E

  predicate IsAlphanumeric(b: byte) {
    0x30 <= b <= 0x39 || 0x41 <= b <= 0x5A || 0x61 <= b <= 0x7A
  }

  function UpperHex(n: byte): (digit: byte)
    requires n < 16
  {
    if n < 10 then 0x30 + n else 0x41 + (n - 10)
  }

  function PercentEncoded(b: byte): Bytes {
    [PERCENT, UpperHex(b / 16), UpperHex(b % 16)]
  }

  // ---------------------------------------------------------------- the chain

  /** Kept by `url.PathEscape`: alphanumerics, `-_.~` and `$&+=:@`. */
  predicate KeptInPath(b: byte) {
    IsAlphanumeric(b) || b in {HYPHEN, UNDERSCORE, PERIOD, TILDE, 0x24, 0x26, PLUS, 0x3D, 0x3A, 0x40}
  }

  function PathEscape(s: Bytes): Bytes {
    if s == [] then []
    else (if KeptInPath(s[0]) then [s[0]] else PercentEncoded(s[0])) + PathEscape(s[1..])
  }

  /** Every occurrence of a byte replaced. */
  function Replace(s: Bytes, b: byte, replacement: Bytes): Bytes {
    if s == [] then []
    else (if s[0] == b then replacement else [s[0]]) + Replace(s[1..], b, replacement)
  }

  function ReplaceReserved(s: Bytes): Bytes {
    var res := Replace(s, PLUS, [PERCENT, 0x32, 0x42]);
    var res := Replace(res, HYPHEN, [PERCENT, 0x32, 0x44]);
    var res := Replace(res, PERIOD, [PERCENT, 0x32, 0x45]);
    var res := Replace(res, UNDERSCORE, [PERCENT, 0x35, 0x46]);
    Replace(res, TILDE, [PERCENT, 0x37, 0x45])
  }

  function URLEncode(s: Bytes): Bytes {
    ReplaceReserved(PathEscape(s))
  }

  // ---------------------------------------------------- the per-byte encoder

  /** What is left unescaped in the end. */
  predicate Kept(b: byte) {
    IsAlphanumeric(b) || b in {0x24, 0x26, 0x3D, 0x3A, 0x40}
  }

  function EncodeByte(b: byte): Bytes {
    if Kept(b) then [b] else PercentEncoded(b)
  }

  function Encode(s: Bytes): Bytes {
    if s == [] then [] else EncodeByte(s[0]) + Encode(s[1..])
  }

  lemma Associative(s: Bytes, t: Bytes, u: Bytes)
    ensures s + (t + u) == s + t + u
  {
  }

  lemma {:induction false} ReplaceConcat(s: Bytes, t: Bytes, b: byte, replacement: Bytes)
    ensures Replace(s + t, b, replacement) == Replace(s, b, replacement) + Replace(t, b, replacement)
  {
    if s == [] {
      assert s + t == t;
    } else {
      ReplaceConcat(s[1..], t, b, replacement);
      var first := if s[0] == b then replacement else [s[0]];
      calc {
        Replace(s + t, b, replacement);
        { assert (s + t)[0] == s[0] && (s + t)[1..] == s[1..] + t; }
        first + Replace(s[1..] + t, b, replacement);
        first + (Replace(s[1..], b, replacement) + Replace(t, b, replacement));
        { Associative(first, Replace(s[1..], b, replacement), Replace(t, b, replacement)); }
        Replace(s, b, replacement) + Replace(t, b, replacement);
      }
    }
  }

  lemma ReplaceReservedConcat(s: Bytes, t: Bytes)
    ensures ReplaceReserved(s + t) == ReplaceReserved(s) + ReplaceReserved(t)
  {
    ReplaceConcat(s, t, PLUS, [PERCENT, 0x32, 0x42]);
    var s1, t1 := Replace(s, PLUS, [PERCENT, 0x32, 0x42]), Replace(t, PLUS, [PERCENT, 0x32, 0x42]);
    ReplaceConcat(s1, t1, HYPHEN, [PERCENT, 0x32, 0x44]);
    var s2, t2 := Replace(s1, HYPHEN, [PERCENT, 0x32, 0x44]), Replace(t1, HYPHEN, [PERCENT, 0x32, 0x44]);
    ReplaceConcat(s2, t2, PERIOD, [PERCENT, 0x32, 0x45]);
    var s3, t3 := Replace(s2, PERIOD, [PERCENT, 0x32, 0x45]), Replace(t2, PERIOD, [PERCENT, 0x32, 0x45]);
    ReplaceConcat(s3, t3, UNDERSCORE, [PERCENT, 0x35, 0x46]);
    var s4, t4 := Replace(s3, UNDERSCORE, [PERCENT, 0x35, 0x46]), Replace(t3, UNDERSCORE, [PERCENT, 0x35, 0x46]);
    ReplaceConcat(s4, t4, TILDE, [PERCENT, 0x37, 0x45]);
  }

  lemma {:induction false} ReplaceNothing(s: Bytes, b: byte, replacement: Bytes)
    requires b !in s
    ensures Replace(s, b, replacement) == s
  {
    if s != [] {
      ReplaceNothing(s[1..], b, replacement);
    }
  }

  lemma ReplaceSingle(b: byte, replacement: Bytes)
    ensures Replace([b], b, replacement) == replacement
  {
    assert replacement + [] == replacement;
  }

  predicate IsReserved(b: byte) {
    b in {PLUS, HYPHEN, PERIOD, UNDERSCORE, TILDE}
  }

  lemma ReplaceReservedNothing(s: Bytes)
    requires forall b :: b in s ==> !IsReserved(b)
    ensures ReplaceReserved(s) == s
  {
    ReplaceNothing(s, PLUS, [PERCENT, 0x32, 0x42]);
    ReplaceNothing(s, HYPHEN, [PERCENT, 0x32, 0x44]);
    ReplaceNothing(s, PERIOD, [PERCENT, 0x32, 0x45]);
    ReplaceNothing(s, UNDERSCORE, [PERCENT, 0x35, 0x46]);
    ReplaceNothing(s, TILDE, [PERCENT, 0x37, 0x45]);
  }

  lemma CodeIsUnreserved(b: byte)
    ensures forall c :: c in PercentEncoded(b) ==> !IsReserved(c)
  {
  }

  /** A reserved byte is left alone until its own replacement, and its code by those that follow. */
  lemma ChainOnReserved(b: byte)
    requires IsReserved(b)
    ensures ReplaceReserved([b]) == PercentEncoded(b)
  {
    var code := PercentEncoded(b);
    CodeIsUnreserved(b);
    ReplaceSingle(b, code);
    if b == TILDE { ReplaceNothing([b], UNDERSCORE, [PERCENT, 0x35, 0x46]); }
    else { ReplaceNothing(code, TILDE, [PERCENT, 0x37, 0x45]); }
    if b in {UNDERSCORE, TILDE} { ReplaceNothing([b], PERIOD, [PERCENT, 0x32, 0x45]); }
    else { ReplaceNothing(code, UNDERSCORE, [PERCENT, 0x35, 0x46]); }
    if b in {PERIOD, UNDERSCORE, TILDE} { ReplaceNothing([b], HYPHEN, [PERCENT, 0x32, 0x44]); }
    else { ReplaceNothing(code, PERIOD, [PERCENT, 0x32, 0x45]); }
    if b == PLUS { ReplaceNothing(code, HYPHEN, [PERCENT, 0x32, 0x44]); }
    else { ReplaceNothing([b], PLUS, [PERCENT, 0x32, 0x42]); }
  }

  /** One byte through `PathEscape` and the chain comes out as the encoder has it. */
  lemma ChainOnByte(b: byte)
    ensures ReplaceReserved(if KeptInPath(b) then [b] else PercentEncoded(b)) == EncodeByte(b)
  {
    if IsReserved(b) {
      ChainOnReserved(b);
    } else if KeptInPath(b) {
      ReplaceReservedNothing([b]);
    } else {
      CodeIsUnreserved(b);
      ReplaceReservedNothing(PercentEncoded(b));
    }
  }

  /** The chain of replacements is a byte-by-byte encoding. */
  lemma {:induction false} ChainIsEncoder(s: Bytes)
    ensures URLEncode(s) == Encode(s)
  {
    if s == [] {
      ReplaceReservedNothing([]);
    } else {
      var first := if KeptInPath(s[0]) then [s[0]] else PercentEncoded(s[0]);
      ReplaceReservedConcat(first, PathEscape(s[1..]));
      ChainOnByte(s[0]);
      ChainIsEncoder(s[1..]);
    }
  }

  // ------------------------------------------------- what is left alone

  /** The digits 0 to 9 and A to F. */
  const DIGITS: Bytes :=
    [0x30, 0x31, 0x32, 0x33, 0x34, 0x35, 0x36, 0x37, 0x38, 0x39, 0x41, 0x42, 0x43, 0x44, 0x45, 0x46]

  /** Digits, letters and `$&=:@` stay; any other byte becomes `%` and two upper-case hexadecimal digits. */
  lemma EscapeOfByte(b: byte)
    ensures URLEncode([b]) ==
            if 0x30 <= b <= 0x39 || 0x41 <= b <= 0x5A || 0x61 <= b <= 0x7A || b in {0x24, 0x26, 0x3D, 0x3A, 0x40}
            then [b] else [0x25, DIGITS[b / 16], DIGITS[b % 16]]
  {
    ChainIsEncoder([b]);
    assert Encode([b]) == EncodeByte(b) + [];
    DigitIsHex(b / 16);
    DigitIsHex(b % 16);
  }

  lemma DigitIsHex(n: byte)
    requires n < 16
    ensures DIGITS[n] == UpperHex(n)
  {
  }

  lemma {:induction false} EncodeConcat(s: Bytes, t: Bytes)
    ensures Encode(s + t) == Encode(s) + Encode(t)
  {
    if s == [] {
      assert s + t == t;
    } else {
      EncodeConcat(s[1..], t);
      assert (s + t)[1..] == s[1..] + t;
    }
  }

  /** Escaping goes byte by byte. */
  lemma EscapeOfConcat(s: Bytes, t: Bytes)
    ensures URLEncode(s + t) == URLEncode(s) + URLEncode(t)
  {
    ChainIsEncoder(s + t);
    ChainIsEncoder(s);
    ChainIsEncoder(t);
    EncodeConcat(s, t);
  }

  lemma {:induction false} EscapedLength(s: Bytes)
    ensures |URLEncode(s)| >= |s|
    ensures URLEncode(s) == s <==> |URLEncode(s)| == |s|
    ensures |URLEncode(s)| == |s| <==> forall b :: b in s ==> |URLEncode([b])| == 1
  {
    if s == [] {
      ChainIsEncoder([]);
    } else {
      EscapedLength(s[1..]);
      EscapeOfByte(s[0]);
      EscapeOfConcat([s[0]], s[1..]);
      assert s == [s[0]] + s[1..];
    }
  }

  /** A name is its own escape exactly if it consists of digits, letters and `$&=:@`. */
  lemma SelfEscapes(s: Bytes)
    ensures URLEncode(s) == s <==>
            forall b :: b in s ==>
              0x30 <= b <= 0x39 || 0x41 <= b <= 0x5A || 0x61 <= b <= 0x7A || b in {0x24, 0x26, 0x3D, 0x3A, 0x40}
  {
    EscapedLength(s);
    forall b | b in s
      ensures |URLEncode([b])| == 1 <==>
              0x30 <= b <= 0x39 || 0x41 <= b <= 0x5A || 0x61 <= b <= 0x7A || b in {0x24, 0x26, 0x3D, 0x3A, 0x40}
    {
      EscapeOfByte(b);
    }
  }

  // ------------------------------------------------------------- the inverse

  function HexValue(digit: byte): Option<byte> {
    if 0x30 <= digit <= 0x39 then Some(digit - 0x30)
    else if 0x41 <= digit <= 0x46 then Some(digit - 0x41 + 10)
    else if 0x61 <= digit <= 0x66 then Some(digit - 0x61 + 10)
    else None
  }

  /** Percent-decoding; fails at a `%` that two hexadecimal digits do not follow. */
  function Decode(s: Bytes): Option<Bytes> {
    if s == [] then Some([])
    else if s[0] != PERCENT then
      match Decode(s[1..])
      case Some(rest) => Some([s[0]] + rest)
      case None => None
    else if |s| < 3 || HexValue(s[1]).None? || HexValue(s[2]).None? then None
    else
      var b := (16 * (HexValue(s[1]).value as int) + (HexValue(s[2]).value as int)) as byte;
      match Decode(s[3..])
      case Some(rest) => Some([b] + rest)
      case None => None
  }

  lemma HexDigits(b: byte)
    ensures HexValue(UpperHex(b / 16)) == Some(b / 16)
    ensures HexValue(UpperHex(b % 16)) == Some(b % 16)
    ensures 16 * ((b / 16) as int) + ((b % 16) as int) == b as int
  {
  }

  lemma DecodeEscape(high: byte, low: byte, s: Bytes)
    requires HexValue(high).Some? && HexValue(low).Some? && Decode(s).Some?
    ensures var b := (16 * (HexValue(high).value as int) + (HexValue(low).value as int)) as byte;
            Decode([PERCENT, high, low] + s) == Some([b] + Decode(s).value)
  {
    var code := [PERCENT, high, low] + s;
    assert code[3..] == s;
  }

  lemma DecodeFirst(b: byte, s: Bytes)
    requires Decode(s).Some?
    ensures Decode(EncodeByte(b) + s) == Some([b] + Decode(s).value)
  {
    if Kept(b) {
      assert ([b] + s)[1..] == s;
    } else {
      HexDigits(b);
      DecodeEscape(UpperHex(b / 16), UpperHex(b % 16), s);
    }
  }

  lemma {:induction false} DecodeEncode(s: Bytes)
    ensures Decode(Encode(s)) == Some(s)
  {
    if s != [] {
      DecodeEncode(s[1..]);
      DecodeFirst(s[0], Encode(s[1..]));
      assert [s[0]] + s[1..] == s;
    }
  }

  /** Escaping loses nothing: decoding the output gives back every input. */
  lemma EscapingIsInvertible(s: Bytes)
    ensures Decode(URLEncode(s)) == Some(s)
  {
    ChainIsEncoder(s);
    DecodeEncode(s);
  }

  lemma EscapingIsInjective(s: Bytes, t: Bytes)
    requires URLEncode(s) == URLEncode(t)
    ensures s == t
  {
    EscapingIsInvertible(s);
    EscapingIsInvertible(t);
  }

  lemma {:induction false} EncodedAlphabet(s: Bytes)
    ensures forall b :: b in Encode(s) ==> Kept(b) || b == PERCENT
  {
    if s != [] {
      EncodedAlphabet(s[1..]);
    }
  }

  /** No byte with a meaning in paths or topics is left in an escaped name. */
  lemma EscapedNamesAreClean(s: Bytes)
    ensures SLASH !in URLEncode(s)
    ensures forall b :: b in URLEncode(s) ==> b !in {0x2B, 0x2D, 0x2E, 0x2F, 0x5F, 0x7E}
  {
    ChainIsEncoder(s);
    EncodedAlphabet(s);
  }
}
