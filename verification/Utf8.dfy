/** UTF-8: the encoding of RFC 3629, and the lexer terms that recognise it. */
module Utf8 {
  import opened Combinators
  import opened Common

  /** A Unicode scalar value: any code point but the surrogates. */
  predicate Scalar(cp: int) {
    0 <= cp < 0xD800 || 0xE000 <= cp < 0x110000
  }

  /** Section 3 of RFC 3629. */
  function Encode(cp: int): (e: seq<Byte>)
    requires Scalar(cp)
    ensures 1 <= |e| <= 4
  {
    if cp < 0x80 then [cp]
    else if cp < 0x800 then [0xC0 + cp / 0x40, 0x80 + cp % 0x40]
    else if cp < 0x10000 then [0xE0 + cp / 0x1000, 0x80 + cp / 0x40 % 0x40, 0x80 + cp % 0x40]
    else [0xF0 + cp / 0x40000, 0x80 + cp / 0x1000 % 0x40, 0x80 + cp / 0x40 % 0x40, 0x80 + cp % 0x40]
  }

  function EncodeAll(cps: seq<int>): seq<Byte>
    requires forall i :: 0 <= i < |cps| ==> Scalar(cps[i])
  {
    if |cps| == 0 then [] else Encode(cps[0]) + EncodeAll(cps[1..])
  }

  /** The bytes are the encoding of some sequence of scalar values. */
  ghost predicate ValidUtf8(s: seq<Byte>) {
    exists cps: seq<int> :: (forall i :: 0 <= i < |cps| ==> Scalar(cps[i])) && EncodeAll(cps) == s
  }

  // ----- lexer.hpp, lines 262 to 289 -----

  const TAIL := InRange(0x80, 0xBF)
  const LEX_UTF8_ONE_BYTE := InRange(0x00, 0x7F)
  const LEX_UTF8_TWO_BYTE := Sequence(InRange(0xC2, 0xDF), TAIL)
  const THREE_BYTE_E0 := Sequence(Character(0xE0), InRange(0xA0, 0xBF))
  const THREE_BYTE_E1 := Sequence(InRange(0xE1, 0xEC), TAIL)
  const THREE_BYTE_ED := Sequence(Character(0xED), InRange(0x80, 0x9F))
  const THREE_BYTE_EE := Sequence(InRange(0xEE, 0xEF), TAIL)
  const THREE_BYTE_FROM_ED := Either(THREE_BYTE_ED, THREE_BYTE_EE)
  const THREE_BYTE_FROM_E1 := Either(THREE_BYTE_E1, THREE_BYTE_FROM_ED)
  const THREE_BYTE_PREFIX := Either(THREE_BYTE_E0, THREE_BYTE_FROM_E1)
  const LEX_UTF8_THREE_BYTE := Sequence(THREE_BYTE_PREFIX, TAIL)
  const FOUR_BYTE_F0 := Sequence(Character(0xF0), InRange(0x90, 0xBF))
  const FOUR_BYTE_F1 := Sequence(InRange(0xF1, 0xF3), TAIL)
  const FOUR_BYTE_F4 := Sequence(Character(0xF4), InRange(0x80, 0x8F))
  const FOUR_BYTE_FROM_F1 := Either(FOUR_BYTE_F1, FOUR_BYTE_F4)
  const FOUR_BYTE_PREFIX := Either(FOUR_BYTE_F0, FOUR_BYTE_FROM_F1)
  const LEX_UTF8_FOUR_BYTE := Sequence(FOUR_BYTE_PREFIX, Sequence(TAIL, TAIL))
  const LEX_UTF8_CODE :=
    Either(LEX_UTF8_ONE_BYTE, Either(LEX_UTF8_TWO_BYTE, Either(LEX_UTF8_THREE_BYTE, LEX_UTF8_FOUR_BYTE)))

  predicate IsTail(b: Byte) { 0x80 <= b <= 0xBF }

  predicate IsTwo(a: Byte, b: Byte) { 0xC2 <= a <= 0xDF && IsTail(b) }

  predicate IsThreePrefix(a: Byte, b: Byte) {
    || (a == 0xE0 && 0xA0 <= b <= 0xBF)
    || (0xE1 <= a <= 0xEC && IsTail(b))
    || (a == 0xED && 0x80 <= b <= 0x9F)
    || (0xEE <= a <= 0xEF && IsTail(b))
  }

  predicate IsFourPrefix(a: Byte, b: Byte) {
    || (a == 0xF0 && 0x90 <= b <= 0xBF)
    || (0xF1 <= a <= 0xF3 && IsTail(b))
    || (a == 0xF4 && 0x80 <= b <= 0x8F)
  }

  /** How many bytes of s from p form one encoded scalar value; 0 if none do. */
  function CodeLength(s: seq<Byte>, p: nat): (n: nat)
    requires p <= |s|
    ensures p + n <= |s|
  {
    if p + 1 <= |s| && s[p] <= 0x7F then 1
    else if p + 2 <= |s| && IsTwo(s[p], s[p + 1]) then 2
    else if p + 3 <= |s| && IsThreePrefix(s[p], s[p + 1]) && IsTail(s[p + 2]) then 3
    else if p + 4 <= |s| && IsFourPrefix(s[p], s[p + 1]) && IsTail(s[p + 2]) && IsTail(s[p + 3]) then 4
    else 0
  }

  /** Two bytes, each in its range. */
  lemma RangesMatch(lo: Byte, up: Byte, low: Byte, high: Byte, s: seq<Byte>, p: nat)
    requires p <= |s|
    ensures Productive(Sequence(InRange(lo, up), InRange(low, high)))
    ensures !Nullable(Sequence(InRange(lo, up), InRange(low, high)))
    ensures Match(Sequence(InRange(lo, up), InRange(low, high)), s, p) ==
      if p + 2 <= |s| && lo <= s[p] <= up && low <= s[p + 1] <= high then Some(p + 2) else None
  {
  }

  /** A given byte, then one in a range. */
  lemma ByteAndRangeMatch(c: Byte, low: Byte, high: Byte, s: seq<Byte>, p: nat)
    requires p <= |s|
    ensures Productive(Sequence(Character(c), InRange(low, high)))
    ensures !Nullable(Sequence(Character(c), InRange(low, high)))
    ensures Match(Sequence(Character(c), InRange(low, high)), s, p) ==
      if p + 2 <= |s| && s[p] == c && low <= s[p + 1] <= high then Some(p + 2) else None
  {
  }

  lemma ThreePrefixMatch(s: seq<Byte>, p: nat)
    requires p <= |s|
    ensures Productive(THREE_BYTE_PREFIX) && !Nullable(THREE_BYTE_PREFIX)
    ensures Match(THREE_BYTE_PREFIX, s, p)
         == if p + 2 <= |s| && IsThreePrefix(s[p], s[p + 1]) then Some(p + 2) else None
  {
    hide Match, MatchMany, MatchTimes, Productive, Nullable;
    ByteAndRangeMatch(0xE0, 0xA0, 0xBF, s, p);
    RangesMatch(0xE1, 0xEC, 0x80, 0xBF, s, p);
    ByteAndRangeMatch(0xED, 0x80, 0x9F, s, p);
    RangesMatch(0xEE, 0xEF, 0x80, 0xBF, s, p);
    EitherMatch(THREE_BYTE_ED, THREE_BYTE_EE, s, p);
    EitherMatch(THREE_BYTE_E1, THREE_BYTE_FROM_ED, s, p);
    EitherMatch(THREE_BYTE_E0, THREE_BYTE_FROM_E1, s, p);
  }

  lemma FourPrefixMatch(s: seq<Byte>, p: nat)
    requires p <= |s|
    ensures Productive(FOUR_BYTE_PREFIX) && !Nullable(FOUR_BYTE_PREFIX)
    ensures Match(FOUR_BYTE_PREFIX, s, p) == if p + 2 <= |s| && IsFourPrefix(s[p], s[p + 1]) then Some(p + 2) else None
  {
    hide Match, MatchMany, MatchTimes, Productive, Nullable;
    ByteAndRangeMatch(0xF0, 0x90, 0xBF, s, p);
    RangesMatch(0xF1, 0xF3, 0x80, 0xBF, s, p);
    ByteAndRangeMatch(0xF4, 0x80, 0x8F, s, p);
    EitherMatch(FOUR_BYTE_F1, FOUR_BYTE_F4, s, p);
    EitherMatch(FOUR_BYTE_F0, FOUR_BYTE_FROM_F1, s, p);
  }

  lemma ThreeByteMatch(s: seq<Byte>, p: nat)
    requires p <= |s|
    ensures Productive(LEX_UTF8_THREE_BYTE) && !Nullable(LEX_UTF8_THREE_BYTE)
    ensures Match(LEX_UTF8_THREE_BYTE, s, p) ==
      if p + 3 <= |s| && IsThreePrefix(s[p], s[p + 1]) && IsTail(s[p + 2]) then Some(p + 3) else None
  {
    hide Match, MatchMany, MatchTimes, Productive, Nullable, IsThreePrefix;
    ThreePrefixMatch(s, p);
    LeavesProductive();
    SequenceMatch(THREE_BYTE_PREFIX, TAIL, s, p);
    if p + 2 <= |s| {
      LeavesMatch(s, p + 2);
    }
  }

  lemma FourByteMatch(s: seq<Byte>, p: nat)
    requires p <= |s|
    ensures Productive(LEX_UTF8_FOUR_BYTE) && !Nullable(LEX_UTF8_FOUR_BYTE)
    ensures Match(LEX_UTF8_FOUR_BYTE, s, p) ==
      if p + 4 <= |s| && IsFourPrefix(s[p], s[p + 1]) && IsTail(s[p + 2]) && IsTail(s[p + 3]) then Some(p + 4) else None
  {
    hide Match, MatchMany, MatchTimes, Productive, Nullable, IsFourPrefix;
    FourPrefixMatch(s, p);
    RangesMatch(0x80, 0xBF, 0x80, 0xBF, s, p);
    SequenceMatch(FOUR_BYTE_PREFIX, Sequence(TAIL, TAIL), s, p);
    if p + 2 <= |s| {
      RangesMatch(0x80, 0xBF, 0x80, 0xBF, s, p + 2);
    }
  }

  /** The lexer term accepts exactly one encoded scalar value at a time. */
  lemma CodeMatch(s: seq<Byte>, p: nat)
    requires p <= |s|
    ensures Productive(LEX_UTF8_CODE) && !Nullable(LEX_UTF8_CODE)
    ensures Match(LEX_UTF8_CODE, s, p) == if CodeLength(s, p) == 0 then None else Some(p + CodeLength(s, p))
  {
    hide Match, MatchMany, MatchTimes, Productive, Nullable, IsThreePrefix, IsFourPrefix;
    LeavesMatch(s, p);
    RangesMatch(0xC2, 0xDF, 0x80, 0xBF, s, p);
    ThreeByteMatch(s, p);
    FourByteMatch(s, p);
    EitherMatch(LEX_UTF8_THREE_BYTE, LEX_UTF8_FOUR_BYTE, s, p);
    EitherMatch(LEX_UTF8_TWO_BYTE, Either(LEX_UTF8_THREE_BYTE, LEX_UTF8_FOUR_BYTE), s, p);
    EitherMatch(LEX_UTF8_ONE_BYTE, Either(LEX_UTF8_TWO_BYTE, Either(LEX_UTF8_THREE_BYTE, LEX_UTF8_FOUR_BYTE)), s, p);
  }

  /** s splits into encoded scalar values from p on. */
  predicate WellCoded(s: seq<Byte>, p: nat)
    requires p <= |s|
    decreases |s| - p
  {
    p == |s| || (CodeLength(s, p) > 0 && WellCoded(s, p + CodeLength(s, p)))
  }

  lemma {:induction false} WellCodedMatch(s: seq<Byte>, p: nat)
    requires p <= |s|
    ensures Productive(LEX_UTF8_CODE) && !Nullable(LEX_UTF8_CODE)
    ensures MatchMany(LEX_UTF8_CODE, s, p) == |s| <==> WellCoded(s, p)
    decreases |s| - p
  {
    hide Match, MatchMany, Productive, Nullable, CodeLength;
    CodeMatch(s, p);
    UnlimitedMatch(LEX_UTF8_CODE, s, p);
    if CodeLength(s, p) > 0 {
      WellCodedMatch(s, p + CodeLength(s, p));
    }
  }

  /** The bits a leading byte contributes. */
  function LeadBits(b: Byte): int {
    if b < 0x80 then b else if b < 0xE0 then b - 0xC0 else if b < 0xF0 then b - 0xE0 else b - 0xF0
  }

  /** The bits of a sequence of bytes, six of them from each byte after the first. */
  function Bits(e: seq<Byte>): int
    requires e != []
  {
    if |e| == 1 then LeadBits(e[0]) else Bits(e[..|e| - 1]) * 0x40 + e[|e| - 1] - 0x80
  }

  lemma BitsMore(e: seq<Byte>, b: Byte)
    requires e != []
    ensures Bits(e + [b]) == Bits(e) * 0x40 + b - 0x80
  {
    assert (e + [b])[..|e|] == e;
  }

  lemma BitsOf(a: Byte, b: Byte, c: Byte, d: Byte)
    ensures Bits([a]) == LeadBits(a) && Bits([a, b]) == LeadBits(a) * 0x40 + b - 0x80
    ensures Bits([a, b, c]) == (LeadBits(a) * 0x40 + b - 0x80) * 0x40 + c - 0x80
    ensures Bits([a, b, c, d]) == ((LeadBits(a) * 0x40 + b - 0x80) * 0x40 + c - 0x80) * 0x40 + d - 0x80
  {
    BitsMore([a], b);
    assert [a] + [b] == [a, b];
    BitsMore([a, b], c);
    assert [a, b] + [c] == [a, b, c];
    BitsMore([a, b, c], d);
    assert [a, b, c] + [d] == [a, b, c, d];
  }

  lemma SixBitDigits(cp: nat)
    ensures cp / 0x40 * 0x40 + cp % 0x40 == cp
    ensures (cp / 0x1000 * 0x40 + cp / 0x40 % 0x40) * 0x40 + cp % 0x40 == cp
    ensures ((cp / 0x40000 * 0x40 + cp / 0x1000 % 0x40) * 0x40 + cp / 0x40 % 0x40) * 0x40 + cp % 0x40 == cp
  {
    assert cp / 0x1000 == cp / 0x40 / 0x40 && cp / 0x40000 == cp / 0x1000 / 0x40;
  }

  /** Reading the bits of an encoding back gives the code point, and no shorter form would hold it. */
  lemma EncodeRead(cp: int)
    requires Scalar(cp)
    ensures Bits(Encode(cp)) == cp
    ensures |Encode(cp)| == if cp < 0x80 then 1 else if cp < 0x800 then 2 else if cp < 0x10000 then 3 else 4
  {
    hide Bits;
    SixBitDigits(cp);
    var e := Encode(cp);
    if |e| == 1 {
      BitsOf(e[0], 0, 0, 0);
    } else if |e| == 2 {
      BitsOf(e[0], e[1], 0, 0);
    } else if |e| == 3 {
      BitsOf(e[0], e[1], e[2], 0);
    } else {
      BitsOf(e[0], e[1], e[2], e[3]);
    }
  }

  /** An encoding has the shape the lexer looks for. */
  lemma EncodeShape(cp: int)
    requires Scalar(cp)
    ensures CodeLength(Encode(cp), 0) == |Encode(cp)|
  {
    if cp >= 0x10000 {
      EncodeShapeFour(cp);
    } else if cp >= 0x800 {
      EncodeShapeThree(cp);
    }
  }

  lemma EncodeShapeThree(cp: int)
    requires Scalar(cp) && 0x800 <= cp < 0x10000
    ensures CodeLength(Encode(cp), 0) == |Encode(cp)|
  {
    var e := Encode(cp);
    assert e[0] == 0xE0 ==> e[1] >= 0xA0;
    assert e[0] == 0xED ==> e[1] <= 0x9F;
  }

  lemma EncodeShapeFour(cp: int)
    requires 0x10000 <= cp < 0x110000
    ensures CodeLength(Encode(cp), 0) == |Encode(cp)|
  {
    var e := Encode(cp);
    assert 0xF0 <= e[0] <= 0xF4;
    assert e[0] == 0xF0 ==> e[1] >= 0x90;
    assert e[0] == 0xF4 ==> e[1] <= 0x8F;
  }

  lemma CodeLengthLocal(s: seq<Byte>, p: nat, e: seq<Byte>)
    requires p + |e| <= |s| && s[p..p + |e|] == e && CodeLength(e, 0) == |e| > 0
    ensures CodeLength(s, p) == |e|
  {
    assert forall k :: 0 <= k < |e| ==> s[p + k] == e[k];
  }

  lemma EncodedLength(s: seq<Byte>, p: nat, cp: int)
    requires Scalar(cp) && p + |Encode(cp)| <= |s| && s[p..p + |Encode(cp)|] == Encode(cp)
    ensures CodeLength(s, p) == |Encode(cp)|
  {
    EncodeShape(cp);
    CodeLengthLocal(s, p, Encode(cp));
  }

  lemma DecodeTwo(a: int, b: int)
    requires 0xC2 <= a <= 0xDF && 0x80 <= b <= 0xBF
    ensures var cp := (a - 0xC0) * 0x40 + (b - 0x80); Scalar(cp) && Encode(cp) == [a, b]
  {
  }

  lemma DecodeThree(a: int, b: int, c: int)
    requires 0xE0 <= a <= 0xEF && 0x80 <= b <= 0xBF && 0x80 <= c <= 0xBF
    requires (a == 0xE0 ==> b >= 0xA0) && (a == 0xED ==> b <= 0x9F)
    ensures var cp := (a - 0xE0) * 0x1000 + (b - 0x80) * 0x40 + (c - 0x80); Scalar(cp) && Encode(cp) == [a, b, c]
  {
    var cp := (a - 0xE0) * 0x1000 + (b - 0x80) * 0x40 + (c - 0x80);
    assert cp / 0x1000 == a - 0xE0;
    assert cp / 0x40 == (a - 0xE0) * 0x40 + (b - 0x80);
    assert 0x800 <= cp < 0x10000;
  }

  lemma DecodeFour(a: int, b: int, c: int, d: int)
    requires 0xF0 <= a <= 0xF4 && 0x80 <= b <= 0xBF && 0x80 <= c <= 0xBF && 0x80 <= d <= 0xBF
    requires (a == 0xF0 ==> b >= 0x90) && (a == 0xF4 ==> b <= 0x8F)
    ensures var cp := (a - 0xF0) * 0x40000 + (b - 0x80) * 0x1000 + (c - 0x80) * 0x40 + (d - 0x80);
      Scalar(cp) && Encode(cp) == [a, b, c, d]
  {
    var cp := (a - 0xF0) * 0x40000 + (b - 0x80) * 0x1000 + (c - 0x80) * 0x40 + (d - 0x80);
    assert cp / 0x40000 == a - 0xF0;
    assert cp / 0x1000 == (a - 0xF0) * 0x40 + (b - 0x80);
    assert cp / 0x40 == (a - 0xF0) * 0x1000 + (b - 0x80) * 0x40 + (c - 0x80);
    assert 0x10000 <= cp < 0x110000;
  }

  lemma DecodedScalar(s: seq<Byte>, p: nat) returns (cp: int)
    requires p <= |s| && CodeLength(s, p) > 0
    ensures Scalar(cp) && Encode(cp) == s[p..p + CodeLength(s, p)]
  {
    hide Encode;
    var n := CodeLength(s, p);
    var a: int := s[p];
    if n == 1 {
      cp := a;
      EncodeAscii(cp);
      assert s[p..p + 1] == [a];
    } else {
      var b: int := s[p + 1];
      if n == 2 {
        cp := (a - 0xC0) * 0x40 + (b - 0x80);
        DecodeTwo(a, b);
        assert s[p..p + 2] == [a, b];
      } else {
        var c: int := s[p + 2];
        if n == 3 {
          cp := (a - 0xE0) * 0x1000 + (b - 0x80) * 0x40 + (c - 0x80);
          DecodeThree(a, b, c);
          assert s[p..p + 3] == [a, b, c];
        } else {
          var d: int := s[p + 3];
          cp := (a - 0xF0) * 0x40000 + (b - 0x80) * 0x1000 + (c - 0x80) * 0x40 + (d - 0x80);
          DecodeFour(a, b, c, d);
          assert s[p..p + 4] == [a, b, c, d];
        }
      }
    }
  }

  lemma EncodeAscii(cp: int)
    requires 0 <= cp < 0x80
    ensures Encode(cp) == [cp]
  {
  }

  lemma {:induction false} EncodedIsWellCoded(s: seq<Byte>, p: nat, cps: seq<int>)
    requires p <= |s| && (forall i :: 0 <= i < |cps| ==> Scalar(cps[i])) && EncodeAll(cps) == s[p..]
    ensures WellCoded(s, p)
    decreases |cps|
  {
    hide Encode, CodeLength;
    if |cps| > 0 {
      var e := Encode(cps[0]);
      assert s[p..] == e + EncodeAll(cps[1..]);
      assert s[p..p + |e|] == s[p..][..|e|] == e;
      EncodedLength(s, p, cps[0]);
      assert s[p + |e|..] == s[p..][|e|..] == EncodeAll(cps[1..]);
      EncodedIsWellCoded(s, p + |e|, cps[1..]);
    }
  }

  lemma {:induction false} WellCodedIsEncoded(s: seq<Byte>, p: nat) returns (cps: seq<int>)
    requires p <= |s| && WellCoded(s, p)
    ensures (forall i :: 0 <= i < |cps| ==> Scalar(cps[i])) && EncodeAll(cps) == s[p..]
    decreases |s| - p
  {
    if p == |s| {
      cps := [];
    } else {
      var n := CodeLength(s, p);
      var cp := DecodedScalar(s, p);
      var rest := WellCodedIsEncoded(s, p + n);
      cps := [cp] + rest;
      assert s[p..] == s[p..p + n] + s[p + n..];
    }
  }

  /** `check_utf8_validity`: -1 for valid input, otherwise the offset of the first byte that does not fit. */
  method CheckUtf8Validity(s: seq<Byte>) returns (r: int)
    ensures r == -1 <==> ValidUtf8(s)
    ensures r != -1 ==> 0 <= r < |s|
  {
    CodeMatch(s, 0);
    UnlimitedMatch(LEX_UTF8_CODE, s, 0);
    hide Match, MatchMany, Productive, Nullable, ValidUtf8, WellCoded;
    var loc := new Location(s);
    var u8 := Invoke(Unlimited(LEX_UTF8_CODE), loc);
    ValidIffWellCoded(s);
    WellCodedMatch(s, 0);
    if u8.None? || loc.iter != |s| {
      return loc.iter;
    }
    return -1;
  }

  lemma ValidIffWellCoded(s: seq<Byte>)
    ensures ValidUtf8(s) <==> WellCoded(s, 0)
  {
    if ValidUtf8(s) {
      var cps: seq<int> :| (forall i :: 0 <= i < |cps| ==> Scalar(cps[i])) && EncodeAll(cps) == s;
      assert s[0..] == s;
      EncodedIsWellCoded(s, 0, cps);
    }
    if WellCoded(s, 0) {
      var cps := WellCodedIsEncoded(s, 0);
      assert s[0..] == s;
    }
  }
}
