/** Basic strings from the writer's side: every way to spell a text, and what parsing makes of it. */
module StringSpelling {
  import opened Common
  import opened Utf8
  import opened StringLexer
  import opened StringParser
  import opened StringPrinter

  // ----- The spellings, from the TOML grammar and not from the lexer -----

  const LETTERS := "btnfr\"\\"
  const LETTER_MEANINGS: seq<Byte> := [0x08, 0x09, 0x0A, 0x0C, 0x0D, 0x22, 0x5C]

  /** A plain byte, the escape with the k-th letter, or a code point in digits of either case. */
  datatype Piece = Plain(b: Byte) | Letter(k: nat) | Unicode(cp: nat, upper: seq<bool>)

  function Pow16(n: nat): nat {
    if n == 0 then 1 else 16 * Pow16(n - 1)
  }

  predicate Legal(x: Piece) {
    match x
    case Plain(b) => b == '\t' as int || (' ' as int <= b && b !in [0x22, 0x5C, 0x7F])
    case Letter(k) => k < 7
    case Unicode(cp, upper) => |upper| in {4, 8} && cp < Pow16(|upper|)
  }

  predicate AllLegal(xs: seq<Piece>) {
    forall k :: 0 <= k < |xs| ==> Legal(xs[k])
  }

  function Digit(v: nat, upper: bool): Byte
    requires v < 16
  {
    if v < 10 then '0' as int + v else (if upper then 'A' else 'a') as int + v - 10
  }

  /** The last |upper| digits of v. */
  function Digits(v: nat, upper: seq<bool>): (d: seq<Byte>)
    ensures |d| == |upper|
  {
    if upper == [] then []
    else Digits(v / 16, upper[..|upper| - 1]) + [Digit(v % 16, upper[|upper| - 1])]
  }

  function LetterByte(k: nat): Byte
    requires k < 7
  {
    LETTERS[k] as int
  }

  function Spelled(x: Piece): seq<Byte>
    requires Legal(x)
  {
    match x
    case Plain(b) => [b]
    case Letter(k) => ['\\' as int, LetterByte(k)]
    case Unicode(cp, upper) => ['\\' as int, (if |upper| == 4 then 'u' else 'U') as int] + Digits(cp, upper)
  }

  function Meaning(x: Piece): (m: Parsed<seq<Byte>>)
    requires Legal(x)
    ensures !m.Err?
  {
    match x
    case Plain(b) => Ok([b])
    case Letter(k) => Ok([LETTER_MEANINGS[k]])
    case Unicode(cp, _) => if Scalar(cp) then Ok(Encode(cp)) else Throw
  }

  function Spell(xs: seq<Piece>): seq<Byte>
    requires AllLegal(xs)
  {
    if xs == [] then [] else Spelled(xs[0]) + Spell(xs[1..])
  }

  function Means(xs: seq<Piece>): Parsed<seq<Byte>>
    requires AllLegal(xs)
  {
    if xs == [] then Ok([])
    else if Meaning(xs[0]).Ok? then Prefix(Meaning(xs[0]).value, Means(xs[1..]))
    else Throw
  }

  // ----- One piece -----

  lemma DigitValue(v: nat, upper: bool)
    requires v < 16
    ensures IsHex(Digit(v, upper)) && HexDigitValue(Digit(v, upper)) == v
  {
  }

  lemma {:induction false} DigitsRead(s: seq<Byte>, p: nat, v: nat, upper: seq<bool>)
    requires Holds(s, p, Digits(v, upper)) && v < Pow16(|upper|)
    ensures HexRun(s, p, |upper|) && HexValue(s, p, |upper|) == v
  {
    if upper != [] {
      var n := |upper| - 1;
      HoldsSplit(s, p, Digits(v / 16, upper[..n]), [Digit(v % 16, upper[n])]);
      DigitsRead(s, p, v / 16, upper[..n]);
      HoldsAt(s, p + n, [Digit(v % 16, upper[n])], 0);
      DigitValue(v % 16, upper[n]);
    }
  }

  lemma DigitOfValue(b: Byte)
    requires IsHex(b)
    ensures Digit(HexDigitValue(b), b < 0x61) == b
  {
  }

  /** Every run of hexadecimal digits spells its value. */
  lemma {:induction false} DigitsOfRun(s: seq<Byte>, p: nat, n: nat) returns (upper: seq<bool>)
    requires HexRun(s, p, n)
    ensures |upper| == n && HexValue(s, p, n) < Pow16(n) && Holds(s, p, Digits(HexValue(s, p, n), upper))
  {
    upper := [];
    if n > 0 {
      upper := DigitsOfRun(s, p, n - 1);
      var b, v := s[p + n - 1], HexValue(s, p, n - 1);
      DigitOfValue(b);
      var last := b < 0x61;
      assert (upper + [last])[..n - 1] == upper;
      assert HexValue(s, p, n) / 16 == v && HexValue(s, p, n) % 16 == HexDigitValue(b);
      HoldsSplit(s, p, Digits(v, upper), [b]);
      upper := upper + [last];
    }
  }

  lemma LetterMeans(k: nat)
    requires k < 7
    ensures IsSimpleEscape(LetterByte(k)) && SimpleEscapeValue(LetterByte(k)) == LETTER_MEANINGS[k]
  {
  }

  lemma LetterOf(c: Byte) returns (k: nat)
    requires IsSimpleEscape(c)
    ensures k < 7 && LetterByte(k) == c
  {
    k := if c == 0x62 then 0 else if c == 0x74 then 1 else if c == 0x6E then 2 else if c == 0x66 then 3
      else if c == 0x72 then 4 else if c == 0x22 then 5 else 6;
  }

  /** A spelled piece is one step of the parser and stands for what it means. */
  lemma PieceParses(s: seq<Byte>, p: nat, x: Piece)
    requires Legal(x) && Holds(s, p, Spelled(x))
    ensures |Spelled(x)| > 0
    ensures if x.Plain? then PlainAt(s, p) && |Spelled(x)| == 1 && Meaning(x) == Ok([s[p]])
            else EscapeLength(s, p) == |Spelled(x)| && EscapeValue(s, p) == Meaning(x) && !PlainAt(s, p)
  {
    hide Digits, HexRun, HexValue, Encode;
    HoldsAt(s, p, Spelled(x), 0);
    match x
    case Plain(_) =>
    case Letter(k) =>
      HoldsAt(s, p, Spelled(x), 1);
      LetterMeans(k);
    case Unicode(cp, upper) =>
      HoldsAt(s, p, Spelled(x), 1);
      HoldsSplit(s, p, Spelled(x)[..2], Digits(cp, upper));
      assert Spelled(x) == Spelled(x)[..2] + Digits(cp, upper);
      DigitsRead(s, p + 2, cp, upper);
  }

  /** Every step of the parser is over a spelled piece. */
  lemma PieceFound(s: seq<Byte>, p: nat) returns (x: Piece)
    requires PlainAt(s, p) || EscapeLength(s, p) > 0
    ensures Legal(x) && Holds(s, p, Spelled(x))
  {
    hide HexRun, HexValue, Encode;
    if PlainAt(s, p) {
      x := Plain(s[p]);
      assert s[p..p + 1] == Spelled(x);
    } else if IsSimpleEscape(s[p + 1]) {
      var k := LetterOf(s[p + 1]);
      x := Letter(k);
      assert s[p..p + 2] == Spelled(x);
    } else {
      var n := EscapeLength(s, p) - 2;
      var upper := DigitsOfRun(s, p + 2, n);
      var cp := HexValue(s, p + 2, n);
      x := Unicode(cp, upper);
      hide Digits;
      assert s[p..p + 2] == Spelled(x)[..2];
      HoldsSplit(s, p, Spelled(x)[..2], Digits(cp, upper));
      assert Spelled(x) == Spelled(x)[..2] + Digits(cp, upper);
    }
  }

  // ----- The body -----

  lemma {:induction false} BodyParses(s: seq<Byte>, p: nat, xs: seq<Piece>, q: nat)
    requires AllLegal(xs) && Holds(s, p, Spell(xs)) && q == p + |Spell(xs)| && q < |s| && s[q] == QUOTE
    ensures p <= q && BasicBodyEnd(s, p) == q && DecodeBasic(s, p, q) == Means(xs)
    decreases |xs|
  {
    hide BasicBodyEnd, EscapeLength, EscapeValue, Holds, Spelled, Meaning, Prefix, Legal;
    BasicBodyStep(s, p);
    if xs != [] {
      var x, rest := xs[0], xs[1..];
      HoldsSplit(s, p, Spelled(x), Spell(rest));
      PieceParses(s, p, x);
      BodyParses(s, p + |Spelled(x)|, rest, q);
    }
  }

  lemma {:induction false} BodyFound(s: seq<Byte>, p: nat) returns (xs: seq<Piece>)
    requires p <= |s|
    ensures AllLegal(xs) && Holds(s, p, Spell(xs)) && p + |Spell(xs)| == BasicBodyEnd(s, p)
    decreases |s| - p
  {
    hide BasicBodyEnd, EscapeLength, EscapeValue, Spelled, Legal;
    BasicBodyStep(s, p);
    xs := [];
    if PlainAt(s, p) || EscapeLength(s, p) > 0 {
      var x := PieceFound(s, p);
      PieceParses(s, p, x);
      var n := |Spelled(x)|;
      assert n == if PlainAt(s, p) then 1 else EscapeLength(s, p);
      var rest := BodyFound(s, p + n);
      xs := [x] + rest;
      assert xs[1..] == rest;
      HoldsSplit(s, p, Spelled(x), Spell(rest));
    }
  }

  // ----- The token -----

  function Token(xs: seq<Piece>): seq<Byte>
    requires AllLegal(xs)
  {
    [QUOTE] + Spell(xs) + [QUOTE]
  }

  /** A spelled text between quotation marks parses to exactly what it means, wherever it stands. */
  lemma SpellingParses(s: seq<Byte>, p: nat, xs: seq<Piece>)
    requires p <= |s| && AllLegal(xs) && Holds(s, p, Token(xs))
    ensures BasicStringAt(s, p) ==
      if Means(xs).Ok? && ValidUtf8(Token(xs)) then Ok((Means(xs).value, p + |Token(xs)|)) else Throw
  {
    hide BasicBodyEnd, DecodeBasic, Spell, Means, WellCoded, ValidUtf8, Legal;
    var q := p + 1 + |Spell(xs)|;
    HoldsSplit(s, p, [QUOTE] + Spell(xs), [QUOTE]);
    HoldsSplit(s, p, [QUOTE], Spell(xs));
    HoldsAt(s, p, [QUOTE], 0);
    HoldsAt(s, q, [QUOTE], 0);
    BodyParses(s, p + 1, xs, q);
    assert s[p..q + 1] == Token(xs);
    ValidIffWellCoded(Token(xs));
  }

  /** The parser leaves to others exactly the places where no spelling stands. */
  lemma ErrIffNoSpelling(s: seq<Byte>, p: nat)
    requires p <= |s|
    ensures BasicStringAt(s, p) == Err <==> !exists xs: seq<Piece> :: AllLegal(xs) && Holds(s, p, Token(xs))
  {
    hide BasicBodyEnd, DecodeBasic, Spell, Means, WellCoded, ValidUtf8, Legal;
    forall xs: seq<Piece> | AllLegal(xs) && Holds(s, p, Token(xs))
      ensures BasicStringAt(s, p) != Err
    {
      SpellingParses(s, p, xs);
    }
    if BasicStringAt(s, p) != Err {
      var q := BasicBodyEnd(s, p + 1);
      var xs := BodyFound(s, p + 1);
      assert s[p..p + 1] == [QUOTE] && s[q..q + 1] == [QUOTE];
      HoldsSplit(s, p, [QUOTE], Spell(xs));
      HoldsSplit(s, p, [QUOTE] + Spell(xs), [QUOTE]);
    }
  }

  /** The printer spells each byte but the tab, which it never leaves as it is, in the shortest way there is. */
  lemma PrintedIsShortest(c: Byte, x: Piece)
    requires Legal(x) && Meaning(x) == Ok([c])
    ensures if c == '\t' as int then BasicPiece(c) == ['\\' as int, 't' as int]
            else |BasicPiece(c)| <= |Spelled(x)|
  {
    match x
    case Plain(_) =>
    case Letter(k) =>
      assert c == LETTER_MEANINGS[k] && k < 7;
    case Unicode(_, _) =>
      assert |BasicPiece(c)| <= 6;
  }
}
