/** Parsing what was printed gives the string back. */
module StringRoundTrip {
  import opened Combinators
  import opened Common
  import opened Utf8
  import opened StringLexer
  import opened StringParser
  import opened MlStringParser
  import opened StringPrinter

  /** A printed byte is one plain byte or one escape sequence, and stands for the byte. */
  lemma PieceDecodes(src: seq<Byte>, p: nat, c: Byte)
    requires Holds(src, p, BasicPiece(c))
    ensures var e := BasicPiece(c);
      || (e == [c] && PlainAt(src, p) && src[p] == c)
      || (EscapeLength(src, p) == |e| && EscapeValue(src, p) == Ok([c]))
  {
    hide Holds, HexValue, HexRun, HexEscape;
    HoldsAt(src, p, BasicPiece(c), 0);
    if ShortEscape(c).Some? {
      HoldsAt(src, p, BasicPiece(c), 1);
    } else if IsControl(c) {
      HexEscapeDecodes(src, p, c);
    }
  }

  lemma HexEscapeDecodes(src: seq<Byte>, p: nat, c: Byte)
    requires IsControl(c) && Holds(src, p, HexEscape(c))
    ensures |HexEscape(c)| == 6 && EscapeLength(src, p) == 6 && EscapeValue(src, p) == Ok([c])
  {
    var e := HexEscape(c);
    assert forall k :: 0 <= k < 6 ==> src[p + k] == e[k] by {
      forall k | 0 <= k < 6 ensures src[p + k] == e[k] {
        HoldsAt(src, p, e, k);
      }
    }
    TwoDigits(c);
    FourDigits(src, p + 2, e[4], e[5]);
    EncodeAscii(c);
    hide HexRun, HexValue, HexDigitValue;
    assert EscapeTail(src, p + 1) == 5;
  }

  lemma TwoDigits(c: Byte)
    requires IsControl(c)
    ensures var high, low := HexEscape(c)[4], HexEscape(c)[5];
      IsHex(high) && IsHex(low) && HexDigitValue(high) * 16 + HexDigitValue(low) == c as int
  {
  }

  lemma FourDigits(s: seq<Byte>, p: nat, high: Byte, low: Byte)
    requires p + 4 <= |s| && s[p] == s[p + 1] == 0x30 && s[p + 2] == high && s[p + 3] == low && IsHex(high)
    requires IsHex(low)
    ensures HexRun(s, p, 4) && HexValue(s, p, 4) == HexDigitValue(high) * 16 + HexDigitValue(low)
  {
    assert HexValue(s, p, 1) == HexValue(s, p, 0) * 16 + HexDigitValue(s[p]) == 0;
    assert HexValue(s, p, 2) == HexValue(s, p, 1) * 16 + HexDigitValue(s[p + 1]) == 0;
    assert HexValue(s, p, 3) == HexDigitValue(high);
  }

  /** The body of a printed basic string ends where the printer stopped and decodes to the text. */
  lemma {:induction false} BasicBodyRoundTrip(src: seq<Byte>, p: nat, s: seq<Byte>, q: nat)
    requires Holds(src, p, BasicEscaped(s)) && q == p + |BasicEscaped(s)|
    requires q < |src| && src[q] == QUOTE
    ensures BasicBodyEnd(src, p) == q && DecodeBasic(src, p, q) == Ok(s)
    decreases |s|
  {
    hide BasicBodyEnd, EscapeLength, EscapeValue, BasicPiece, Holds;
    BasicBodyStep(src, p);
    if s != [] {
      var e := BasicPiece(s[0]);
      HoldsSplit(src, p, e, BasicEscaped(s[1..]));
      PieceDecodes(src, p, s[0]);
      BasicBodyRoundTrip(src, p + |e|, s[1..], q);
      assert [s[0]] + s[1..] == s;
    }
  }

  // ----- Escaping keeps UTF-8 valid -----

  lemma {:induction false} EncodeAllConcat(a: seq<int>, b: seq<int>)
    requires (forall i :: 0 <= i < |a| ==> Scalar(a[i])) && (forall i :: 0 <= i < |b| ==> Scalar(b[i]))
    ensures EncodeAll(a + b) == EncodeAll(a) + EncodeAll(b)
  {
    if a == [] {
      assert a + b == b;
    } else {
      assert (a + b)[1..] == a[1..] + b;
      EncodeAllConcat(a[1..], b);
    }
  }

  lemma ValidConcat(a: seq<Byte>, b: seq<Byte>)
    requires ValidUtf8(a) && ValidUtf8(b)
    ensures ValidUtf8(a + b)
  {
    hide Encode;
    var ca: seq<int> :| (forall i :: 0 <= i < |ca| ==> Scalar(ca[i])) && EncodeAll(ca) == a;
    var cb: seq<int> :| (forall i :: 0 <= i < |cb| ==> Scalar(cb[i])) && EncodeAll(cb) == b;
    EncodeAllConcat(ca, cb);
    assert forall i :: 0 <= i < |ca + cb| ==> Scalar((ca + cb)[i]);
    assert EncodeAll(ca + cb) == a + b;
  }

  lemma {:induction false} AsciiValid(e: seq<Byte>)
    requires forall k :: 0 <= k < |e| ==> e[k] < 0x80
    ensures ValidUtf8(e)
  {
    if e == [] {
      assert EncodeAll([]) == [];
    } else {
      assert EncodeAll([e[0] as int]) == [e[0]];
      AsciiValid(e[1..]);
      ValidConcat([e[0]], e[1..]);
      assert [e[0]] + e[1..] == e;
    }
  }

  lemma ScalarValid(cp: int)
    requires Scalar(cp)
    ensures ValidUtf8(Encode(cp)) && (cp >= 0x80 ==> forall k :: 0 <= k < |Encode(cp)| ==> Encode(cp)[k] >= 0x80)
  {
    hide Encode;
    if cp >= 0x80 {
      HighEncode(cp);
    }
    assert EncodeAll([cp]) == Encode(cp);
  }

  lemma HighEncode(cp: int)
    requires Scalar(cp) && cp >= 0x80
    ensures forall k :: 0 <= k < |Encode(cp)| ==> Encode(cp)[k] >= 0x80
  {
  }

  lemma PieceAscii(c: Byte)
    requires c < 0x80
    ensures ValidUtf8(BasicPiece(c)) && ValidUtf8(MlPiece(c))
  {
    AsciiValid(BasicPiece(c));
    AsciiValid(MlPiece(c));
  }

  lemma HighHead(s: seq<Byte>)
    requires s != [] && s[0] >= 0x80
    ensures BasicEscaped(s) == [s[0]] + BasicEscaped(s[1..]) && MlEscaped(s) == [s[0]] + MlEscaped(s[1..])
  {
  }

  /** Bytes above the ASCII range are printed as they are. */
  lemma {:induction false} HighBytes(e: seq<Byte>, r: seq<Byte>)
    requires forall k :: 0 <= k < |e| ==> e[k] >= 0x80
    ensures BasicEscaped(e + r) == e + BasicEscaped(r) && MlEscaped(e + r) == e + MlEscaped(r)
  {
    hide BasicEscaped, MlEscaped;
    if e == [] {
      assert e + r == r;
    } else {
      HighHead(e + r);
      HighBytes(e[1..], r);
      assert (e + r)[1..] == e[1..] + r;
    }
  }

  lemma {:induction false} BasicEscapedValid(cps: seq<int>)
    requires forall i :: 0 <= i < |cps| ==> Scalar(cps[i])
    ensures ValidUtf8(BasicEscaped(EncodeAll(cps)))
  {
    if cps == [] {
      AsciiValid([]);
    } else {
      BasicEscapedValid(cps[1..]);
      var e, r := Encode(cps[0]), EncodeAll(cps[1..]);
      ScalarValid(cps[0]);
      if cps[0] >= 0x80 {
        HighBytes(e, r);
        ValidConcat(e, BasicEscaped(r));
      } else {
        PieceAscii(e[0]);
        assert (e + r)[1..] == r;
        ValidConcat(BasicPiece(e[0]), BasicEscaped(r));
      }
    }
  }

  // ----- What the multi-line printer puts out, head by head -----

  /** The body of a multi-line string, when n quotation marks have just gone by. */
  function MlPrinted(s: seq<Byte>, n: nat): seq<Byte> {
    BreakRuns(MlEscaped(s), n)
  }

  function Taken(s: seq<Byte>): (k: nat)
    requires s != []
    ensures 1 <= k <= |s|
  {
    if CrLfAhead(s) then 2 else 1
  }

  /** What is printed for the first byte, or for the first two if they are a line break. */
  function Head(s: seq<Byte>, n: nat): (h: seq<Byte>)
    requires s != []
    ensures |h| > 0
  {
    if CrLfAhead(s) then [CR, LF]
    else if s[0] == QUOTE then (if n < 2 then [QUOTE] else [BACKSLASH, QUOTE])
    else MlPiece(s[0])
  }

  function RunAfter(s: seq<Byte>, n: nat): (m: nat)
    requires s != []
    ensures n <= 2 ==> m <= 2
  {
    if CrLfAhead(s) || s[0] != QUOTE then 0 else if n < 2 then n + 1 else 1
  }

  lemma {:induction false} PassThrough(e: seq<Byte>, r: seq<Byte>, n: nat)
    requires e != [] && forall k :: 0 <= k < |e| ==> e[k] != QUOTE
    ensures BreakRuns(e + r, n) == e + BreakRuns(r, 0)
  {
    assert (e + r)[1..] == e[1..] + r;
    if |e| > 1 {
      PassThrough(e[1..], r, 0);
    } else {
      assert e[1..] + r == r;
    }
  }

  lemma MlPrintedStep(s: seq<Byte>, n: nat)
    requires s != []
    ensures MlPrinted(s, n) == Head(s, n) + MlPrinted(s[Taken(s)..], RunAfter(s, n))
  {
    var r := MlEscaped(s[Taken(s)..]);
    if CrLfAhead(s) {
      PassThrough([CR, LF], r, n);
    } else if s[0] != QUOTE {
      PassThrough(MlPiece(s[0]), r, n);
    } else {
      assert ([QUOTE] + r)[1..] == r;
    }
  }

  /** Breaking up leaves no three quotation marks in a row, those that have just gone by included. */
  lemma {:induction false} BreakRunsNoTriple(t: seq<Byte>, n: nat)
    requires n <= 2
    ensures NoTriple(Quotes(n) + BreakRuns(t, n))
  {
    NoneYet(n);
    hide NoTriple;
    if t != [] {
      if t[0] != QUOTE {
        BreakRunsNoTriple(t[1..], 0);
        assert Quotes(0) + BreakRuns(t[1..], 0) == BreakRuns(t[1..], 0);
        Interrupted(n, [t[0]], BreakRuns(t[1..], 0));
      } else if n < 2 {
        BreakRunsNoTriple(t[1..], n + 1);
        QuotesAhead(n, BreakRuns(t, n));
      } else {
        BreakRunsNoTriple(t[1..], 1);
        assert Quotes(1) + BreakRuns(t[1..], 1) == [QUOTE] + BreakRuns(t[1..], 1);
        Interrupted(n, [BACKSLASH], [QUOTE] + BreakRuns(t[1..], 1));
        assert [BACKSLASH] + ([QUOTE] + BreakRuns(t[1..], 1)) == BreakRuns(t, n);
      }
    }
  }

  lemma NoneYet(n: nat)
    requires n <= 2
    ensures NoTriple(Quotes(n) + [])
  {
  }

  lemma Interrupted(n: nat, c: seq<Byte>, r: seq<Byte>)
    requires n <= 2 && |c| == 1 && c[0] != QUOTE && NoTriple(r)
    ensures NoTriple(Quotes(n) + (c + r))
  {
    var w := Quotes(n) + (c + r);
    assert w[n] == c[0];
    forall k | 0 <= k < |w|
      ensures !ThreeQuotesAt(w, k)
    {
      if k > n {
        assert !ThreeQuotesAt(r, k - n - 1);
      }
    }
  }

  lemma PrintedNoTriple(s: seq<Byte>, n: nat)
    requires n <= 2
    ensures NoTriple(MlPrinted(s, n))
  {
    BreakRunsNoTriple(MlEscaped(s), n);
    var w := Quotes(n) + MlPrinted(s, n);
    forall k | 0 <= k < |MlPrinted(s, n)|
      ensures !ThreeQuotesAt(MlPrinted(s, n), k)
    {
      assert !ThreeQuotesAt(w, n + k);
    }
  }

  /** Printed text made of quotation marks alone is the text itself. */
  lemma {:induction false} OnlyQuotes(s: seq<Byte>, n: nat)
    requires n <= 2 && forall k :: 0 <= k < |MlPrinted(s, n)| ==> MlPrinted(s, n)[k] == QUOTE
    ensures MlPrinted(s, n) == s && s == Quotes(|s|) && |s| <= 2
  {
    PrintedNoTriple(s, n);
    assert |MlPrinted(s, n)| > 2 ==> ThreeQuotesAt(MlPrinted(s, n), 0);
    if s != [] {
      MlPrintedStep(s, n);
      assert MlPrinted(s, n)[0] == Head(s, n)[0];
      var rest := MlPrinted(s[Taken(s)..], RunAfter(s, n));
      assert forall k :: 0 <= k < |rest| ==> rest[k] == MlPrinted(s, n)[|Head(s, n)| + k];
      OnlyQuotes(s[1..], RunAfter(s, n));
    }
  }

  // ----- Parsing the multi-line form -----

  /** The head at p is one item of the body, and stands for the bytes it was printed for. */
  lemma HeadDecodes(src: seq<Byte>, p: nat, s: seq<Byte>, n: nat, q: nat)
    requires s != [] && Holds(src, p, Head(s, n)) && p + |Head(s, n)| <= q <= |src|
    requires Head(s, n) == [QUOTE] ==> !ThreeQuotesAt(src, p)
    ensures ItemLength(src, p) == |Head(s, n)|
    ensures DecodeMl(src, p, q) == Prefix(s[..Taken(s)], DecodeMl(src, p + |Head(s, n)|, q))
  {
    hide Holds, EscapeValue, HexRun, HexEscape, EscapedNewlineEnd;
    HoldsAt(src, p, Head(s, n), 0);
    if CrLfAhead(s) {
      HoldsAt(src, p, Head(s, n), 1);
      assert s[..2] == [CR, LF] == src[p..p + 2];
    } else {
      assert s[..1] == [s[0]];
      if s[0] == LF {
        assert src[p..p + 1] == [LF];
      } else if s[0] != QUOTE || n >= 2 {
        PieceDecodes(src, p, s[0]);
      }
    }
  }

  const THREE: seq<Byte> := [QUOTE, QUOTE, QUOTE]

  function Opening(ownLine: bool): seq<Byte> {
    if ownLine then THREE + [LF] else THREE
  }

  function Closing(ownLine: bool): seq<Byte> {
    if ownLine then [BACKSLASH, LF] + THREE else THREE
  }

  /** Three quotation marks at p that no further one follows. */
  predicate ThreeOnlyAt(s: seq<Byte>, p: nat) {
    ThreeQuotesAt(s, p) && (p + 3 < |s| ==> s[p + 3] != QUOTE)
  }

  /** The closing part of a printed multi-line string: with an escaped newline in front, or bare. */
  predicate ClosesAt(s: seq<Byte>, p: nat, ownLine: bool) {
    if ownLine then p + 1 < |s| && s[p] == BACKSLASH && s[p + 1] == LF && ThreeOnlyAt(s, p + 2) else ThreeOnlyAt(s, p)
  }

  /** The body from p to its end, and the quotation marks the closing delimiter takes too, stand for s; the token
      ends at end. */
  ghost predicate Decodes(src: seq<Byte>, p: nat, s: seq<Byte>, end: nat)
    requires p <= |src|
  {
    var q := MlBodyEnd(src, p);
    && ThreeQuotesAt(src, q) && q + ClosingQuotes(src, q) == end
    && var v := DecodeMl(src, p, q);
      v.Ok? && v.value + Quotes(ClosingQuotes(src, q) - 3) == s
  }

  lemma EscapedNewlineHere(s: seq<Byte>, p: nat)
    requires ClosesAt(s, p, true)
    ensures ItemLength(s, p) == 2 && EscapeLength(s, p) == 0 && NewlineLength(s, p) == 0 && !MlPlainAt(s, p)
  {
    NewlinesProductive();
    assert Productive(Sequence(Maybe(WS), NEWLINE_AND_MORE)) && Productive(NEWLINE_AND_MORE) && Productive(WS);
    SequenceMatch(Character(0x5C), Sequence(Maybe(WS), NEWLINE_AND_MORE), s, p);
    SequenceMatch(Maybe(WS), NEWLINE_AND_MORE, s, p + 1);
    WsMatch(s, p + 1);
    SequenceMatch(NEWLINE, Unlimited(WS_OR_NEWLINE), s, p + 1);
    NewlineMatch(s, p + 1);
    NewlineMatch(s, p + 2);
    WsMatch(s, p + 2);
    EitherMatch(WS, NEWLINE, s, p + 2);
    assert MatchMany(WS_OR_NEWLINE, s, p + 2) == p + 2;
  }

  lemma ClosingHere(src: seq<Byte>, p: nat, k: nat)
    requires k <= 2 && p + k <= |src| && ThreeOnlyAt(src, p + k) && forall j :: p <= j < p + k ==> src[j] == QUOTE
    ensures Decodes(src, p, Quotes(k), p + k + 3)
  {
    assert ThreeQuotesAt(src, p) && ClosingQuotes(src, p) == k + 3;
    MlBodyStep(src, p);
    assert [] + Quotes(k) == Quotes(k);
    EscapedNewlineStart(src, p);
  }

  lemma ClosingOnOwnLine(src: seq<Byte>, p: nat)
    requires ClosesAt(src, p, true)
    ensures Decodes(src, p, [], p + 5)
  {
    EscapedNewlineHere(src, p);
    MlBodyStep(src, p);
    ClosingHere(src, p + 2, 0);
  }

  lemma HoldsWithin(src: seq<Byte>, p: nat, e: seq<Byte>)
    requires Holds(src, p, e)
    ensures p + |e| <= |src|
  {
  }

  lemma DecodesStep(src: seq<Byte>, p: nat, s: seq<Byte>, n: nat, end: nat)
    requires s != [] && Holds(src, p, Head(s, n))
    requires Head(s, n) == [QUOTE] ==> !ThreeQuotesAt(src, p)
    requires Decodes(src, p + |Head(s, n)|, s[Taken(s)..], end)
    ensures Decodes(src, p, s, end)
  {
    hide DecodeMl, MlBodyEnd, ItemLength, Head, Taken, ClosingQuotes, ThreeQuotesAt, Holds;
    var h, k := Head(s, n), Taken(s);
    var q := MlBodyEnd(src, p + |h|);
    HoldsWithin(src, p, h);
    HeadDecodes(src, p, s, n, q);
    MlBodyStep(src, p);
    var v := DecodeMl(src, p + |h|, q);
    var c := Quotes(ClosingQuotes(src, q) - 3);
    assert s[..k] + v.value + c == s[..k] + (v.value + c) == s;
  }

  /** No closing delimiter starts inside the printed body, unless quotation marks are all that is left of it. */
  lemma NotYetClosing(src: seq<Byte>, p: nat, b: seq<Byte>, ownLine: bool)
    requires b != [] && Holds(src, p, b) && NoTriple(b) && ClosesAt(src, p + |b|, ownLine)
    requires ownLine || exists k :: 0 <= k < |b| && b[k] != QUOTE
    ensures !ThreeQuotesAt(src, p)
  {
    assert forall k :: 0 <= k < |b| ==> src[p + k] == b[k];
    assert !ThreeQuotesAt(b, 0);
  }

  /** The printed body of a multi-line string decodes to the text it was printed for. */
  lemma {:induction false} MlBodyRoundTrip(src: seq<Byte>, p: nat, s: seq<Byte>, n: nat, ownLine: bool)
    requires n <= 2 && Holds(src, p, MlPrinted(s, n)) && ClosesAt(src, p + |MlPrinted(s, n)|, ownLine)
    ensures Decodes(src, p, s, p + |MlPrinted(s, n)| + |Closing(ownLine)|)
    decreases |s|
  {
    hide Decodes, MlPrinted, ClosesAt, Head, Taken, RunAfter;
    var b := MlPrinted(s, n);
    if !ownLine && forall k :: 0 <= k < |b| ==> b[k] == QUOTE {
      OnlyQuotes(s, n);
      BareClose(src, p, b);
    } else if s == [] {
      PrintedNothing(n);
      ClosingOnOwnLine(src, p);
    } else {
      MlPrintedStep(s, n);
      var h, rest := Head(s, n), MlPrinted(s[Taken(s)..], RunAfter(s, n));
      HoldsSplit(src, p, h, rest);
      PrintedNoTriple(s, n);
      NotYetClosing(src, p, b, ownLine);
      MlBodyRoundTrip(src, p + |h|, s[Taken(s)..], RunAfter(s, n), ownLine);
      DecodesStep(src, p, s, n, p + |b| + |Closing(ownLine)|);
    }
  }

  lemma PrintedNothing(n: nat)
    ensures MlPrinted([], n) == []
  {
  }

  lemma BareClose(src: seq<Byte>, p: nat, b: seq<Byte>)
    requires Holds(src, p, b) && ClosesAt(src, p + |b|, false)
    requires |b| <= 2 && b == Quotes(|b|)
    ensures Decodes(src, p, b, p + |b| + 3)
  {
    hide MlBodyEnd, Decodes, ClosingQuotes;
    assert forall k :: p <= k < p + |b| ==> src[k] == b[k - p];
    ClosingHere(src, p, |b|);
  }

  // ----- The round trip -----

  lemma {:induction false} MlPrintedValid(cps: seq<int>, n: nat)
    requires n <= 2 && forall i :: 0 <= i < |cps| ==> Scalar(cps[i])
    ensures ValidUtf8(MlPrinted(EncodeAll(cps), n))
    decreases |cps|
  {
    if cps == [] {
      AsciiValid([]);
    } else {
      hide Encode, ValidUtf8;
      var e, r := Encode(cps[0]), EncodeAll(cps[1..]);
      ScalarValid(cps[0]);
      if cps[0] >= 0x80 {
        MlPrintedValid(cps[1..], 0);
        HighBytes(e, r);
        PassThrough(e, MlEscaped(r), n);
        ValidConcat(e, MlPrinted(r, 0));
      } else {
        EncodeAscii(cps[0]);
        MlPrintedAscii(e + r, n);
        assert (e + r)[1..] == r;
        var m := if e[0] != QUOTE then 0 else if n < 2 then n + 1 else 1;
        MlPrintedValid(cps[1..], m);
      }
    }
  }

  lemma MlPrintedAscii(s: seq<Byte>, n: nat)
    requires s != [] && s[0] < 0x80
    ensures var m := if s[0] != QUOTE then 0 else if n < 2 then n + 1 else 1;
      ValidUtf8(MlPrinted(s[1..], m)) ==> ValidUtf8(MlPrinted(s, n))
  {
    hide ValidUtf8;
    var m := if s[0] != QUOTE then 0 else if n < 2 then n + 1 else 1;
    if ValidUtf8(MlPrinted(s[1..], m)) {
      if CrLfAhead(s) {
        assert s[1..][1..] == s[2..];
        assert MlEscaped(s) == [CR] + MlEscaped(s[1..]);
        PassThrough([CR], MlEscaped(s[1..]), n);
        AsciiValid([CR]);
        ValidConcat([CR], MlPrinted(s[1..], 0));
      } else {
        MlPrintedStep(s, n);
        PieceAscii(s[0]);
        AsciiValid([QUOTE]);
        AsciiValid([BACKSLASH, QUOTE]);
        ValidConcat(Head(s, n), MlPrinted(s[1..], m));
      }
    }
  }

  lemma TokenWellCoded(src: seq<Byte>, p: nat, t: seq<Byte>)
    requires Holds(src, p, t) && ValidUtf8(t)
    ensures WellCoded(src[p..p + |t|], 0)
  {
    ValidIffWellCoded(t);
  }

  lemma Wrapped(open: seq<Byte>, body: seq<Byte>, close: seq<Byte>)
    requires (forall k :: 0 <= k < |open| ==> open[k] < 0x80) && (forall k :: 0 <= k < |close| ==> close[k] < 0x80)
    requires ValidUtf8(body)
    ensures ValidUtf8(open + body + close)
  {
    AsciiValid(open);
    AsciiValid(close);
    ValidConcat(open, body);
    ValidConcat(open + body, close);
  }

  lemma EscapedValid(s: seq<Byte>)
    requires ValidUtf8(s)
    ensures ValidUtf8(BasicEscaped(s)) && ValidUtf8(MlPrinted(s, 0))
  {
    var cps: seq<int> :| (forall i :: 0 <= i < |cps| ==> Scalar(cps[i])) && EncodeAll(cps) == s;
    BasicEscapedValid(cps);
    MlPrintedValid(cps, 0);
  }

  /** A printed one-line string parses back, and nothing behind it is consumed. */
  lemma BasicRoundTrip(src: seq<Byte>, p: nat, s: seq<Byte>)
    requires ValidUtf8(s)
    requires Holds(src, p, [QUOTE] + BasicEscaped(s) + [QUOTE])
    ensures BasicStringAt(src, p) == Ok((s, p + |BasicEscaped(s)| + 2))
  {
    hide *;
    BasicTokenParts(src, p, s);
    BasicBodyRoundTrip(src, p + 1, s, p + 1 + |BasicEscaped(s)|);
    TokenOfBasicParts(src, p, s, p + 1 + |BasicEscaped(s)|);
  }

  lemma BasicTokenParts(src: seq<Byte>, p: nat, s: seq<Byte>)
    requires ValidUtf8(s) && Holds(src, p, [QUOTE] + BasicEscaped(s) + [QUOTE])
    ensures var q := p + 1 + |BasicEscaped(s)|;
      && q < |src| && src[p] == src[q] == QUOTE && Holds(src, p + 1, BasicEscaped(s)) && WellCoded(src[p..q + 1], 0)
  {
    hide ValidUtf8, WellCoded, BasicEscaped;
    var e := BasicEscaped(s);
    EscapedValid(s);
    Wrapped([QUOTE], e, [QUOTE]);
    TokenWellCoded(src, p, [QUOTE] + e + [QUOTE]);
    HoldsSplit(src, p, [QUOTE] + e, [QUOTE]);
    HoldsSplit(src, p, [QUOTE], e);
    assert src[p..p + 1] == [QUOTE] && src[p + 1 + |e|..p + 2 + |e|] == [QUOTE];
  }

  lemma TokenOfBasicParts(src: seq<Byte>, p: nat, s: seq<Byte>, q: nat)
    requires p < q < |src| && src[p] == src[q] == QUOTE
    requires BasicBodyEnd(src, p + 1) == q && DecodeBasic(src, p + 1, q) == Ok(s) && WellCoded(src[p..q + 1], 0)
    ensures BasicStringAt(src, p) == Ok((s, q + 1))
  {
    hide BasicBodyEnd, DecodeBasic, WellCoded;
  }

  /** A body printed without its own line does not start with a newline, which the parser would drop. */
  lemma NoNewlineInFront(src: seq<Byte>, p: nat, s: seq<Byte>)
    requires Holds(src, p, MlPrinted(s, 0)) && LF !in MlPrinted(s, 0) && ThreeQuotesAt(src, p + |MlPrinted(s, 0)|)
    ensures NewlineLength(src, p) == 0
  {
    var e := MlPrinted(s, 0);
    assert e != [] ==> src[p] == e[0] && e[0] in e;
    assert |e| > 1 ==> src[p + 1] == e[1] && e[1] in e;
    if s != [] {
      MlPrintedStep(s, 0);
      var h := Head(s, 0);
      assert forall k :: 0 <= k < |h| ==> e[k] == h[k];
    }
  }

  /** Where the body of a printed multi-line token starts, once the parser has dropped the newline in front. */
  lemma BodyStart(src: seq<Byte>, p: nat, s: seq<Byte>, ownLine: bool)
    requires Holds(src, p, Opening(ownLine)) && Holds(src, p + |Opening(ownLine)|, MlPrinted(s, 0))
    requires ClosesAt(src, p + |Opening(ownLine)| + |MlPrinted(s, 0)|, ownLine)
    requires ownLine || LF !in MlPrinted(s, 0)
    ensures ThreeQuotesAt(src, p) && p + 3 + NewlineLength(src, p + 3) == p + |Opening(ownLine)|
    ensures MlBodyEnd(src, p + 3) == MlBodyEnd(src, p + |Opening(ownLine)|)
  {
    hide MlBodyEnd, MlPrinted, Holds;
    var open := Opening(ownLine);
    HoldsAt(src, p, open, 0);
    HoldsAt(src, p, open, 1);
    HoldsAt(src, p, open, 2);
    if ownLine {
      HoldsAt(src, p, open, 3);
      MlBodyStep(src, p + 3);
    } else {
      NoNewlineInFront(src, p + 3, s);
    }
  }

  /** Parsing the parts of a token gives the token. */
  lemma TokenOfParts(src: seq<Byte>, p: nat, start: nat, s: seq<Byte>, end: nat)
    requires ThreeQuotesAt(src, p) && start == p + 3 + NewlineLength(src, p + 3)
    requires MlBodyEnd(src, p + 3) == MlBodyEnd(src, start) && Decodes(src, start, s, end)
    requires p <= end <= |src| && WellCoded(src[p..end], 0)
    ensures MlStringAt(src, p) == Ok((s, end))
  {
    hide MlBodyEnd, DecodeMl, WellCoded, ClosingQuotes, NewlineLength, ThreeQuotesAt;
  }

  lemma ClosingHolds(src: seq<Byte>, p: nat, ownLine: bool)
    requires Holds(src, p, Closing(ownLine))
    requires p + |Closing(ownLine)| < |src| ==> src[p + |Closing(ownLine)|] != QUOTE
    ensures ClosesAt(src, p, ownLine)
  {
    var close := Closing(ownLine);
    assert forall k :: 0 <= k < |close| ==> src[p + k] == close[k];
  }

  lemma MlTokenValid(s: seq<Byte>, ownLine: bool)
    requires ValidUtf8(s)
    ensures ValidUtf8(Opening(ownLine) + MlPrinted(s, 0) + Closing(ownLine))
  {
    EscapedValid(s);
    Wrapped(Opening(ownLine), MlPrinted(s, 0), Closing(ownLine));
  }

  lemma MlTokenParts(src: seq<Byte>, p: nat, s: seq<Byte>, ownLine: bool)
    requires ValidUtf8(s) && Holds(src, p, Opening(ownLine) + MlPrinted(s, 0) + Closing(ownLine))
    ensures var open, body, close := Opening(ownLine), MlPrinted(s, 0), Closing(ownLine);
      && Holds(src, p, open) && Holds(src, p + |open|, body) && Holds(src, p + |open| + |body|, close)
      && p + |open| + |body| + |close| <= |src| && WellCoded(src[p..p + |open| + |body| + |close|], 0)
  {
    hide ValidUtf8, WellCoded, MlPrinted, Opening, Closing;
    var open, body, close := Opening(ownLine), MlPrinted(s, 0), Closing(ownLine);
    MlTokenValid(s, ownLine);
    TokenWellCoded(src, p, open + body + close);
    HoldsSplit(src, p, open + body, close);
    HoldsSplit(src, p, open, body);
    HoldsWithin(src, p, open + body + close);
  }

  /** A printed multi-line string parses back, and nothing behind it is consumed. */
  lemma MlRoundTrip(src: seq<Byte>, p: nat, s: seq<Byte>, ownLine: bool)
    requires ValidUtf8(s) && (ownLine || LF !in MlPrinted(s, 0))
    requires Holds(src, p, Opening(ownLine) + MlPrinted(s, 0) + Closing(ownLine))
    requires var end := p + |Opening(ownLine)| + |MlPrinted(s, 0)| + |Closing(ownLine)|; end < |src| ==>
      src[end] != QUOTE
    ensures MlStringAt(src, p) == Ok((s, p + |Opening(ownLine)| + |MlPrinted(s, 0)| + |Closing(ownLine)|))
  {
    hide *;
    MlTokenParts(src, p, s, ownLine);
    var start := p + |Opening(ownLine)|;
    ClosingHolds(src, start + |MlPrinted(s, 0)|, ownLine);
    BodyStart(src, p, s, ownLine);
    MlBodyRoundTrip(src, start, s, 0, ownLine);
    TokenOfParts(src, p, start, s, start + |MlPrinted(s, 0)| + |Closing(ownLine)|);
  }

  /** Printing and then parsing any valid UTF-8 string gives it back, whatever the width, wherever the token stands. */
  lemma PrintedStringParses(src: seq<Byte>, p: nat, s: seq<Byte>, width: nat, t: seq<Byte>)
    requires ValidUtf8(s) && Printed(s, width) == Some(t) && Holds(src, p, t)
    requires p + |t| < |src| ==> src[p + |t|] != QUOTE
    ensures p < |src| && src[p] == QUOTE && StringAt(src, p) == Ok((s, p + |t|))
  {
    hide ValidUtf8, BasicEscaped, BreakRuns, MlEscaped, Holds, MlStringAt, BasicStringAt;
    HoldsWithin(src, p, t);
    if (LF in s || QUOTE in s) && width != SIZE_MAX {
      var e := MlPrinted(s, 0);
      var ownLine := LF in e || width < |e| + 6;
      assert t == Opening(ownLine) + e + Closing(ownLine);
      MlRoundTrip(src, p, s, ownLine);
      OpeningQuotes(src, p, t);
    } else {
      BasicRoundTrip(src, p, s);
      OneLineStart(src, p, s);
    }
  }

  lemma OpeningQuotes(src: seq<Byte>, p: nat, t: seq<Byte>)
    requires Holds(src, p, t) && THREE <= t
    ensures ThreeQuotesAt(src, p)
  {
    assert forall k :: 0 <= k < |t| ==> src[p + k] == t[k];
  }

  /** A printed one-line string does not look like the start of a multi-line one. */
  lemma OneLineStart(src: seq<Byte>, p: nat, s: seq<Byte>)
    requires Holds(src, p, [QUOTE] + BasicEscaped(s) + [QUOTE])
    requires var end := p + |BasicEscaped(s)| + 2; end < |src| ==> src[end] != QUOTE
    ensures src[p] == QUOTE && !ThreeQuotesAt(src, p)
  {
    var t := [QUOTE] + BasicEscaped(s) + [QUOTE];
    assert forall k :: 0 <= k < |t| ==> src[p + k] == t[k];
    if s != [] {
      assert t[1] == BasicPiece(s[0])[0];
    }
  }
}
