/** The lexer terms for strings (lexer.hpp, lines 121 to 197) and what they accept. */
module StringLexer {
  import opened Combinators
  import opened Common

  const QUOTE: Byte := 0x22
  const BACKSLASH: Byte := 0x5C
  const LF: Byte := 0x0A
  const CR: Byte := 0x0D

  const QUOTATION := Character(0x22)
  const AFTER_SLASH := Either(Character(0x5C), Character(0x7F))
  const AFTER_QUOTE := Either(Character(0x22), AFTER_SLASH)
  const AFTER_TAB := Either(InRange(0x0A, 0x1F), AFTER_QUOTE)
  const BASIC_UNESCAPED := Exclude(Either(InRange(0x00, 0x08), AFTER_TAB))

  const HEX_UPPER_LOWER := Either(InRange(0x41, 0x46), InRange(0x61, 0x66))
  const HEX_DIG := Either(InRange(0x30, 0x39), HEX_UPPER_LOWER)
  const ESCAPE_UNICODE_SHORT := Sequence(Character(0x75), Exactly(HEX_DIG, 4))
  const ESCAPE_UNICODE_LONG := Sequence(Character(0x55), Exactly(HEX_DIG, 8))
  const ESCAPE_UNICODE := Either(ESCAPE_UNICODE_SHORT, ESCAPE_UNICODE_LONG)
  const ESCAPE_FROM_T := Either(Character(0x74), ESCAPE_UNICODE)
  const ESCAPE_FROM_R := Either(Character(0x72), ESCAPE_FROM_T)
  const ESCAPE_FROM_N := Either(Character(0x6E), ESCAPE_FROM_R)
  const ESCAPE_FROM_F := Either(Character(0x66), ESCAPE_FROM_N)
  const ESCAPE_FROM_B := Either(Character(0x62), ESCAPE_FROM_F)
  const ESCAPE_FROM_SLASH := Either(Character(0x5C), ESCAPE_FROM_B)
  const ESCAPE_SEQ_CHAR := Either(Character(0x22), ESCAPE_FROM_SLASH)
  const ESCAPED := Sequence(Character(0x5C), ESCAPE_SEQ_CHAR)

  const BASIC_CHAR := Either(BASIC_UNESCAPED, ESCAPED)
  const BASIC_STRING := Sequence(QUOTATION, Sequence(Unlimited(BASIC_CHAR), QUOTATION))

  const WS_CHAR := Either(Character(0x20), Character(0x09))
  const WS := AtLeast(WS_CHAR, 1)
  const CR_LF := Sequence(Character(0x0D), Character(0x0A))
  const NEWLINE := Either(Character(0x0A), CR_LF)

  const DELIM := Exactly(QUOTATION, 3)
  const ML_AFTER_SLASH := Either(Character(0x7F), DELIM)
  const ML_AFTER_CONTROL := Either(Character(0x5C), ML_AFTER_SLASH)
  const ML_AFTER_TAB := Either(InRange(0x0A, 0x1F), ML_AFTER_CONTROL)
  const ML_UNESCAPED := Exclude(Either(InRange(0x00, 0x08), ML_AFTER_TAB))
  const WS_OR_NEWLINE := Either(WS, NEWLINE)
  const NEWLINE_AND_MORE := Sequence(NEWLINE, Unlimited(WS_OR_NEWLINE))
  const ESCAPED_NEWLINE := Sequence(Character(0x5C), Sequence(Maybe(WS), NEWLINE_AND_MORE))
  const ML_CHAR := Either(ML_UNESCAPED, ESCAPED)
  const ML_LINE := Either(NEWLINE, ESCAPED_NEWLINE)
  const ML_ITEM := Either(ML_CHAR, ML_LINE)
  const ML_CLOSE_MORE := Sequence(Maybe(QUOTATION), Maybe(QUOTATION))
  const ML_CLOSE := Sequence(DELIM, ML_CLOSE_MORE)
  const ML_STRING := Sequence(DELIM, Sequence(Unlimited(ML_ITEM), ML_CLOSE))
  const ML_UNESCAPED_SEQ := Either(ML_UNESCAPED, NEWLINE)

  /** The lexer never repeats something nullable without bound, so every term above terminates. */
  lemma EscapesProductive()
    ensures Productive(ESCAPE_UNICODE_SHORT) && Productive(ESCAPE_UNICODE_LONG)
    ensures Productive(ESCAPE_SEQ_CHAR) && !Nullable(ESCAPE_SEQ_CHAR)
    ensures Productive(ESCAPED) && !Nullable(ESCAPED)
  {
    hide Match, MatchMany, MatchTimes, Productive, Nullable;
    LeavesProductive();
    UnicodeMatch([], 0);
    EitherProductive(Character(0x74), ESCAPE_UNICODE);
    EitherProductive(Character(0x72), ESCAPE_FROM_T);
    EitherProductive(Character(0x6E), ESCAPE_FROM_R);
    EitherProductive(Character(0x66), ESCAPE_FROM_N);
    EitherProductive(Character(0x62), ESCAPE_FROM_F);
    EitherProductive(Character(0x5C), ESCAPE_FROM_B);
    EitherProductive(Character(0x22), ESCAPE_FROM_SLASH);
    SequenceProductive(Character(0x5C), ESCAPE_SEQ_CHAR);
  }

  lemma BasicProductive()
    ensures Productive(BASIC_UNESCAPED) && !Nullable(BASIC_UNESCAPED)
    ensures Productive(BASIC_CHAR) && !Nullable(BASIC_CHAR) && Productive(BASIC_STRING)
  {
    hide Match, MatchMany, MatchTimes, Productive, Nullable;
    LeavesProductive();
    UnescapedMatch([], 0);
    EscapesProductive();
    EitherProductive(BASIC_UNESCAPED, ESCAPED);
    UnlimitedMatch(BASIC_CHAR, [], 0);
    SequenceProductive(Unlimited(BASIC_CHAR), QUOTATION);
    SequenceProductive(QUOTATION, Sequence(Unlimited(BASIC_CHAR), QUOTATION));
  }

  lemma NewlinesProductive()
    ensures Productive(NEWLINE) && !Nullable(NEWLINE) && Productive(WS) && !Nullable(WS)
    ensures Productive(WS_OR_NEWLINE) && !Nullable(WS_OR_NEWLINE)
    ensures Productive(NEWLINE_AND_MORE) && Productive(Sequence(Maybe(WS), NEWLINE_AND_MORE))
    ensures Productive(ESCAPED_NEWLINE) && !Nullable(ESCAPED_NEWLINE)
  {
    assert Productive(WS) && !Nullable(WS) && Productive(NEWLINE) && !Nullable(NEWLINE);
    hide Match, MatchMany, MatchTimes, Productive, Nullable;
    LeavesProductive();
    EitherProductive(WS, NEWLINE);
    UnlimitedMatch(WS_OR_NEWLINE, [], 0);
    SequenceProductive(NEWLINE, Unlimited(WS_OR_NEWLINE));
    MaybeMatch(WS, [], 0);
    SequenceProductive(Maybe(WS), NEWLINE_AND_MORE);
    SequenceProductive(Character(0x5C), Sequence(Maybe(WS), NEWLINE_AND_MORE));
  }

  lemma MlProductive()
    ensures Productive(ML_UNESCAPED) && !Nullable(ML_UNESCAPED)
    ensures Productive(ML_CHAR) && !Nullable(ML_CHAR) && Productive(ML_LINE) && !Nullable(ML_LINE)
    ensures Productive(ML_ITEM) && !Nullable(ML_ITEM) && Productive(DELIM) && Productive(ML_CLOSE_MORE)
    ensures Productive(ML_CLOSE)
    ensures Productive(Sequence(Unlimited(ML_ITEM), ML_CLOSE)) && Productive(ML_STRING)
    ensures Productive(ML_UNESCAPED_SEQ) && !Nullable(ML_UNESCAPED_SEQ)
  {
    hide Match, MatchMany, MatchTimes, Productive, Nullable;
    LeavesProductive();
    EscapesProductive();
    NewlinesProductive();
    MlUnescapedMatch([], 0);
    DelimMatch([], 0);
    EitherProductive(ML_UNESCAPED, ESCAPED);
    EitherProductive(NEWLINE, ESCAPED_NEWLINE);
    EitherProductive(ML_CHAR, ML_LINE);
    EitherProductive(ML_UNESCAPED, NEWLINE);
    UnlimitedMatch(ML_ITEM, [], 0);
    MaybeMatch(QUOTATION, [], 0);
    SequenceProductive(Maybe(QUOTATION), Maybe(QUOTATION));
    SequenceProductive(DELIM, ML_CLOSE_MORE);
    SequenceProductive(Unlimited(ML_ITEM), ML_CLOSE);
    SequenceProductive(DELIM, Sequence(Unlimited(ML_ITEM), ML_CLOSE));
  }

  // ----- The same terms in closed form -----

  /** Bytes a string may hold unescaped, quotation mark and backslash aside; tab is one of them. */
  predicate Ordinary(b: Byte) {
    b == 0x09 || (0x20 <= b && b != 0x7F)
  }

  predicate PlainAt(s: seq<Byte>, p: nat) {
    p < |s| && Ordinary(s[p]) && s[p] != QUOTE && s[p] != BACKSLASH
  }

  predicate ThreeQuotesAt(s: seq<Byte>, p: nat) {
    p + 3 <= |s| && s[p] == s[p + 1] == s[p + 2] == QUOTE
  }

  predicate MlPlainAt(s: seq<Byte>, p: nat) {
    p < |s| && Ordinary(s[p]) && s[p] != BACKSLASH && !ThreeQuotesAt(s, p)
  }

  predicate IsHex(b: Byte) {
    0x30 <= b <= 0x39 || 0x41 <= b <= 0x46 || 0x61 <= b <= 0x66
  }

  predicate HexRun(s: seq<Byte>, p: nat, n: nat) {
    p + n <= |s| && forall k :: p <= k < p + n ==> IsHex(s[k])
  }

  predicate IsSimpleEscape(c: Byte) {
    c == 0x22 || c == 0x5C || c == 0x62 || c == 0x66 || c == 0x6E || c == 0x72 || c == 0x74
  }

  /** The length of what follows the backslash of an escape sequence; 0 if nothing fits. */
  function EscapeTail(s: seq<Byte>, q: nat): (n: nat)
    ensures n > 0 ==> q + n <= |s|
  {
    if q >= |s| then 0
    else if IsSimpleEscape(s[q]) then 1
    else if s[q] == 0x75 && HexRun(s, q + 1, 4) then 5
    else if s[q] == 0x55 && HexRun(s, q + 1, 8) then 9
    else 0
  }

  /** The length of the escape sequence at p; 0 if there is none. */
  function EscapeLength(s: seq<Byte>, p: nat): (n: nat)
    ensures n > 0 ==> p + n <= |s| && n >= 2 && s[p] == BACKSLASH
  {
    if p < |s| && s[p] == BACKSLASH && EscapeTail(s, p + 1) > 0 then 1 + EscapeTail(s, p + 1) else 0
  }

  function NewlineLength(s: seq<Byte>, p: nat): (n: nat)
    ensures n > 0 ==> p + n <= |s|
  {
    if p < |s| && s[p] == LF then 1
    else if p + 2 <= |s| && s[p] == CR && s[p + 1] == LF then 2
    else 0
  }

  function Hit(p: nat, n: nat): Option<nat> {
    if n == 0 then None else Some(p + n)
  }

  lemma UnescapedMatch(s: seq<Byte>, p: nat)
    requires p <= |s|
    ensures Productive(BASIC_UNESCAPED) && !Nullable(BASIC_UNESCAPED)
    ensures Match(BASIC_UNESCAPED, s, p) == if PlainAt(s, p) then Some(p + 1) else None
  {
    hide Match, MatchMany, MatchTimes, Productive, Nullable;
    LeavesMatch(s, p);
    EitherMatch(Character(0x5C), Character(0x7F), s, p);
    EitherMatch(Character(0x22), AFTER_SLASH, s, p);
    EitherMatch(InRange(0x0A, 0x1F), AFTER_QUOTE, s, p);
    EitherMatch(InRange(0x00, 0x08), AFTER_TAB, s, p);
    ExcludeMatch(Either(InRange(0x00, 0x08), AFTER_TAB), s, p);
  }

  lemma HexDigMatch(s: seq<Byte>, p: nat)
    requires p <= |s|
    ensures Productive(HEX_DIG) && !Nullable(HEX_DIG)
    ensures Match(HEX_DIG, s, p) == if p < |s| && IsHex(s[p]) then Some(p + 1) else None
  {
    hide Match, MatchMany, MatchTimes, Productive, Nullable;
    LeavesMatch(s, p);
    EitherMatch(InRange(0x41, 0x46), InRange(0x61, 0x66), s, p);
    EitherMatch(InRange(0x30, 0x39), HEX_UPPER_LOWER, s, p);
  }

  lemma {:induction false} HexMatch(n: nat, s: seq<Byte>, p: nat)
    requires p <= |s|
    ensures Productive(HEX_DIG) && Productive(Exactly(HEX_DIG, n))
    ensures Match(Exactly(HEX_DIG, n), s, p) == MatchTimes(HEX_DIG, n, s, p)
    ensures MatchTimes(HEX_DIG, n, s, p) == if HexRun(s, p, n) then Some(p + n) else None
  {
    hide Match, MatchMany, MatchTimes, Productive, Nullable;
    HexDigMatch(s, p);
    ExactlyMatch(HEX_DIG, n, s, p);
    if n > 0 && p < |s| && IsHex(s[p]) {
      HexMatch(n - 1, s, p + 1);
    }
  }

  lemma UnicodeMatch(s: seq<Byte>, p: nat)
    requires p <= |s|
    ensures Productive(ESCAPE_UNICODE_SHORT) && Productive(ESCAPE_UNICODE_LONG)
    ensures Productive(ESCAPE_UNICODE) && !Nullable(ESCAPE_UNICODE)
    ensures Match(ESCAPE_UNICODE_SHORT, s, p)
         == if p < |s| && s[p] == 0x75 && HexRun(s, p + 1, 4) then Some(p + 5) else None
    ensures Match(ESCAPE_UNICODE_LONG, s, p)
         == if p < |s| && s[p] == 0x55 && HexRun(s, p + 1, 8) then Some(p + 9) else None
    ensures Match(ESCAPE_UNICODE, s, p) ==
      var r := Match(ESCAPE_UNICODE_SHORT, s, p); if r.Some? then r else Match(ESCAPE_UNICODE_LONG, s, p)
  {
    hide Match, MatchMany, MatchTimes, Productive, Nullable;
    LeavesMatch(s, p);
    HexMatch(4, s, p);
    HexMatch(8, s, p);
    SequenceMatch(Character(0x75), Exactly(HEX_DIG, 4), s, p);
    SequenceMatch(Character(0x55), Exactly(HEX_DIG, 8), s, p);
    EitherMatch(ESCAPE_UNICODE_SHORT, ESCAPE_UNICODE_LONG, s, p);
    if p < |s| {
      HexMatch(4, s, p + 1);
      HexMatch(8, s, p + 1);
    }
  }

  lemma EscapeCharMatch(s: seq<Byte>, p: nat)
    requires p <= |s|
    ensures Productive(ESCAPE_SEQ_CHAR) && Match(ESCAPE_SEQ_CHAR, s, p) == Hit(p, EscapeTail(s, p))
  {
    hide Match, MatchMany, MatchTimes, Productive, Nullable;
    LeavesMatch(s, p);
    UnicodeMatch(s, p);
    EitherMatch(Character(0x74), ESCAPE_UNICODE, s, p);
    EitherMatch(Character(0x72), ESCAPE_FROM_T, s, p);
    EitherMatch(Character(0x6E), ESCAPE_FROM_R, s, p);
    EitherMatch(Character(0x66), ESCAPE_FROM_N, s, p);
    EitherMatch(Character(0x62), ESCAPE_FROM_F, s, p);
    EitherMatch(Character(0x5C), ESCAPE_FROM_B, s, p);
    EitherMatch(Character(0x22), ESCAPE_FROM_SLASH, s, p);
  }

  lemma EscapedMatch(s: seq<Byte>, p: nat)
    requires p <= |s|
    ensures Productive(ESCAPED) && Match(ESCAPED, s, p) == Hit(p, EscapeLength(s, p))
  {
    hide Match, MatchMany, MatchTimes, Productive, Nullable, EscapeTail;
    LeavesMatch(s, p);
    EscapesProductive();
    SequenceMatch(Character(0x5C), ESCAPE_SEQ_CHAR, s, p);
    if p < |s| {
      EscapeCharMatch(s, p + 1);
    }
  }

  lemma BasicCharMatch(s: seq<Byte>, p: nat)
    requires p <= |s|
    ensures Productive(BASIC_CHAR) && !Nullable(BASIC_CHAR)
    ensures Match(BASIC_CHAR, s, p) == if PlainAt(s, p) then Some(p + 1) else Hit(p, EscapeLength(s, p))
  {
    hide Match, MatchMany, MatchTimes, Productive, Nullable;
    BasicProductive();
    EscapesProductive();
    UnescapedMatch(s, p);
    EscapedMatch(s, p);
    EitherMatch(BASIC_UNESCAPED, ESCAPED, s, p);
  }

  lemma NewlineMatch(s: seq<Byte>, p: nat)
    requires p <= |s|
    ensures Productive(NEWLINE) && !Nullable(NEWLINE) && Match(NEWLINE, s, p) == Hit(p, NewlineLength(s, p))
  {
    hide Match, MatchMany, MatchTimes, Productive, Nullable;
    LeavesMatch(s, p);
    SequenceMatch(Character(0x0D), Character(0x0A), s, p);
    EitherMatch(Character(0x0A), CR_LF, s, p);
    if p < |s| {
      LeavesMatch(s, p + 1);
    }
  }

  lemma DelimMatch(s: seq<Byte>, p: nat)
    requires p <= |s|
    ensures Productive(DELIM) && !Nullable(DELIM)
    ensures Match(DELIM, s, p) == if ThreeQuotesAt(s, p) then Some(p + 3) else None
  {
    hide Match, MatchMany, MatchTimes, Productive, Nullable;
    LeavesMatch(s, p);
    ExactlyMatch(QUOTATION, 3, s, p);
    if p < |s| {
      LeavesMatch(s, p + 1);
      ExactlyMatch(QUOTATION, 2, s, p + 1);
      if p + 1 < |s| {
        LeavesMatch(s, p + 2);
        ExactlyMatch(QUOTATION, 1, s, p + 2);
        if p + 2 < |s| {
          ExactlyMatch(QUOTATION, 0, s, p + 3);
        }
      }
    }
  }

  lemma MlUnescapedMatch(s: seq<Byte>, p: nat)
    requires p <= |s|
    ensures Productive(ML_UNESCAPED) && !Nullable(ML_UNESCAPED)
    ensures Match(ML_UNESCAPED, s, p) == if MlPlainAt(s, p) then Some(p + 1) else None
  {
    hide Match, MatchMany, MatchTimes, Productive, Nullable;
    LeavesMatch(s, p);
    DelimMatch(s, p);
    EitherMatch(Character(0x7F), DELIM, s, p);
    EitherMatch(Character(0x5C), ML_AFTER_SLASH, s, p);
    EitherMatch(InRange(0x0A, 0x1F), ML_AFTER_CONTROL, s, p);
    EitherMatch(InRange(0x00, 0x08), ML_AFTER_TAB, s, p);
    ExcludeMatch(Either(InRange(0x00, 0x08), ML_AFTER_TAB), s, p);
  }

  /** A body item of a multi-line string: an unescaped byte, an escape, a newline, or an escaped newline. */
  lemma MlItemMatch(s: seq<Byte>, p: nat)
    requires p <= |s|
    ensures Productive(ML_ITEM) && !Nullable(ML_ITEM) && Productive(ESCAPED_NEWLINE)
    ensures Match(ML_ITEM, s, p) ==
      if MlPlainAt(s, p) then Some(p + 1)
      else if EscapeLength(s, p) > 0 then Some(p + EscapeLength(s, p))
      else if NewlineLength(s, p) > 0 then Some(p + NewlineLength(s, p))
      else Match(ESCAPED_NEWLINE, s, p)
  {
    hide Match, MatchMany, MatchTimes, Productive, Nullable, MlPlainAt, EscapeLength, NewlineLength;
    MlProductive();
    NewlinesProductive();
    MlUnescapedMatch(s, p);
    EscapedMatch(s, p);
    NewlineMatch(s, p);
    EitherMatch(ML_UNESCAPED, ESCAPED, s, p);
    EitherMatch(NEWLINE, ESCAPED_NEWLINE, s, p);
    EitherMatch(ML_CHAR, ML_LINE, s, p);
  }

  lemma MlUnescapedSeqMatch(s: seq<Byte>, p: nat)
    requires p <= |s|
    ensures Productive(ML_UNESCAPED_SEQ) && !Nullable(ML_UNESCAPED_SEQ)
    ensures Match(ML_UNESCAPED_SEQ, s, p) == if MlPlainAt(s, p) then Some(p + 1) else Hit(p, NewlineLength(s, p))
  {
    hide Match, MatchMany, MatchTimes, Productive, Nullable, MlPlainAt, NewlineLength;
    MlProductive();
    MlUnescapedMatch(s, p);
    NewlineMatch(s, p);
    EitherMatch(ML_UNESCAPED, NEWLINE, s, p);
  }

  predicate BlankAt(s: seq<Byte>, p: nat) {
    p < |s| && (s[p] == 0x20 || s[p] == 0x09)
  }

  lemma WsCharMatch(s: seq<Byte>, p: nat)
    requires p <= |s|
    ensures Productive(WS_CHAR) && !Nullable(WS_CHAR)
    ensures Match(WS_CHAR, s, p) == if BlankAt(s, p) then Some(p + 1) else None
  {
    LeavesMatch(s, p);
    EitherMatch(Character(0x20), Character(0x09), s, p);
  }

  lemma {:induction false} BlanksMatch(s: seq<Byte>, p: nat)
    requires p <= |s|
    ensures Productive(WS_CHAR) && !Nullable(WS_CHAR)
    ensures var q := MatchMany(WS_CHAR, s, p);
      !BlankAt(s, q) && forall k :: p <= k < q ==> BlankAt(s, k)
    decreases |s| - p
  {
    hide Match, MatchMany, MatchTimes, Productive, Nullable;
    WsCharMatch(s, p);
    UnlimitedMatch(WS_CHAR, s, p);
    if BlankAt(s, p) {
      BlanksMatch(s, p + 1);
    }
  }

  /** White space takes the longest run of blanks, if there is one. */
  lemma WsMatch(s: seq<Byte>, p: nat)
    requires p <= |s|
    ensures Productive(WS) && !Nullable(WS)
    ensures Match(WS, s, p).Some? <==> BlankAt(s, p)
    ensures match Match(WS, s, p)
      case None => true
      case Some(q) => p < q && !BlankAt(s, q) && forall k :: p <= k < q ==> BlankAt(s, k)
  {
    hide MatchMany, Productive, Nullable;
    WsCharMatch(s, p);
    assert Productive(WS) && !Nullable(WS) by {
      NewlinesProductive();
    }
    assert MatchTimes(WS_CHAR, 1, s, p)
        == var r := Match(WS_CHAR, s, p); if r.Some? then MatchTimes(WS_CHAR, 0, s, r.value) else None;
    if BlankAt(s, p) {
      BlanksMatch(s, p + 1);
    }
  }

  /** An escaped newline starts with a backslash that blanks or a line break follow, never an escape character. */
  lemma EscapedNewlineStart(s: seq<Byte>, p: nat)
    requires p <= |s|
    ensures Productive(ESCAPED_NEWLINE)
    ensures Match(ESCAPED_NEWLINE, s, p).Some? ==> p + 1 < |s| && s[p] == BACKSLASH && EscapeLength(s, p) == 0
  {
    hide Match, MatchMany, MatchTimes, Productive, Nullable;
    LeavesMatch(s, p);
    NewlinesProductive();
    SequenceMatch(Character(0x5C), Sequence(Maybe(WS), NEWLINE_AND_MORE), s, p);
    if p + 1 <= |s| {
      MaybeMatch(WS, s, p + 1);
      SequenceMatch(Maybe(WS), NEWLINE_AND_MORE, s, p + 1);
      UnlimitedMatch(WS_OR_NEWLINE, s, p + 1);
      SequenceMatch(NEWLINE, Unlimited(WS_OR_NEWLINE), s, p + 1);
      NewlineMatch(s, p + 1);
      WsMatch(s, p + 1);
    }
  }

  /** The bytes of e stand in src from p on. */
  ghost predicate Holds(src: seq<Byte>, p: nat, e: seq<Byte>) {
    p + |e| <= |src| && src[p..p + |e|] == e
  }

  lemma HoldsSplit(src: seq<Byte>, p: nat, a: seq<Byte>, b: seq<Byte>)
    ensures Holds(src, p, a + b) <==> Holds(src, p, a) && Holds(src, p + |a|, b)
  {
    if p + |a| + |b| <= |src| {
      assert src[p..p + |a + b|] == src[p..p + |a|] + src[p + |a|..p + |a| + |b|];
      assert (a + b)[..|a|] == a && (a + b)[|a|..] == b;
    }
  }

  lemma HoldsAt(src: seq<Byte>, p: nat, e: seq<Byte>, k: nat)
    requires Holds(src, p, e) && k < |e|
    ensures p + |e| <= |src| && src[p + k] == e[k]
  {
    assert src[p + k] == src[p..p + |e|][k];
  }

  /** n quotation marks. */
  function Quotes(n: nat): (q: seq<Byte>)
    ensures |q| == n && forall k :: 0 <= k < n ==> q[k] == QUOTE
  {
    if n == 0 then [] else [QUOTE] + Quotes(n - 1)
  }

  /** The number of quotation marks from p on, up to five: what a closing delimiter takes. */
  function ClosingQuotes(s: seq<Byte>, p: nat): (n: nat)
    ensures 3 <= n <= 5
  {
    if p + 3 < |s| && s[p + 3] == QUOTE then
      if p + 4 < |s| && s[p + 4] == QUOTE then 5 else 4
    else 3
  }

  lemma MaybeQuoteMatch(s: seq<Byte>, p: nat)
    requires p <= |s|
    ensures Productive(Maybe(QUOTATION))
    ensures Match(Maybe(QUOTATION), s, p) == Some(if p < |s| && s[p] == QUOTE then p + 1 else p)
  {
  }

  lemma MlCloseMatch(s: seq<Byte>, p: nat)
    requires p <= |s|
    ensures Productive(ML_CLOSE)
    ensures Match(ML_CLOSE, s, p) == if ThreeQuotesAt(s, p) then Some(p + ClosingQuotes(s, p)) else None
  {
    hide Match, MatchMany, MatchTimes, Productive, Nullable;
    MlProductive();
    DelimMatch(s, p);
    SequenceMatch(DELIM, ML_CLOSE_MORE, s, p);
    if ThreeQuotesAt(s, p) {
      MaybeQuoteMatch(s, p + 3);
      SequenceMatch(Maybe(QUOTATION), Maybe(QUOTATION), s, p + 3);
      if p + 3 < |s| {
        MaybeQuoteMatch(s, p + 4);
      }
    }
  }
}
