/** `parse_basic_string` and `parse_ml_basic_string`: decoding a matched token. */
module StringParser {
  import opened Combinators
  import opened Common
  import opened Utf8
  import opened StringLexer

  /** A parser's result: a value, an error that leaves other parsers a chance, or an exception. */
  datatype Parsed<+T> = Ok(value: T) | Err | Throw

  function HexDigitValue(b: Byte): (v: nat)
    requires IsHex(b)
    ensures v < 16
  {
    if b <= 0x39 then b - 0x30 else if b <= 0x46 then b - 0x37 else b - 0x57
  }

  /** The number n hexadecimal digits from p on spell. */
  function HexValue(s: seq<Byte>, p: nat, n: nat): nat
    requires HexRun(s, p, n)
    decreases n
  {
    if n == 0 then 0 else HexValue(s, p, n - 1) * 16 + HexDigitValue(s[p + n - 1])
  }

  function Codepoint(cp: nat): Parsed<seq<Byte>> {
    if Scalar(cp) then Ok(Encode(cp)) else Throw
  }

  function SimpleEscapeValue(c: Byte): Byte
    requires IsSimpleEscape(c)
  {
    if c == 0x62 then 0x08
    else if c == 0x66 then 0x0C
    else if c == 0x6E then 0x0A
    else if c == 0x72 then 0x0D
    else if c == 0x74 then 0x09
    else c
  }

  /** What the escape sequence at p stands for. */
  function EscapeValue(s: seq<Byte>, p: nat): Parsed<seq<Byte>>
    requires EscapeLength(s, p) > 0
  {
    if IsSimpleEscape(s[p + 1]) then Ok([SimpleEscapeValue(s[p + 1])])
    else if s[p + 1] == 0x75 then Codepoint(HexValue(s, p + 2, 4))
    else Codepoint(HexValue(s, p + 2, 8))
  }

  /** The branches of `read_utf8_codepoint` on the size of the code point. */
  method ToUtf8(codepoint: nat) returns (r: Parsed<seq<Byte>>)
    ensures r == Codepoint(codepoint)
  {
    if codepoint < 0x80 {
      return Ok([codepoint]);
    } else if codepoint < 0x800 {
      return Ok([0xC0 + codepoint / 0x40, 0x80 + codepoint % 0x40]);
    } else if codepoint < 0x10000 {
      if 0xD800 <= codepoint <= 0xDFFF {
        return Throw;
      }
      return Ok([0xE0 + codepoint / 0x1000, 0x80 + codepoint / 0x40 % 0x40, 0x80 + codepoint % 0x40]);
    } else if codepoint < 0x110000 {
      return Ok([0xF0 + codepoint / 0x40000, 0x80 + codepoint / 0x1000 % 0x40,
                 0x80 + codepoint / 0x40 % 0x40, 0x80 + codepoint % 0x40]);
    }
    return Throw;
  }

  /** `read_utf8_codepoint` on the token u.... or U........, with the bit operations as arithmetic. */
  method ReadUtf8Codepoint(reg: Region, source: seq<Byte>) returns (r: Parsed<seq<Byte>>)
    requires reg.first < reg.last <= |source| && HexRun(source, reg.first + 1, reg.last - reg.first - 1)
    ensures r == Codepoint(HexValue(source, reg.first + 1, reg.last - reg.first - 1))
  {
    var codepoint := 0;
    var n := reg.last - reg.first - 1;
    for i := 0 to n
      invariant codepoint == HexValue(source, reg.first + 1, i)
    {
      codepoint := codepoint * 16 + HexDigitValue(source[reg.first + 1 + i]);
    }
    r := ToUtf8(codepoint);
  }

  /** `parse_escape_sequence`. Only an incomplete u or U escape leaves the location moved on an error. */
  method ParseEscapeSequence(loc: Location) returns (r: Parsed<seq<Byte>>)
    requires loc.Valid()
    requires (loc.iter < |loc.source| && loc.source[loc.iter] == BACKSLASH ==> loc.iter + 1 < |loc.source|)
    modifies loc
    ensures loc.Valid() && loc.iter >= old(loc.iter)
    ensures var n := EscapeLength(loc.source, old(loc.iter));
      if n > 0 then r == EscapeValue(loc.source, old(loc.iter)) && (r.Ok? ==> loc.iter == old(loc.iter) + n)
      else r == Err
    ensures !(old(loc.iter) < |loc.source| && loc.source[old(loc.iter)] == BACKSLASH) ==> loc.iter == old(loc.iter)
    ensures var next := old(loc.iter) + 1;
      next < |loc.source| && loc.source[next] != 0x75 && loc.source[next] != 0x55 && r.Err? ==>
        loc.iter == old(loc.iter)
  {
    hide Match, Productive, Nullable, Newlines, Codepoint, HexValue, HexRun;
    var first := loc.iter;
    if first == |loc.source| || loc.source[first] != BACKSLASH {
      return Err;
    }
    loc.Advance(1);
    UnicodeMatch(loc.source, loc.iter);
    var c := loc.source[loc.iter];
    if IsSimpleEscape(c) {
      loc.Advance(1);
      return Ok([SimpleEscapeValue(c)]);
    }
    if c == 0x75 {
      var token := Invoke(ESCAPE_UNICODE_SHORT, loc);
      if token.None? {
        return Err;
      }
      r := ReadUtf8Codepoint(token.value, loc.source);
      return;
    }
    if c == 0x55 {
      var token := Invoke(ESCAPE_UNICODE_LONG, loc);
      if token.None? {
        return Err;
      }
      r := ReadUtf8Codepoint(token.value, loc.source);
      return;
    }
    loc.Reset(first);
    return Err;
  }

  /** Puts bytes in front of a result. */
  function Prefix(b: seq<Byte>, r: Parsed<seq<Byte>>): Parsed<seq<Byte>> {
    if r.Ok? then Ok(b + r.value) else r
  }

  /** What the body of a basic string from p to q stands for. */
  function DecodeBasic(s: seq<Byte>, p: nat, q: nat): Parsed<seq<Byte>>
    requires q <= |s|
    decreases q - p
  {
    if p >= q then Ok([])
    else if PlainAt(s, p) then Prefix([s[p]], DecodeBasic(s, p + 1, q))
    else if EscapeLength(s, p) > 0 then
      var v := EscapeValue(s, p);
      if v.Ok? then Prefix(v.value, DecodeBasic(s, p + EscapeLength(s, p), q)) else v
    else Throw
  }

  /** The end of the body of the basic string whose body starts at p. */
  function BasicBodyEnd(s: seq<Byte>, p: nat): (q: nat)
    requires p <= |s|
    ensures p <= q <= |s|
  {
    BasicProductive();
    MatchMany(BASIC_CHAR, s, p)
  }

  /** The meaning of a basic string token at p: its value and its end. */
  function BasicStringAt(s: seq<Byte>, p: nat): Parsed<(seq<Byte>, nat)>
    requires p <= |s|
  {
    if p == |s| || s[p] != QUOTE then Err
    else
      var q := BasicBodyEnd(s, p + 1);
      if q == |s| || s[q] != QUOTE then Err
      else
        var v := DecodeBasic(s, p + 1, q);
        if v.Ok? && WellCoded(s[p..q + 1], 0) then Ok((v.value, q + 1)) else Throw
  }

  lemma {:induction false} PrefixAssoc(a: seq<Byte>, b: seq<Byte>, r: Parsed<seq<Byte>>)
    ensures Prefix(a, Prefix(b, r)) == Prefix(a + b, r)
  {
    if r.Ok? {
      assert a + (b + r.value) == a + b + r.value;
    }
  }

  lemma PrefixNothing(r: Parsed<seq<Byte>>)
    ensures Prefix([], r) == r
  {
    if r.Ok? {
      assert [] + r.value == r.value;
    }
  }

  /** The body goes on after a plain byte or an escape, and ends anywhere else. */
  lemma BasicBodyStep(s: seq<Byte>, p: nat)
    requires p <= |s|
    ensures BasicBodyEnd(s, p) ==
      if PlainAt(s, p) then BasicBodyEnd(s, p + 1)
      else if EscapeLength(s, p) > 0 then BasicBodyEnd(s, p + EscapeLength(s, p)) else p
  {
    hide Match, MatchMany, MatchTimes, Productive, Nullable, EscapeLength;
    BasicCharMatch(s, p);
    UnlimitedMatch(BASIC_CHAR, s, p);
  }

  lemma PlainMany(s: seq<Byte>, p: nat)
    requires p <= |s|
    ensures Productive(BASIC_UNESCAPED) && !Nullable(BASIC_UNESCAPED)
    ensures Match(Unlimited(BASIC_UNESCAPED), s, p) == Some(MatchMany(BASIC_UNESCAPED, s, p))
    ensures MatchMany(BASIC_UNESCAPED, s, p) == if PlainAt(s, p) then MatchMany(BASIC_UNESCAPED, s, p + 1) else p
  {
    hide Match, MatchMany, MatchTimes, Productive, Nullable;
    UnescapedMatch(s, p);
    UnlimitedMatch(BASIC_UNESCAPED, s, p);
  }

  /** q ends the body of the basic string that p is in. */
  ghost predicate InBasic(s: seq<Byte>, p: nat, q: nat) {
    p <= q < |s| && BasicBodyEnd(s, p) == q && s[q] == QUOTE
  }

  /** An unescaped byte stands for itself. */
  lemma PlainStep(s: seq<Byte>, p: nat, q: nat)
    requires InBasic(s, p, q) && PlainAt(s, p)
    ensures InBasic(s, p + 1, q) && DecodeBasic(s, p, q) == Prefix(s[p..p + 1], DecodeBasic(s, p + 1, q))
  {
    BasicBodyStep(s, p);
    assert s[p..p + 1] == [s[p]];
  }

  /** A run of unescaped bytes stands for itself. */
  lemma {:induction false} PlainRun(s: seq<Byte>, p: nat, q: nat)
    requires p <= |s| && q <= |s| && InBasic(s, p, q)
    ensures Productive(BASIC_UNESCAPED) && !Nullable(BASIC_UNESCAPED)
    ensures var e := MatchMany(BASIC_UNESCAPED, s, p);
      && InBasic(s, e, q) && !PlainAt(s, e)
      && DecodeBasic(s, p, q) == Prefix(s[p..e], DecodeBasic(s, e, q))
    decreases |s| - p
  {
    hide Match, MatchMany, Productive, Nullable, DecodeBasic, BasicBodyEnd;
    PlainMany(s, p);
    if PlainAt(s, p) {
      PlainStep(s, p, q);
      PlainRun(s, p + 1, q);
      var e := MatchMany(BASIC_UNESCAPED, s, p + 1);
      PrefixAssoc(s[p..p + 1], s[p + 1..e], DecodeBasic(s, e, q));
      assert s[p..p + 1] + s[p + 1..e] == s[p..e];
    } else {
      PrefixNothing(DecodeBasic(s, p, q));
      assert s[p..p] == [];
    }
  }

  /** What the body of a basic string stands for, given what its part before p does. */
  ghost function BasicFrom(text: seq<Byte>, s: seq<Byte>, p: nat, q: nat): Parsed<seq<Byte>>
    requires q <= |s|
  {
    Prefix(text, DecodeBasic(s, p, q))
  }

  lemma InBasicBounds(s: seq<Byte>, p: nat, q: nat)
    requires InBasic(s, p, q)
    ensures p <= q < |s|
  {
  }

  lemma BasicRunStep(text: seq<Byte>, s: seq<Byte>, p: nat, q: nat)
    requires InBasic(s, p, q)
    ensures Productive(BASIC_UNESCAPED) && !Nullable(BASIC_UNESCAPED)
    ensures var e := MatchMany(BASIC_UNESCAPED, s, p);
      && Match(Unlimited(BASIC_UNESCAPED), s, p) == Some(e)
      && InBasic(s, e, q) && !PlainAt(s, e)
      && BasicFrom(text + s[p..e], s, e, q) == BasicFrom(text, s, p, q)
  {
    hide Match, MatchMany, Productive, Nullable, DecodeBasic, BasicBodyEnd;
    InBasicBounds(s, p, q);
    PlainRun(s, p, q);
    PlainMany(s, p);
    var e := MatchMany(BASIC_UNESCAPED, s, p);
    PrefixAssoc(text, s[p..e], DecodeBasic(s, e, q));
  }

  /** At the end of a run there is an escape, or the body is over. */
  lemma BasicEscapeStep(text: seq<Byte>, s: seq<Byte>, p: nat, q: nat)
    requires InBasic(s, p, q) && !PlainAt(s, p)
    ensures s[p] == BACKSLASH ==> p + 1 < |s|
    ensures var n := EscapeLength(s, p);
      if n == 0 then p == q && s[p] == QUOTE else
        var v := EscapeValue(s, p);
        if v.Ok? then InBasic(s, p + n, q) && BasicFrom(text + v.value, s, p + n, q) == BasicFrom(text, s, p, q)
        else v == BasicFrom(text, s, p, q) == Throw
  {
    hide BasicBodyEnd;
    BasicBodyStep(s, p);
    if EscapeLength(s, p) > 0 && EscapeValue(s, p).Ok? {
      PrefixAssoc(text, EscapeValue(s, p).value, DecodeBasic(s, p + EscapeLength(s, p), q));
    }
  }

  /** A quotation mark in the body can only be its end. */
  lemma BasicClose(text: seq<Byte>, s: seq<Byte>, p: nat, q: nat)
    requires InBasic(s, p, q)
    ensures p <= q < |s|
    ensures Match(QUOTATION, s, p) == if p == q then Some(p + 1) else None
    ensures p == q ==> BasicFrom(text, s, p, q) == Ok(text)
  {
    BasicBodyStep(s, p);
    LeavesMatch(s, p);
    assert text + [] == text;
  }

  lemma BasicFromNothing(s: seq<Byte>, p: nat, q: nat)
    requires InBasic(s, p, q)
    ensures p <= q < |s| && BasicFrom([], s, p, q) == DecodeBasic(s, p, q)
  {
    PrefixNothing(DecodeBasic(s, p, q));
  }

  /** The loop of `parse_basic_string` over the body of a matched token. */
  method DecodeBasicBody(inner: Location, ghost q: nat) returns (r: Parsed<seq<Byte>>)
    requires inner.Valid() && InBasic(inner.source, inner.iter, q)
    modifies inner
    ensures inner.Valid() && r == DecodeBasic(inner.source, old(inner.iter), q)
    ensures r.Ok? ==> inner.iter == q + 1
  {
    hide DecodeBasic, BasicBodyEnd, EscapeLength, EscapeValue, Match, MatchMany, PlainAt, InBasic, BasicFrom;
    ghost var s, p := inner.source, inner.iter;
    var retval := [];
    BasicFromNothing(s, p, q);
    while true
      invariant inner.Valid() && InBasic(s, inner.iter, q)
      invariant BasicFrom(retval, s, inner.iter, q) == DecodeBasic(s, p, q)
      decreases q - inner.iter
    {
      BasicRunStep(retval, s, inner.iter, q);
      var unescaped := Invoke(Unlimited(BASIC_UNESCAPED), inner);
      if unescaped.Some? {
        retval := retval + inner.source[unescaped.value.first..unescaped.value.last];
      }
      BasicEscapeStep(retval, s, inner.iter, q);
      var escaped := ParseEscapeSequence(inner);
      if escaped.Throw? {
        return Throw;
      }
      if escaped.Ok? {
        retval := retval + escaped.value;
      }
      BasicClose(retval, s, inner.iter, q);
      assert inner.iter < |inner.source|;  // the end of the region is never reached
      var quot := Invoke(QUOTATION, inner);
      if quot.Some? {
        return Ok(retval);
      }
    }
  }

  /** The shape of the token at p. */
  lemma BasicTokenShape(s: seq<Byte>, p: nat)
    requires p <= |s|
    ensures Productive(BASIC_STRING)
    ensures Match(BASIC_STRING, s, p) ==
      if p < |s| && s[p] == QUOTE && BasicBodyEnd(s, p + 1) < |s| && s[BasicBodyEnd(s, p + 1)] == QUOTE
      then Some(BasicBodyEnd(s, p + 1) + 1) else None
  {
    hide Match, MatchMany, Productive, Nullable;
    LeavesMatch(s, p);
    BasicProductive();
    UnlimitedMatch(BASIC_CHAR, s, p);
    SequenceProductive(Unlimited(BASIC_CHAR), QUOTATION);
    SequenceMatch(QUOTATION, Sequence(Unlimited(BASIC_CHAR), QUOTATION), s, p);
    if p < |s| && s[p] == QUOTE {
      LeavesMatch(s, BasicBodyEnd(s, p + 1));
      UnlimitedMatch(BASIC_CHAR, s, p + 1);
      SequenceMatch(Unlimited(BASIC_CHAR), QUOTATION, s, p + 1);
    }
  }

  /** The token at p, and what parsing makes of it. */
  lemma BasicTokenMatch(s: seq<Byte>, p: nat)
    requires p <= |s|
    ensures Productive(BASIC_STRING)
    ensures match Match(BASIC_STRING, s, p)
      case None => BasicStringAt(s, p) == Err
      case Some(end) =>
        && p < |s| && s[p] == QUOTE && 0 < end && InBasic(s, p + 1, end - 1)
        && var v := DecodeBasic(s, p + 1, end - 1);
          BasicStringAt(s, p) == if v.Ok? && WellCoded(s[p..end], 0) then Ok((v.value, end)) else Throw
  {
    hide Match, MatchMany, Productive, Nullable, DecodeBasic, WellCoded, BasicBodyEnd;
    BasicTokenShape(s, p);
  }

  /** The part of `parse_basic_string` that decodes the matched token. */
  method DecodeBasicToken(inner: Location, ghost q: nat) returns (r: Parsed<seq<Byte>>)
    requires inner.Valid() && inner.iter < |inner.source| && inner.source[inner.iter] == QUOTE
    requires InBasic(inner.source, inner.iter + 1, q)
    modifies inner
    ensures inner.Valid() && q <= |inner.source| && r == DecodeBasic(inner.source, old(inner.iter) + 1, q)
  {
    hide DecodeBasic, InBasic, Match, Productive, Nullable, Newlines;
    InBasicBounds(inner.source, inner.iter + 1, q);
    LeavesMatch(inner.source, inner.iter);
    var quot := Invoke(QUOTATION, inner);
    assert quot.Some?;  // the token starts with a quotation mark
    r := DecodeBasicBody(inner, q);
  }

  /** `parse_basic_string`: on success the location moves past exactly the token; an error leaves it alone. */
  method ParseBasicString(loc: Location) returns (r: Parsed<(seq<Byte>, nat)>)
    requires loc.Valid()
    modifies loc
    ensures loc.Valid() && r == BasicStringAt(loc.source, old(loc.iter))
    ensures r.Ok? ==> loc.iter == r.value.1
    ensures r.Err? ==> loc.iter == old(loc.iter)
  {
    hide DecodeBasic, BasicStringAt, InBasic, Match, WellCoded, ValidUtf8, Newlines, Productive, Nullable;
    var first := loc.iter;
    BasicTokenMatch(loc.source, first);
    var token := Invoke(BASIC_STRING, loc);
    if token.None? {
      loc.Reset(first);
      return Err;
    }
    var inner := new Location(loc.source);
    inner.Reset(first);
    var value := DecodeBasicToken(inner, loc.iter - 1);
    if !value.Ok? {
      return Throw;
    }
    var text := loc.source[token.value.first..token.value.last];
    var errLoc := CheckUtf8Validity(text);
    ValidIffWellCoded(text);
    if errLoc == -1 {
      return Ok((value.value, loc.iter));
    }
    return Throw;
  }
}
