/** `parse_ml_basic_string`: decoding a matched multi-line token. */
module MlStringParser {
  import opened Combinators
  import opened Common
  import opened Utf8
  import opened StringLexer
  import opened StringParser

  /** The end of the escaped newline at p, if there is one. */
  function EscapedNewlineEnd(s: seq<Byte>, p: nat): (r: Option<nat>)
    requires p <= |s|
    ensures r.Some? ==> p < r.value <= |s|
  {
    NewlinesProductive();
    Match(ESCAPED_NEWLINE, s, p)
  }

  /** What the body of a multi-line basic string from p to q stands for. */
  function DecodeMl(s: seq<Byte>, p: nat, q: nat): Parsed<seq<Byte>>
    requires q <= |s|
    decreases q - p
  {
    if p >= q then Ok([])
    else if MlPlainAt(s, p) then Prefix([s[p]], DecodeMl(s, p + 1, q))
    else if EscapeLength(s, p) > 0 then
      var v := EscapeValue(s, p);
      if v.Ok? then Prefix(v.value, DecodeMl(s, p + EscapeLength(s, p), q)) else v
    else if NewlineLength(s, p) > 0 then
      Prefix(s[p..p + NewlineLength(s, p)], DecodeMl(s, p + NewlineLength(s, p), q))
    else if EscapedNewlineEnd(s, p).Some? then DecodeMl(s, EscapedNewlineEnd(s, p).value, q)
    else Throw
  }

  /** The end of the multi-line body that starts at p. */
  function MlBodyEnd(s: seq<Byte>, p: nat): (q: nat)
    requires p <= |s|
    ensures p <= q <= |s|
  {
    MlProductive();
    MatchMany(ML_ITEM, s, p)
  }

  /** q ends the body of the multi-line string that p is in. */
  ghost predicate InMl(s: seq<Byte>, p: nat, q: nat) {
    p <= q && ThreeQuotesAt(s, q) && MlBodyEnd(s, p) == q
  }

  /** What the body of a multi-line string stands for, given what its part before p does. */
  ghost function MlFrom(text: seq<Byte>, s: seq<Byte>, p: nat, q: nat): Parsed<seq<Byte>>
    requires q <= |s|
  {
    Prefix(text, DecodeMl(s, p, q))
  }

  lemma MlFromNothing(s: seq<Byte>, p: nat, q: nat)
    requires InMl(s, p, q)
    ensures p <= q < |s| && MlFrom([], s, p, q) == DecodeMl(s, p, q)
  {
    PrefixNothing(DecodeMl(s, p, q));
  }

  /** The item at p, when the body goes on there. */
  function ItemLength(s: seq<Byte>, p: nat): (n: nat)
    requires p <= |s|
    ensures p + n <= |s|
  {
    if MlPlainAt(s, p) then 1
    else if EscapeLength(s, p) > 0 then EscapeLength(s, p)
    else if NewlineLength(s, p) > 0 then NewlineLength(s, p)
    else if EscapedNewlineEnd(s, p).Some? then EscapedNewlineEnd(s, p).value - p
    else 0
  }

  /** The body goes on after an item, and ends where none starts. */
  lemma MlBodyStep(s: seq<Byte>, p: nat)
    requires p <= |s|
    ensures MlBodyEnd(s, p) == if ItemLength(s, p) > 0 then MlBodyEnd(s, p + ItemLength(s, p)) else p
  {
    hide Match, MatchMany, MatchTimes, Productive, Nullable, MlPlainAt, EscapeLength, NewlineLength;
    MlItemMatch(s, p);
    UnlimitedMatch(ML_ITEM, s, p);
  }

  /** Stepping over one item stays in the body; where no item starts, the body ends. */
  lemma ItemStep(s: seq<Byte>, p: nat, q: nat)
    requires InMl(s, p, q)
    ensures if ItemLength(s, p) > 0 then p < q && InMl(s, p + ItemLength(s, p), q) else p == q
  {
    hide MlBodyEnd, ItemLength;
    MlBodyStep(s, p);
  }

  /** One unescaped byte or newline, which stands for itself. */
  function PlainLength(s: seq<Byte>, p: nat): (n: nat)
    ensures n > 0 ==> p + n <= |s|
  {
    if MlPlainAt(s, p) then 1 else NewlineLength(s, p)
  }

  lemma MlPlainStep(s: seq<Byte>, p: nat, q: nat)
    requires InMl(s, p, q) && PlainLength(s, p) > 0
    ensures var n := PlainLength(s, p);
      p + n <= q && InMl(s, p + n, q) && DecodeMl(s, p, q) == Prefix(s[p..p + n], DecodeMl(s, p + n, q))
  {
    ItemStep(s, p, q);
    assert MlPlainAt(s, p) ==> s[p..p + 1] == [s[p]];
  }

  lemma MlPlainMany(s: seq<Byte>, p: nat)
    requires p <= |s|
    ensures Productive(ML_UNESCAPED_SEQ) && !Nullable(ML_UNESCAPED_SEQ)
    ensures Match(Unlimited(ML_UNESCAPED_SEQ), s, p) == Some(MatchMany(ML_UNESCAPED_SEQ, s, p))
    ensures MatchMany(ML_UNESCAPED_SEQ, s, p) ==
      if PlainLength(s, p) == 0 then p else MatchMany(ML_UNESCAPED_SEQ, s, p + PlainLength(s, p))
  {
    hide Match, MatchMany, MatchTimes, Productive, Nullable, MlPlainAt, NewlineLength;
    MlUnescapedSeqMatch(s, p);
    UnlimitedMatch(ML_UNESCAPED_SEQ, s, p);
  }

  /** A run of unescaped bytes and newlines stands for itself. */
  lemma {:induction false} MlPlainRun(s: seq<Byte>, p: nat, q: nat)
    requires InMl(s, p, q) && p <= |s|
    ensures Productive(ML_UNESCAPED_SEQ) && !Nullable(ML_UNESCAPED_SEQ)
    ensures var e := MatchMany(ML_UNESCAPED_SEQ, s, p);
      && InMl(s, e, q) && PlainLength(s, e) == 0 && q <= |s|
      && DecodeMl(s, p, q) == Prefix(s[p..e], DecodeMl(s, e, q))
    decreases |s| - p
  {
    hide *;
    MlPlainMany(s, p);
    var n := PlainLength(s, p);
    if n > 0 {
      MlPlainStep(s, p, q);
      MlPlainRun(s, p + n, q);
      var e := MatchMany(ML_UNESCAPED_SEQ, s, p + n);
      PrefixAssoc(s[p..p + n], s[p + n..e], DecodeMl(s, e, q));
      assert s[p..p + n] + s[p + n..e] == s[p..e];
    } else {
      MlFromNothing(s, p, q);
      PrefixNothing(DecodeMl(s, p, q));
      assert s[p..p] == [];
    }
  }

  lemma MlRunStep(text: seq<Byte>, s: seq<Byte>, p: nat, q: nat)
    requires InMl(s, p, q)
    ensures Productive(ML_UNESCAPED_SEQ) && !Nullable(ML_UNESCAPED_SEQ)
    ensures var e := MatchMany(ML_UNESCAPED_SEQ, s, p);
      && Match(Unlimited(ML_UNESCAPED_SEQ), s, p) == Some(e)
      && InMl(s, e, q) && PlainLength(s, e) == 0
      && MlFrom(text + s[p..e], s, e, q) == MlFrom(text, s, p, q)
  {
    MlPlainRun(s, p, q);
    MlPlainMany(s, p);
    var e := MatchMany(ML_UNESCAPED_SEQ, s, p);
    PrefixAssoc(text, s[p..e], DecodeMl(s, e, q));
  }

  /** At the end of a run there is an escape, an escaped newline, or the body is over. */
  lemma MlEscapeStep(text: seq<Byte>, s: seq<Byte>, p: nat, q: nat)
    requires InMl(s, p, q) && PlainLength(s, p) == 0
    ensures p <= q < |s| && (s[p] == BACKSLASH ==> p + 1 < |s|)
    ensures var n := EscapeLength(s, p);
      if n == 0 then
        && (p == q ==> s[p] == QUOTE)
        && (p < q ==> EscapedNewlineEnd(s, p).Some? && s[p] == BACKSLASH && s[p + 1] != 0x75 && s[p + 1] != 0x55)
      else
        var v := EscapeValue(s, p);
        if v.Ok? then InMl(s, p + n, q) && MlFrom(text + v.value, s, p + n, q) == MlFrom(text, s, p, q)
        else v == MlFrom(text, s, p, q) == Throw
  {
    ItemStep(s, p, q);
    EscapedNewlineStart(s, p);
    if EscapeLength(s, p) > 0 && EscapeValue(s, p).Ok? {
      PrefixAssoc(text, EscapeValue(s, p).value, DecodeMl(s, p + EscapeLength(s, p), q));
    }
  }

  /** An escaped newline stands for nothing. */
  lemma MlNewlineStep(text: seq<Byte>, s: seq<Byte>, p: nat, q: nat)
    requires InMl(s, p, q)
    ensures Productive(ESCAPED_NEWLINE) && p <= q <= |s| && EscapedNewlineEnd(s, p) == Match(ESCAPED_NEWLINE, s, p)
    ensures match EscapedNewlineEnd(s, p)
      case None => true
      case Some(e) => InMl(s, e, q) && MlFrom(text, s, e, q) == MlFrom(text, s, p, q)
  {
    hide Match, MatchMany, Productive, Nullable, MlBodyEnd;
    ItemStep(s, p, q);
    EscapedNewlineStart(s, p);
  }

  /** Three quotation marks can only be the end of the body. */
  lemma MlClosing(text: seq<Byte>, s: seq<Byte>, p: nat, q: nat)
    requires InMl(s, p, q)
    ensures Productive(ML_CLOSE) && p <= q < |s|
    ensures Match(ML_CLOSE, s, p) == if p == q then Some(p + ClosingQuotes(s, p)) else None
    ensures p == q ==> MlFrom(text, s, p, q) == Ok(text)
  {
    MlCloseMatch(s, p);
    ItemStep(s, p, q);
    assert text + [] == text;
  }

  /** The part of the loop body that handles an escape sequence, then an escaped newline. */
  method TakeEscapes(text: seq<Byte>, inner: Location, ghost q: nat) returns (r: Parsed<seq<Byte>>)
    requires inner.Valid() && InMl(inner.source, inner.iter, q) && PlainLength(inner.source, inner.iter) == 0
    modifies inner
    ensures inner.Valid() && (r.Ok? || r.Throw?) && q <= |inner.source|
    ensures r.Throw? ==> MlFrom(text, inner.source, old(inner.iter), q) == Throw
    ensures r.Ok? ==> InMl(inner.source, inner.iter, q) && inner.iter >= old(inner.iter)
    ensures r.Ok? && inner.iter == old(inner.iter) ==> inner.iter == q
    ensures r.Ok? ==> MlFrom(r.value, inner.source, inner.iter, q) == MlFrom(text, inner.source, old(inner.iter), q)
  {
    hide EscapeLength, EscapeValue, EscapedNewlineEnd, Match, PlainLength, InMl, MlFrom, Newlines;
    MlEscapeStep(text, inner.source, inner.iter, q);
    var retval := text;
    var escaped := ParseEscapeSequence(inner);
    if escaped.Throw? {
      return Throw;
    }
    if escaped.Ok? {
      retval := retval + escaped.value;
    }
    MlNewlineStep(retval, inner.source, inner.iter, q);
    var escapedNewline := Invoke(ESCAPED_NEWLINE, inner);
    return Ok(retval);
  }

  /** The loop of `parse_ml_basic_string` over the body of a matched token. */
  method DecodeMlBody(inner: Location, ghost q: nat) returns (r: Parsed<seq<Byte>>, delim: Region)
    requires inner.Valid() && InMl(inner.source, inner.iter, q)
    modifies inner
    ensures inner.Valid() && q <= |inner.source| && r == DecodeMl(inner.source, old(inner.iter), q)
    ensures q < |inner.source|
    ensures r.Ok? ==> delim == Region(q, q + ClosingQuotes(inner.source, q))
  {
    hide DecodeMl, Match, MatchMany, PlainLength, InMl, MlFrom, ClosingQuotes, Newlines;
    ghost var s, p := inner.source, inner.iter;
    var retval := [];
    delim := Region(0, 0);
    MlFromNothing(s, p, q);
    while true
      invariant inner.Valid() && InMl(s, inner.iter, q)
      invariant MlFrom(retval, s, inner.iter, q) == DecodeMl(s, p, q)
      decreases q - inner.iter
    {
      MlRunStep(retval, s, inner.iter, q);
      var unescaped := Invoke(Unlimited(ML_UNESCAPED_SEQ), inner);
      if unescaped.Some? {
        retval := retval + inner.source[unescaped.value.first..unescaped.value.last];
      }
      var escaped := TakeEscapes(retval, inner, q);
      if escaped.Throw? {
        return Throw, delim;
      }
      retval := escaped.value;
      MlClosing(retval, s, inner.iter, q);
      assert inner.iter < |inner.source|;  // the end of the region is never reached
      var close := Invoke(ML_CLOSE, inner);
      if close.Some? {
        return Ok(retval), close.value;
      }
    }
  }

  /** The newline right after the opening delimiter is an item of the body. */
  lemma SkipNewline(s: seq<Byte>, p: nat)
    requires p <= |s| && ThreeQuotesAt(s, MlBodyEnd(s, p))
    ensures InMl(s, p + NewlineLength(s, p), MlBodyEnd(s, p))
  {
    ItemStep(s, p, MlBodyEnd(s, p));
  }

  /** What the token at p, whose body ends at q, stands for. */
  function MlTokenValue(s: seq<Byte>, p: nat, q: nat): (r: Parsed<seq<Byte>>)
    requires q <= |s|
    ensures r.Ok? || r.Throw?
  {
    var v := DecodeMl(s, p + 3 + NewlineLength(s, p + 3), q);
    if v.Ok? then Ok(v.value + Quotes(ClosingQuotes(s, q) - 3)) else Throw
  }

  /** The meaning of a multi-line basic string token at p: its value and its end. */
  function MlStringAt(s: seq<Byte>, p: nat): Parsed<(seq<Byte>, nat)>
    requires p <= |s|
  {
    if !ThreeQuotesAt(s, p) then Err
    else
      var q := MlBodyEnd(s, p + 3);
      if !ThreeQuotesAt(s, q) then Err
      else
        var end, v := q + ClosingQuotes(s, q), MlTokenValue(s, p, q);
        if v.Ok? && WellCoded(s[p..end], 0) then Ok((v.value, end)) else Throw
  }

  /** The token at p, and what parsing makes of it. */
  lemma MlTokenMatch(s: seq<Byte>, p: nat)
    requires p <= |s|
    ensures Productive(ML_STRING)
    ensures match Match(ML_STRING, s, p)
      case None => MlStringAt(s, p) == Err
      case Some(end) =>
        && ThreeQuotesAt(s, p)
        && var q := MlBodyEnd(s, p + 3);
          && ThreeQuotesAt(s, q) && end == q + ClosingQuotes(s, q)
          && var v := MlTokenValue(s, p, q);
            MlStringAt(s, p) == if v.Ok? && WellCoded(s[p..end], 0) then Ok((v.value, end)) else Throw
  {
    hide Match, MatchMany, Productive, MlTokenValue, WellCoded, MlBodyEnd, ClosingQuotes;
    MlTokenShape(s, p);
  }

  lemma MlTokenShape(s: seq<Byte>, p: nat)
    requires p <= |s|
    ensures Productive(ML_STRING)
    ensures Match(ML_STRING, s, p) ==
      if ThreeQuotesAt(s, p) && ThreeQuotesAt(s, MlBodyEnd(s, p + 3))
      then Some(MlBodyEnd(s, p + 3) + ClosingQuotes(s, MlBodyEnd(s, p + 3))) else None
  {
    hide Match, MatchMany, Productive, Nullable, ClosingQuotes, ThreeQuotesAt;
    MlProductive();
    DelimMatch(s, p);
    UnlimitedMatch(ML_ITEM, s, p);
    SequenceMatch(Unlimited(ML_ITEM), ML_CLOSE, s, p);
    SequenceMatch(DELIM, Sequence(Unlimited(ML_ITEM), ML_CLOSE), s, p);
    if ThreeQuotesAt(s, p) {
      UnlimitedMatch(ML_ITEM, s, p + 3);
      SequenceMatch(Unlimited(ML_ITEM), ML_CLOSE, s, p + 3);
      MlCloseMatch(s, MlBodyEnd(s, p + 3));
    }
  }

  /** Attaches the quotation marks of the closing delimiter that belong to the text. */
  method AttachQuotes(text: seq<Byte>, size: nat) returns (retval: seq<Byte>)
    requires 3 <= size <= 5
    ensures retval == text + Quotes(size - 3)
  {
    assert Quotes(2) == [QUOTE] + Quotes(1) == [QUOTE, QUOTE];
    retval := text;
    if size == 4 {
      retval := retval + [QUOTE];
    } else if size == 5 {
      retval := retval + [QUOTE, QUOTE];
    }
  }

  /** The part of `parse_ml_basic_string` that decodes the matched token. */
  method DecodeMlToken(inner: Location) returns (r: Parsed<seq<Byte>>)
    requires inner.Valid() && ThreeQuotesAt(inner.source, inner.iter)
    requires ThreeQuotesAt(inner.source, MlBodyEnd(inner.source, inner.iter + 3))
    modifies inner
    ensures inner.Valid()
    ensures r == MlTokenValue(inner.source, old(inner.iter), MlBodyEnd(inner.source, old(inner.iter) + 3))
  {
    hide DecodeMl, InMl, Match, ClosingQuotes, NewlineLength, MlBodyEnd, Newlines;
    ghost var start := inner.iter + 3;
    SkipNewline(inner.source, start);
    DelimMatch(inner.source, inner.iter);
    var delim := Invoke(DELIM, inner);
    assert delim.Some?;  // the token starts with three quotation marks
    NewlineMatch(inner.source, start);
    var newline := Invoke(NEWLINE, inner);
    ghost var q := MlBodyEnd(inner.source, start);
    var value, close := DecodeMlBody(inner, q);
    if !value.Ok? {
      return Throw;
    }
    var retval := AttachQuotes(value.value, close.last - close.first);
    return Ok(retval);
  }

  /** `parse_ml_basic_string`: on success the location moves past exactly the token; an error leaves it alone. */
  method ParseMlBasicString(loc: Location) returns (r: Parsed<(seq<Byte>, nat)>)
    requires loc.Valid()
    modifies loc
    ensures loc.Valid() && r == MlStringAt(loc.source, old(loc.iter))
    ensures r.Ok? ==> loc.iter == r.value.1
    ensures r.Err? ==> loc.iter == old(loc.iter)
  {
    hide MlTokenValue, MlStringAt, Match, WellCoded, ValidUtf8, ClosingQuotes, MlBodyEnd, Newlines;
    var first := loc.iter;
    MlTokenMatch(loc.source, first);
    var token := Invoke(ML_STRING, loc);
    if token.None? {
      loc.Reset(first);
      return Err;
    }
    var inner := new Location(loc.source);
    inner.Reset(first);
    var value := DecodeMlToken(inner);
    if !value.Ok? {
      return Throw;
    }
    var text := loc.source[token.value.first..token.value.last];
    var errLoc := CheckUtf8Validity(text);
    ValidIffWellCoded(text);
    if errLoc == -1 {
      return Ok((value.value, loc.iter));
    }
    return Throw;
  }

  /** What `parse_string` makes of a double-quoted string. */
  function StringAt(s: seq<Byte>, p: nat): Parsed<(seq<Byte>, nat)>
    requires p <= |s|
  {
    if ThreeQuotesAt(s, p) then MlStringAt(s, p) else BasicStringAt(s, p)
  }

  /** `parse_string`, its single-quoted cases left out. */
  method ParseString(loc: Location) returns (r: Parsed<(seq<Byte>, nat)>)
    requires loc.Valid() && loc.iter < |loc.source| && loc.source[loc.iter] == QUOTE
    modifies loc
    ensures loc.Valid() && r == StringAt(loc.source, old(loc.iter))
    ensures r.Ok? ==> loc.iter == r.value.1
    ensures r.Err? ==> loc.iter == old(loc.iter)
  {
    hide MlStringAt, BasicStringAt;
    if loc.iter + 1 != |loc.source| && loc.source[loc.iter + 1] == QUOTE &&
       loc.iter + 2 != |loc.source| && loc.source[loc.iter + 2] == QUOTE {
      r := ParseMlBasicString(loc);
    } else {
      r := ParseBasicString(loc);
    }
  }
}
