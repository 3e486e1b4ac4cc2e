/** The printers of basic strings: `escape_basic_string` and `escape_ml_basic_string`. */
module StringPrinter {
  import opened Common
  import opened StringLexer

  /** Control characters have no short escape unless listed here. */
  function ShortEscape(c: Byte): (r: Option<Byte>)
    ensures r.Some? ==> IsSimpleEscape(r.value)
  {
    if c == BACKSLASH then Some(0x5C)
    else if c == QUOTE then Some(0x22)
    else if c == 0x08 then Some(0x62)
    else if c == 0x09 then Some(0x74)
    else if c == 0x0C then Some(0x66)
    else if c == LF then Some(0x6E)
    else if c == CR then Some(0x72)
    else None
  }

  predicate IsControl(c: Byte) {
    c <= 0x08 || 0x0A <= c <= 0x1F || c == 0x7F
  }

  /** The escape \u00XX. */
  function HexEscape(c: Byte): seq<Byte>
    requires c < 0x80
  {
    [BACKSLASH, 0x75, 0x30, 0x30, 48 + c / 16, (if c % 16 < 10 then 48 else 55) + c % 16]
  }

  /** How a basic string spells one byte. */
  function BasicPiece(c: Byte): (e: seq<Byte>)
    ensures |e| > 0
  {
    if ShortEscape(c).Some? then [BACKSLASH, ShortEscape(c).value]
    else if IsControl(c) then HexEscape(c)
    else [c]
  }

  function BasicEscaped(s: seq<Byte>): seq<Byte> {
    if s == [] then [] else BasicPiece(s[0]) + BasicEscaped(s[1..])
  }

  /** How a multi-line string spells one byte; a carriage return only gets here when no line feed follows. */
  function MlPiece(c: Byte): (e: seq<Byte>)
    ensures |e| > 0
  {
    if c == QUOTE || c == LF then [c] else BasicPiece(c)
  }

  predicate CrLfAhead(s: seq<Byte>) {
    |s| > 1 && s[0] == CR && s[1] == LF
  }

  function MlEscaped(s: seq<Byte>): seq<Byte> {
    if s == [] then []
    else if CrLfAhead(s) then [CR, LF] + MlEscaped(s[2..])
    else MlPiece(s[0]) + MlEscaped(s[1..])
  }

  /** Puts a backslash before every third quotation mark in a row, n of them having just gone by. */
  function BreakRuns(t: seq<Byte>, n: nat): seq<Byte> {
    if t == [] then []
    else if t[0] != QUOTE then [t[0]] + BreakRuns(t[1..], 0)
    else if n < 2 then [QUOTE] + BreakRuns(t[1..], n + 1)
    else [BACKSLASH, QUOTE] + BreakRuns(t[1..], 1)
  }

  predicate NoTriple(t: seq<Byte>) {
    forall k :: 0 <= k < |t| ==> !ThreeQuotesAt(t, k)
  }

  /** The loop of `escape_basic_string`. */
  method EscapeBasicString(s: seq<Byte>) returns (retval: seq<Byte>)
    ensures retval == BasicEscaped(s)
  {
    retval := [];
    for i := 0 to |s|
      invariant retval + BasicEscaped(s[i..]) == BasicEscaped(s)
    {
      var c := s[i];
      assert s[i..][0] == c && s[i..][1..] == s[i + 1..];
      assert retval + (BasicPiece(c) + BasicEscaped(s[i + 1..])) == retval + BasicPiece(c) + BasicEscaped(s[i + 1..]);
      if c == BACKSLASH {
        retval := retval + [BACKSLASH, BACKSLASH];
      } else if c == QUOTE {
        retval := retval + [BACKSLASH, QUOTE];
      } else if c == 0x08 {
        retval := retval + [BACKSLASH, 0x62];
      } else if c == 0x09 {
        retval := retval + [BACKSLASH, 0x74];
      } else if c == 0x0C {
        retval := retval + [BACKSLASH, 0x66];
      } else if c == LF {
        retval := retval + [BACKSLASH, 0x6E];
      } else if c == CR {
        retval := retval + [BACKSLASH, 0x72];
      } else if IsControl(c) {
        retval := retval + HexEscape(c);
      } else {
        retval := retval + [c];
      }
    }
  }

  /** The first loop of `escape_ml_basic_string`, which leaves quotation marks alone. */
  method EscapeMlBytes(s: seq<Byte>) returns (retval: seq<Byte>)
    ensures retval == MlEscaped(s)
  {
    retval := [];
    var i := 0;
    while i < |s|
      invariant i <= |s| && retval + MlEscaped(s[i..]) == MlEscaped(s)
    {
      var c := s[i];
      assert s[i..][0] == c && s[i..][1..] == s[i + 1..];
      if c == CR && i + 1 < |s| && s[i + 1] == LF {
        assert s[i..][2..] == s[i + 2..];
        assert retval + ([CR, LF] + MlEscaped(s[i + 2..])) == retval + [CR, LF] + MlEscaped(s[i + 2..]);
        retval := retval + [CR, LF];
        i := i + 1;
      } else {
        assert retval + (MlPiece(c) + MlEscaped(s[i + 1..])) == retval + MlPiece(c) + MlEscaped(s[i + 1..]);
        if c == BACKSLASH {
          retval := retval + [BACKSLASH, BACKSLASH];
        } else if c == 0x08 {
          retval := retval + [BACKSLASH, 0x62];
        } else if c == 0x09 {
          retval := retval + [BACKSLASH, 0x74];
        } else if c == 0x0C {
          retval := retval + [BACKSLASH, 0x66];
        } else if c == LF {
          retval := retval + [LF];
        } else if c == CR {
          retval := retval + [BACKSLASH, 0x72];
        } else if IsControl(c) {
          retval := retval + HexEscape(c);
        } else {
          retval := retval + [c];
        }
      }
      i := i + 1;
    }
  }

  /** `find` of three quotation marks: the first place, or none. */
  method FindTriple(t: seq<Byte>) returns (found: Option<nat>)
    ensures found.None? ==> NoTriple(t)
    ensures found.Some? ==> ThreeQuotesAt(t, found.value) && forall k :: 0 <= k < found.value ==> !ThreeQuotesAt(t, k)
  {
    for i := 0 to |t|
      invariant forall k :: 0 <= k < i ==> !ThreeQuotesAt(t, k)
    {
      if ThreeQuotesAt(t, i) {
        return Some(i);
      }
    }
    return None;
  }

  /** The number of quotation marks right behind another one. */
  function Doubles(t: seq<Byte>): nat {
    if |t| < 2 then 0 else Doubles(t[1..]) + if t[0] == t[1] == QUOTE then 1 else 0
  }

  /** The text with its third quotation mark from f on escaped. */
  function Broken(t: seq<Byte>, f: nat): seq<Byte>
    requires ThreeQuotesAt(t, f)
  {
    t[..f] + [QUOTE, QUOTE, BACKSLASH, QUOTE] + t[f + 3..]
  }

  lemma {:induction false} BreakingRemovesDouble(t: seq<Byte>, f: nat)
    requires ThreeQuotesAt(t, f)
    ensures Doubles(Broken(t, f)) == Doubles(t) - 1
  {
    if f == 0 {
      assert Broken(t, f) == [QUOTE, QUOTE, BACKSLASH, QUOTE] + t[3..];
      var b := Broken(t, f);
      assert b[1..][1..] == b[2..] && b[2..][1..] == t[2..] && t[1..][1..] == t[2..];
      assert Doubles(b) == Doubles(b[1..]) + 1;
      assert Doubles(b[1..]) == Doubles(b[2..]);
      assert Doubles(b[2..]) == Doubles(t[2..]);
      assert Doubles(t) == Doubles(t[1..]) + 1;
    } else {
      BreakingRemovesDouble(t[1..], f - 1);
      assert Broken(t, f)[1..] == Broken(t[1..], f - 1);
      assert Broken(t, f)[0] == t[0] && Broken(t, f)[1] == t[1];
    }
  }

  lemma BreakHere(t: seq<Byte>)
    requires ThreeQuotesAt(t, 0)
    ensures BreakRuns(Broken(t, 0), 0) == BreakRuns(t, 0)
  {
    var b := Broken(t, 0);
    assert b[1..][1..] == b[2..] && b[2..][1..] == t[2..] && t[1..][1..] == t[2..];
    assert BreakRuns(b[1..], 1) == [QUOTE] + BreakRuns(b[2..], 2);
    assert BreakRuns(b[2..], 2) == [BACKSLASH] + BreakRuns(t[2..], 0);
    assert BreakRuns(t[2..], 0) == [QUOTE] + BreakRuns(t[2..][1..], 1);
    assert BreakRuns(t[1..], 1) == [QUOTE] + BreakRuns(t[2..], 2);
    assert BreakRuns(t[2..], 2) == [BACKSLASH, QUOTE] + BreakRuns(t[2..][1..], 1);
  }

  /** Breaking the first run up does not change what breaking all of them up gives. */
  lemma {:induction false} BreakFirst(t: seq<Byte>, n: nat, f: nat)
    requires ThreeQuotesAt(t, f) && n <= 2
    requires forall k :: 0 <= k < n + f ==> !ThreeQuotesAt(Quotes(n) + t, k)
    ensures BreakRuns(Broken(t, f), n) == BreakRuns(t, n)
  {
    if f == 0 {
      assert n > 0 ==> ThreeQuotesAt(Quotes(n) + t, n - 1);
      BreakHere(t);
    } else {
      assert Broken(t, f)[1..] == Broken(t[1..], f - 1) && Broken(t, f)[0] == t[0];
      if t[0] == QUOTE {
        assert n == 2 ==> ThreeQuotesAt(Quotes(n) + t, 0);
        QuotesAhead(n, t);
        BreakFirst(t[1..], n + 1, f - 1);
      } else {
        forall k | 0 <= k < f - 1
          ensures !ThreeQuotesAt(Quotes(0) + t[1..], k)
        {
          assert !ThreeQuotesAt(Quotes(n) + t, n + k + 1);
        }
        BreakFirst(t[1..], 0, f - 1);
      }
    }
  }

  lemma QuotesAhead(n: nat, t: seq<Byte>)
    requires t != [] && t[0] == QUOTE
    ensures Quotes(n) + t == Quotes(n + 1) + t[1..]
  {
  }

  /** Without a run of three there is nothing to break up. */
  lemma {:induction false} NothingToBreak(t: seq<Byte>, n: nat)
    requires NoTriple(Quotes(n) + t) && n <= 2
    ensures BreakRuns(t, n) == t
  {
    if t != [] {
      if t[0] == QUOTE {
        assert n == 2 ==> ThreeQuotesAt(Quotes(n) + t, 0);
        QuotesAhead(n, t);
        NothingToBreak(t[1..], n + 1);
      } else {
        forall k | 0 <= k < |t| - 1
          ensures !ThreeQuotesAt(Quotes(0) + t[1..], k)
        {
          assert !ThreeQuotesAt(Quotes(n) + t, n + k + 1);
        }
        NothingToBreak(t[1..], 0);
      }
    }
  }

  /** `escape_ml_basic_string`: its search-and-replace loop ends and does what one pass would. */
  method EscapeMlBasicString(s: seq<Byte>) returns (retval: seq<Byte>)
    ensures retval == BreakRuns(MlEscaped(s), 0) && NoTriple(retval)
  {
    retval := EscapeMlBytes(s);
    var found := FindTriple(retval);
    while found.Some?
      invariant BreakRuns(retval, 0) == BreakRuns(MlEscaped(s), 0)
      invariant found.None? ==> NoTriple(retval)
      invariant found.Some? ==> ThreeQuotesAt(retval, found.value)
      invariant found.Some? ==> forall k :: 0 <= k < found.value ==> !ThreeQuotesAt(retval, k)
      decreases Doubles(retval), found.Some?
    {
      var at := found.value;
      assert Quotes(0) + retval == retval;
      BreakFirst(retval, 0, at);
      BreakingRemovesDouble(retval, at);
      retval := retval[..at] + [QUOTE, QUOTE, BACKSLASH, QUOTE] + retval[at + 3..];
      found := FindTriple(retval);
    }
    assert Quotes(0) + retval == retval;
    NothingToBreak(retval, 0);
  }

  const SIZE_MAX: nat := 0xFFFF_FFFF_FFFF_FFFF

  /** The text `operator()(string_type)` makes of a basic-kind string; none when it splits a long line, which it does
      to a text on one line that leaves no room for the width, unless the width is too small to split at. */
  function Printed(s: seq<Byte>, width: nat): (t: Option<seq<Byte>>)
    ensures t.None? <==> ((LF !in s && QUOTE !in s) || width == SIZE_MAX) && 2 <= width <= |BasicEscaped(s)| + 2
  {
    if (LF in s || QUOTE in s) && width != SIZE_MAX then
      var e := BreakRuns(MlEscaped(s), 0);
      if LF in e || width < |e| + 6 then
        Some([QUOTE, QUOTE, QUOTE] + [LF] + e + ([BACKSLASH, LF] + [QUOTE, QUOTE, QUOTE]))
      else Some([QUOTE, QUOTE, QUOTE] + e + [QUOTE, QUOTE, QUOTE])
    else if |BasicEscaped(s)| + 2 < width || width < 2 then Some([QUOTE] + BasicEscaped(s) + [QUOTE])
    else None
  }

  /** `operator()(string_type)` on a basic-kind string, its line-splitting path left out. */
  method PrintString(s: seq<Byte>, width: nat) returns (r: Option<seq<Byte>>)
    requires width <= SIZE_MAX
    ensures r == Printed(s, width)
  {
    if (LF in s || QUOTE in s) && width != SIZE_MAX {
      var escaped := EscapeMlBasicString(s);
      var open, close := [QUOTE, QUOTE, QUOTE], [QUOTE, QUOTE, QUOTE];
      if LF in escaped || width < |escaped| + 6 {
        open := open + [LF];
        close := [BACKSLASH, LF] + close;
      }
      assert open + escaped + close == open + (escaped + close);
      return Some(open + escaped + close);
    }
    var oneline := EscapeBasicString(s);
    if |oneline| + 2 < width || width < 2 {
      return Some([QUOTE] + oneline + [QUOTE]);
    }
    return None;
  }
}
