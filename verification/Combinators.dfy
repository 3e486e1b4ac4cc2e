/** The parser combinators of toml11, as one interpreter over a mutable location. */
module Combinators {
  import opened Common

  /** A range of the source that a combinator has consumed. */
  datatype Region = Region(first: nat, last: nat)

  /** The combinator types. `sequence` and `either` nest to the right: sequence<A, B, C> is A, then sequence<B, C>. */
  datatype Grammar =
    | Character(c: Byte)
    | InRange(lower: Byte, upper: Byte)
    | Exclude(g: Grammar)
    | Maybe(g: Grammar)
    | Sequence(head: Grammar, tail: Grammar)
    | Either(head: Grammar, tail: Grammar)
    | Exactly(g: Grammar, n: nat)
    | AtLeast(g: Grammar, n: nat)
    | Unlimited(g: Grammar)

  /** May succeed without consuming anything. */
  predicate Nullable(g: Grammar) {
    match g
    case Character(_) => false
    case InRange(_, _) => false
    case Exclude(_) => false
    case Maybe(_) => true
    case Sequence(h, t) => Nullable(h) && Nullable(t)
    case Either(h, t) => Nullable(h) || Nullable(t)
    case Exactly(b, n) => n == 0 || Nullable(b)
    case AtLeast(b, n) => n == 0 || Nullable(b)
    case Unlimited(_) => true
  }

  /** No unbounded repetition of something nullable, which would never end. */
  predicate Productive(g: Grammar) {
    match g
    case Character(_) => true
    case InRange(_, _) => true
    case Exclude(b) => Productive(b)
    case Maybe(b) => Productive(b)
    case Sequence(h, t) => Productive(h) && Productive(t)
    case Either(h, t) => Productive(h) && Productive(t)
    case Exactly(b, _) => Productive(b)
    case AtLeast(b, _) => Productive(b) && !Nullable(b)
    case Unlimited(b) => Productive(b) && !Nullable(b)
  }

  /** What a grammar means: the end of the match that starts at p, if there is one. */
  function Match(g: Grammar, s: seq<Byte>, p: nat): (r: Option<nat>)
    requires Productive(g) && p <= |s|
    ensures r.Some? ==> p <= r.value <= |s| && (!Nullable(g) ==> p < r.value)
    decreases g, 0, 0
  {
    match g
    case Character(c) => if p < |s| && s[p] == c then Some(p + 1) else None
    case InRange(lo, up) => if p < |s| && lo <= s[p] <= up then Some(p + 1) else None
    case Exclude(b) => if p < |s| && Match(b, s, p).None? then Some(p + 1) else None
    case Maybe(b) => var r := Match(b, s, p); if r.Some? then r else Some(p)
    case Sequence(h, t) => var r := Match(h, s, p); if r.Some? then Match(t, s, r.value) else None
    case Either(h, t) => var r := Match(h, s, p); if r.Some? then r else Match(t, s, p)
    case Exactly(b, n) => MatchTimes(b, n, s, p)
    case AtLeast(b, n) => var r := MatchTimes(b, n, s, p); if r.Some? then Some(MatchMany(b, s, r.value)) else None
    case Unlimited(b) => Some(MatchMany(b, s, p))
  }

  /** n matches in a row. */
  function MatchTimes(g: Grammar, n: nat, s: seq<Byte>, p: nat): (r: Option<nat>)
    requires Productive(g) && p <= |s|
    ensures r.Some? ==> p <= r.value <= |s| && (!Nullable(g) && n > 0 ==> p < r.value)
    decreases g, 1, n
  {
    if n == 0 then Some(p)
    else
      var r := Match(g, s, p);
      if r.Some? then MatchTimes(g, n - 1, s, r.value) else None
  }

  /** As many matches in a row as there are. */
  function MatchMany(g: Grammar, s: seq<Byte>, p: nat): (q: nat)
    requires Productive(g) && !Nullable(g) && p <= |s|
    ensures p <= q <= |s|
    decreases g, 1, |s| - p
  {
    var r := Match(g, s, p);
    if r.Some? then MatchMany(g, s, r.value) else p
  }

  // ----- The meaning of each combinator, one at a time -----

  lemma LeavesProductive()
    ensures forall c: Byte :: Productive(Character(c)) && !Nullable(Character(c))
    ensures forall lo: Byte, up: Byte :: Productive(InRange(lo, up)) && !Nullable(InRange(lo, up))
  {
  }

  lemma LeavesMatch(s: seq<Byte>, p: nat)
    requires p <= |s|
    ensures forall c: Byte :: Productive(Character(c)) && !Nullable(Character(c))
    ensures forall lo: Byte, up: Byte :: Productive(InRange(lo, up)) && !Nullable(InRange(lo, up))
    ensures forall c: Byte :: Match(Character(c), s, p) == if p < |s| && s[p] == c then Some(p + 1) else None
    ensures forall lo: Byte, up: Byte ::
      Match(InRange(lo, up), s, p) == if p < |s| && lo <= s[p] <= up then Some(p + 1) else None
  {
  }

  lemma EitherProductive(h: Grammar, t: Grammar)
    requires Productive(h) && Productive(t)
    ensures Productive(Either(h, t)) && (Nullable(Either(h, t)) <==> Nullable(h) || Nullable(t))
  {
  }

  lemma SequenceProductive(h: Grammar, t: Grammar)
    requires Productive(h) && Productive(t)
    ensures Productive(Sequence(h, t)) && (Nullable(Sequence(h, t)) <==> Nullable(h) && Nullable(t))
  {
  }

  lemma EitherMatch(h: Grammar, t: Grammar, s: seq<Byte>, p: nat)
    requires Productive(h) && Productive(t) && p <= |s|
    ensures Productive(Either(h, t)) && (Nullable(Either(h, t)) <==> Nullable(h) || Nullable(t))
    ensures Match(Either(h, t), s, p) == var r := Match(h, s, p); if r.Some? then r else Match(t, s, p)
  {
  }

  lemma SequenceMatch(h: Grammar, t: Grammar, s: seq<Byte>, p: nat)
    requires Productive(h) && Productive(t) && p <= |s|
    ensures Productive(Sequence(h, t)) && (Nullable(Sequence(h, t)) <==> Nullable(h) && Nullable(t))
    ensures Match(Sequence(h, t), s, p) == var r := Match(h, s, p); if r.Some? then Match(t, s, r.value) else None
  {
  }

  lemma ExcludeMatch(g: Grammar, s: seq<Byte>, p: nat)
    requires Productive(g) && p <= |s|
    ensures Productive(Exclude(g)) && !Nullable(Exclude(g))
    ensures Match(Exclude(g), s, p) == if p < |s| && Match(g, s, p).None? then Some(p + 1) else None
  {
  }

  lemma MaybeMatch(g: Grammar, s: seq<Byte>, p: nat)
    requires Productive(g) && p <= |s|
    ensures Productive(Maybe(g)) && Nullable(Maybe(g))
    ensures Match(Maybe(g), s, p) == var r := Match(g, s, p); if r.Some? then r else Some(p)
  {
  }

  lemma ExactlyMatch(g: Grammar, n: nat, s: seq<Byte>, p: nat)
    requires Productive(g) && !Nullable(g) && p <= |s|
    ensures Productive(Exactly(g, n)) && (Nullable(Exactly(g, n)) <==> n == 0)
    ensures Match(Exactly(g, n), s, p) == MatchTimes(g, n, s, p)
    ensures MatchTimes(g, n, s, p) == if n == 0 then Some(p) else
      var r := Match(g, s, p); if r.Some? then MatchTimes(g, n - 1, s, r.value) else None
  {
  }

  lemma UnlimitedMatch(g: Grammar, s: seq<Byte>, p: nat)
    requires Productive(g) && !Nullable(g) && p <= |s|
    ensures Productive(Unlimited(g)) && Nullable(Unlimited(g)) && Match(Unlimited(g), s, p) == Some(MatchMany(g, s, p))
    ensures MatchMany(g, s, p) == var r := Match(g, s, p); if r.Some? then MatchMany(g, s, r.value) else p
  {
  }

  lemma {:induction false} MatchTimesAdd(g: Grammar, m: nat, n: nat, s: seq<Byte>, p: nat)
    requires Productive(g) && p <= |s|
    ensures MatchTimes(g, m + n, s, p) ==
      var r := MatchTimes(g, m, s, p); if r.Some? then MatchTimes(g, n, s, r.value) else None
    decreases m
  {
    if m > 0 && Match(g, s, p).Some? {
      MatchTimesAdd(g, m - 1, n, s, Match(g, s, p).value);
    }
  }

  /** An unlimited repetition takes n matches in a row where n + 1 are not to be had. */
  lemma {:induction false} ManyIsMost(g: Grammar, s: seq<Byte>, p: nat) returns (n: nat)
    requires Productive(g) && !Nullable(g) && p <= |s|
    ensures MatchTimes(g, n, s, p) == Some(MatchMany(g, s, p)) && MatchTimes(g, n + 1, s, p) == None
    decreases |s| - p
  {
    n := 0;
    if Match(g, s, p).Some? {
      n := ManyIsMost(g, s, Match(g, s, p).value);
      n := n + 1;
    }
  }

  /** So does a repetition with a least number, which fails only below that number. */
  lemma AtLeastIsMost(g: Grammar, least: nat, s: seq<Byte>, p: nat)
    requires Productive(g) && !Nullable(g) && p <= |s|
    ensures match Match(AtLeast(g, least), s, p)
      case None => MatchTimes(g, least, s, p) == None
      case Some(q) => exists n: nat ::
        n >= least && MatchTimes(g, n, s, p) == Some(q) && MatchTimes(g, n + 1, s, p) == None
  {
    var r := MatchTimes(g, least, s, p);
    if r.Some? {
      var more := ManyIsMost(g, s, r.value);
      MatchTimesAdd(g, least, more, s, p);
      MatchTimesAdd(g, least, more + 1, s, p);
      assert MatchTimes(g, least + more, s, p) == Match(AtLeast(g, least), s, p);
      assert MatchTimes(g, least + more + 1, s, p) == None;
    }
  }

  function Newlines(s: seq<Byte>): nat {
    if |s| == 0 then 0 else Newlines(s[..|s| - 1]) + if s[|s| - 1] == 0x0A then 1 else 0
  }

  lemma {:induction false} NewlinesConcat(s: seq<Byte>, t: seq<Byte>)
    ensures Newlines(s + t) == Newlines(s) + Newlines(t)
  {
    if |t| == 0 {
      assert s + t == s;
    } else {
      assert (s + t)[..|s + t| - 1] == s + t[..|t| - 1];
      NewlinesConcat(s, t[..|t| - 1]);
    }
  }

  /** The count is the number of places that hold a line feed. */
  lemma {:induction false} NewlinesCount(s: seq<Byte>)
    ensures Newlines(s) == |set k | 0 <= k < |s| && s[k] == 0x0A|
  {
    var all := set k | 0 <= k < |s| && s[k] == 0x0A;
    if s == [] {
      assert all == {};
    } else {
      var n := |s| - 1;
      NewlinesCount(s[..n]);
      var before := set k | 0 <= k < |s[..n]| && s[..n][k] == 0x0A;
      assert all == if s[n] == 0x0A then before + {n} else before;
    }
  }

  /** A position in the source together with its line number, which every move keeps in step. */
  class Location {
    const source: seq<Byte>
    var iter: nat
    var lineNumber: nat

    ghost predicate Valid()
      reads this
    {
      iter <= |source| && lineNumber == 1 + Newlines(source[..iter])
    }

    constructor (source: seq<Byte>)
      ensures Valid() && this.source == source && iter == 0
    {
      this.source := source;
      iter, lineNumber := 0, 1;
    }

    method Advance(n: nat)
      requires Valid() && iter + n <= |source|
      modifies this
      ensures Valid() && iter == old(iter) + n
    {
      NewlinesConcat(source[..iter], source[iter..iter + n]);
      assert source[..iter] + source[iter..iter + n] == source[..iter + n];
      lineNumber := lineNumber + Newlines(source[iter..iter + n]);
      iter := iter + n;
    }

    method Retrace(n: nat)
      requires Valid() && n <= iter
      modifies this
      ensures Valid() && iter == old(iter) - n
    {
      NewlinesConcat(source[..iter - n], source[iter - n..iter]);
      assert source[..iter - n] + source[iter - n..iter] == source[..iter];
      lineNumber := lineNumber - Newlines(source[iter - n..iter]);
      iter := iter - n;
    }

    method Reset(rollback: nat)
      requires Valid() && rollback <= |source|
      modifies this
      ensures Valid() && iter == rollback
    {
      if rollback <= iter {
        NewlinesConcat(source[..rollback], source[rollback..iter]);
        assert source[..rollback] + source[rollback..iter] == source[..iter];
        lineNumber := lineNumber - Newlines(source[rollback..iter]);
      } else {
        NewlinesConcat(source[..iter], source[iter..rollback]);
        assert source[..iter] + source[iter..rollback] == source[..rollback];
        lineNumber := lineNumber + Newlines(source[iter..rollback]);
      }
      iter := rollback;
    }
  }

  /** `invoke`: success consumes exactly the match and reports it; failure leaves the location as it was. */
  method Invoke(g: Grammar, loc: Location) returns (r: Option<Region>)
    requires loc.Valid() && Productive(g)
    modifies loc
    ensures loc.Valid()
    ensures r ==
      match Match(g, loc.source, old(loc.iter)) case Some(q) => Some(Region(old(loc.iter), q)) case None => None
    ensures r.Some? ==> loc.iter == r.value.last
    ensures r.None? ==> loc.iter == old(loc.iter) && loc.lineNumber == old(loc.lineNumber)
    decreases g, 0
  {
    var first := loc.iter;
    match g {
      case Character(c) =>
        if loc.iter == |loc.source| || loc.source[loc.iter] != c {
          return None;
        }
        loc.Advance(1);
        return Some(Region(first, loc.iter));
      case InRange(lo, up) =>
        if loc.iter == |loc.source| || loc.source[loc.iter] < lo || up < loc.source[loc.iter] {
          return None;
        }
        loc.Advance(1);
        return Some(Region(first, loc.iter));
      case Exclude(b) =>
        if loc.iter == |loc.source| {
          return None;
        }
        var rslt := Invoke(b, loc);
        if rslt.Some? {
          loc.Reset(first);
          return None;
        }
        loc.Reset(first + 1);
        return Some(Region(first, loc.iter));
      case Maybe(b) =>
        var rslt := Invoke(b, loc);
        if rslt.Some? {
          return rslt;
        }
        return Some(Region(loc.iter, loc.iter));
      case Sequence(h, t) =>
        var rslt := Invoke(h, loc);
        if rslt.None? {
          loc.Reset(first);
          return None;
        }
        var rest := Invoke(t, loc);
        if rest.None? {
          loc.Reset(first);
          return None;
        }
        return Some(Concat(rslt.value, rest.value));
      case Either(h, t) =>
        var rslt := Invoke(h, loc);
        if rslt.Some? {
          return rslt;
        }
        r := Invoke(t, loc);
      case Exactly(b, n) =>
        r := InvokeTimes(b, n, loc);
      case AtLeast(b, n) =>
        r := InvokeTimes(b, n, loc);
        if r.Some? {
          var more := InvokeMany(b, loc);
          r := Some(Concat(r.value, more));
        }
      case Unlimited(b) =>
        var more := InvokeMany(b, loc);
        r := Some(more);
    }
  }

  /** `region::operator+=`: only adjacent regions are ever joined. */
  function Concat(a: Region, b: Region): Region
    requires a.last == b.first
  {
    Region(a.first, b.last)
  }

  /** The counted loop of `repeat`, rolling back if it comes up short. */
  method InvokeTimes(g: Grammar, n: nat, loc: Location) returns (r: Option<Region>)
    requires loc.Valid() && Productive(g)
    modifies loc
    ensures loc.Valid()
    ensures r ==
      match MatchTimes(g, n, loc.source, old(loc.iter)) case Some(q) => Some(Region(old(loc.iter), q)) case None => None
    ensures r.Some? ==> loc.iter == r.value.last
    ensures r.None? ==> loc.iter == old(loc.iter) && loc.lineNumber == old(loc.lineNumber)
    decreases g, 1
  {
    var first := loc.iter;
    var retval := Region(first, first);
    for i := 0 to n
      invariant loc.Valid() && retval == Region(first, loc.iter)
      invariant MatchTimes(g, n, loc.source, first) == MatchTimes(g, n - i, loc.source, loc.iter)
    {
      var rslt := Invoke(g, loc);
      if rslt.None? {
        loc.Reset(first);
        return None;
      }
      retval := Concat(retval, rslt.value);
    }
    return Some(retval);
  }

  /** The endless loop of `repeat`; it ends because the body never succeeds on nothing. */
  method InvokeMany(g: Grammar, loc: Location) returns (retval: Region)
    requires loc.Valid() && Productive(g) && !Nullable(g)
    modifies loc
    ensures loc.Valid()
    ensures retval == Region(old(loc.iter), MatchMany(g, loc.source, old(loc.iter))) && loc.iter == retval.last
    decreases g, 1
  {
    var first := loc.iter;
    retval := Region(first, first);
    while true
      invariant loc.Valid() && retval == Region(first, loc.iter)
      invariant MatchMany(g, loc.source, first) == MatchMany(g, loc.source, loc.iter)
      decreases |loc.source| - loc.iter
    {
      var rslt := Invoke(g, loc);
      if rslt.None? {
        return;
      }
      retval := Concat(retval, rslt.value);
    }
  }
}
