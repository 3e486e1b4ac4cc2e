/** Tables of TOML values as toml11 builds them, and what it means that a document grows. */
module TomlTable {
  import opened Common

  type Key = string

  /** A value: an opaque scalar, an array held by value, or a table that later keys may reach into. */
  datatype Node = Scalar(id: int) | Array(items: seq<Node>) | Sub(table: Table)

  /** A table. Its region is the text it was defined by, like "[a.b]", "a.b" or "{x = 1}". */
  class Table {
    var entries: map<Key, Node>
    var region: string

    constructor (region: string)
      ensures entries == map[] && this.region == region
    {
      entries, this.region := map[], region;
    }
  }

  /** The contents of a set of tables at one moment. */
  type Heap = map<Table, map<Key, Node>>

  ghost function Snapshot(all: set<Table>): (h: Heap)
    reads set t | t in all :: t`entries
    ensures h.Keys == all
  {
    map t | t in all :: t.entries
  }

  /** The region texts of a set of tables at one moment. */
  type Regions = map<Table, string>

  ghost function RegionsOf(all: set<Table>): (g: Regions)
    reads set t | t in all :: t`region
    ensures g.Keys == all
  {
    map t | t in all :: t.region
  }

  /** One step of a path: into a table by key, or into an array by index. */
  datatype Step = Into(key: Key) | At(index: nat)

  /** The value a path leads to. */
  ghost function Resolve(h: Heap, n: Node, path: seq<Step>): Option<Node>
    decreases |path|
  {
    if path == [] then Some(n)
    else match path[0]
      case Into(k) => if n.Sub? && n.table in h && k in h[n.table] then Resolve(h, h[n.table][k], path[1..]) else None
      case At(i) => if n.Array? && i < |n.items| then Resolve(h, n.items[i], path[1..]) else None
  }

  /** Every table a value can reach is in the heap. */
  ghost predicate Within(h: Heap, n: Node) {
    match n
    case Scalar(_) => true
    case Array(items) => forall i :: 0 <= i < |items| ==> Within(h, items[i])
    case Sub(t) => t in h
  }

  ghost predicate Closed(h: Heap) {
    forall t, k :: t in h && k in h[t] ==> Within(h, h[t][k])
  }

  /** A value that may only have got longer, as an array does. */
  predicate NodeGrows(a: Node, b: Node) {
    a == b || (a.Array? && b.Array? && a.items <= b.items)
  }

  predicate EntriesGrow(a: map<Key, Node>, b: map<Key, Node>) {
    forall k :: k in a ==> k in b && NodeGrows(a[k], b[k])
  }

  /** Nothing defined in one heap is lost or replaced in the other. */
  ghost predicate Grows(h0: Heap, h1: Heap) {
    forall t :: t in h0 ==> t in h1 && EntriesGrow(h0[t], h1[t])
  }

  lemma GrowsTransitive(h0: Heap, h1: Heap, h2: Heap)
    requires Grows(h0, h1) && Grows(h1, h2)
    ensures Grows(h0, h2) && h0.Keys <= h2.Keys
  {
    forall t | t in h0
      ensures t in h2 && EntriesGrow(h0[t], h2[t])
    {
      assert EntriesGrow(h0[t], h1[t]) && EntriesGrow(h1[t], h2[t]);
    }
  }

  /** Whatever a path led to before, it leads to now; a scalar or a table is the very same one. */
  lemma {:induction false} ResolveGrows(h0: Heap, h1: Heap, a: Node, b: Node, path: seq<Step>)
    requires Grows(h0, h1) && NodeGrows(a, b)
    ensures match Resolve(h0, a, path)
      case None => true
      case Some(x) => Resolve(h1, b, path).Some? && NodeGrows(x, Resolve(h1, b, path).value)
    decreases |path|
  {
    if path != [] {
      match path[0] {
        case Into(k) =>
          if a.Sub? && a.table in h0 && k in h0[a.table] {
            assert EntriesGrow(h0[a.table], h1[a.table]);
            ResolveGrows(h0, h1, h0[a.table][k], h1[a.table][k], path[1..]);
          }
        case At(i) =>
          if a.Array? && i < |a.items| {
            assert a.items[i] == b.items[i];
            ResolveGrows(h0, h1, a.items[i], b.items[i], path[1..]);
          }
      }
    }
  }

  lemma {:induction false} ResolveConcat(h: Heap, n: Node, p: seq<Step>, q: seq<Step>)
    ensures Resolve(h, n, p + q) == match Resolve(h, n, p) case Some(m) => Resolve(h, m, q) case None => None
    decreases |p|
  {
    if p == [] {
      assert p + q == q;
    } else {
      assert (p + q)[1..] == p[1..] + q;
      match p[0] {
        case Into(k) =>
          if n.Sub? && n.table in h && k in h[n.table] {
            ResolveConcat(h, h[n.table][k], p[1..], q);
          }
        case At(i) =>
          if n.Array? && i < |n.items| {
            ResolveConcat(h, n.items[i], p[1..], q);
          }
      }
    }
  }

  /** The keys a path goes through. */
  function KeysOf(path: seq<Step>): seq<Key> {
    if path == [] then [] else (match path[0] case Into(k) => [k] case At(_) => []) + KeysOf(path[1..])
  }

  lemma {:induction false} KeysOfConcat(p: seq<Step>, q: seq<Step>)
    ensures KeysOf(p + q) == KeysOf(p) + KeysOf(q)
  {
    if p == [] {
      assert p + q == q;
    } else {
      assert (p + q)[1..] == p[1..] + q;
      KeysOfConcat(p[1..], q);
    }
  }

  lemma {:induction false} WithinGrows(h0: Heap, h1: Heap, n: Node)
    requires h0.Keys <= h1.Keys && Within(h0, n)
    ensures Within(h1, n)
    decreases n
  {
    if n.Array? {
      forall i | 0 <= i < |n.items|
        ensures Within(h1, n.items[i])
      {
        WithinGrows(h0, h1, n.items[i]);
      }
    }
  }

  // ----- What a change to one table can change -----

  /** No table is reached along two paths. */
  ghost predicate Unshared(h: Heap, n: Node) {
    forall p, q ::
      Resolve(h, n, p).Some? && Resolve(h, n, p).value.Sub? && Resolve(h, n, q) == Resolve(h, n, p) ==> p == q
  }

  /** Apart from the table t and from new ones, the heaps are the same. */
  ghost predicate SameBut(h0: Heap, h1: Heap, t: Table) {
    t in h0 && t in h1 && forall u :: u in h0 && u != t ==> u in h1 && h1[u] == h0[u]
  }

  ghost predicate Differ(a: map<Key, Node>, b: map<Key, Node>, k: Key) {
    !(k in a && k in b && a[k] == b[k]) && (k in a || k in b)
  }

  /** A path whose value has changed goes into the changed table, by a key that has changed there. */
  lemma {:induction false} Diverges(h0: Heap, h1: Heap, t: Table, n: Node, path: seq<Step>)
    returns (q: seq<Step>, k: Key)
    requires Closed(h0) && SameBut(h0, h1, t) && Within(h0, n) && Resolve(h1, n, path) != Resolve(h0, n, path)
    ensures |q| < |path| && q == path[..|q|] && path[|q|] == Into(k)
    ensures Resolve(h0, n, q) == Some(Sub(t)) && Differ(h0[t], h1[t], k)
    decreases |path|
  {
    match path[0] {
      case Into(key) =>
        assert n.Sub?;
        if n.table == t && Differ(h0[t], h1[t], key) {
          q, k := [], key;
        } else {
          q, k := Diverges(h0, h1, t, h0[n.table][key], path[1..]);
          q := [path[0]] + q;
          assert q[1..] == path[1..][..|q| - 1];
        }
      case At(i) =>
        assert Within(h0, n.items[i]);
        q, k := Diverges(h0, h1, t, n.items[i], path[1..]);
        q := [path[0]] + q;
        assert q[1..] == path[1..][..|q| - 1];
    }
  }

  lemma {:induction false} ResolvedWithin(h: Heap, n: Node, path: seq<Step>)
    requires Closed(h) && Within(h, n)
    ensures Resolve(h, n, path).Some? ==> Within(h, Resolve(h, n, path).value)
    decreases |path|
  {
    if path != [] {
      match path[0] {
        case Into(k) =>
          if n.Sub? && k in h[n.table] {
            ResolvedWithin(h, h[n.table][k], path[1..]);
          }
        case At(i) =>
          if n.Array? && i < |n.items| {
            ResolvedWithin(h, n.items[i], path[1..]);
          }
      }
    }
  }
}
