/** `insert_nested_key`: putting a value at a dotted key. */
module TableInsertion {
  import opened Common
  import opened TomlTable

  /** Normal return, a thrown `syntax_error`, or a read past the end of an empty array. */
  datatype Outcome = Inserted | SyntaxError | EmptyBack

  /** The path leads to v, or, for a table, to a table that has all of its members. */
  ghost predicate Defined(h: Heap, root: Table, path: seq<Step>, v: Node) {
    match v
    case Sub(t) =>
      && t in h && Resolve(h, Sub(root), path).Some? && Resolve(h, Sub(root), path).value.Sub?
      && forall k :: k in h[t] ==> Resolve(h, Sub(root), path + [Into(k)]) == Some(h[t][k])
    case _ => Resolve(h, Sub(root), path) == Some(v)
  }

  /** Nothing stood where the path leads, or a table did that shares no key with the table v. */
  ghost predicate NotYetDefined(h: Heap, root: Table, path: seq<Step>, v: Node) {
    match Resolve(h, Sub(root), path)
    case None => true
    case Some(n) => n.Sub? && v.Sub? && n.table in h && v.table in h && h[n.table].Keys !! h[v.table].Keys
  }

  /** At most one of the old tables has changed. */
  ghost predicate OneSite(h0: Heap, h1: Heap) {
    exists site :: site in h0 && forall t :: t in h0 && t != site ==> t in h1 && h1[t] == h0[t]
  }

  /** The heap after an entry has been put into one of its tables. */
  ghost function Put(h: Heap, t: Table, k: Key, n: Node): Heap
    requires t in h
  {
    h[t := h[t][k := n]]
  }

  lemma PutKeepsAll(h: Heap, t: Table, k: Key, n: Node)
    requires t in h && Closed(h) && Within(h, n) && (k in h[t] ==> NodeGrows(h[t][k], n))
    ensures Closed(Put(h, t, k, n)) && Grows(h, Put(h, t, k, n)) && OneSite(h, Put(h, t, k, n))
  {
    var h1 := Put(h, t, k, n);
    forall u, key | u in h1 && key in h1[u]
      ensures Within(h1, h1[u][key])
    {
      WithinGrows(h, h1, if u == t && key == k then n else h[u][key]);
    }
    assert t in h && forall u :: u in h && u != t ==> u in h1 && h1[u] == h[u];
  }

  /** `insert` or `operator[]` on a table. */
  method PutEntry(tab: Table, k: Key, n: Node, ghost all: set<Table>)
    requires tab in all && Closed(Snapshot(all)) && Within(Snapshot(all), n)
    requires k in tab.entries ==> NodeGrows(tab.entries[k], n)
    modifies tab`entries
    ensures Snapshot(all) == Put(old(Snapshot(all)), tab, k, n)
    ensures Closed(Snapshot(all)) && Grows(old(Snapshot(all)), Snapshot(all))
    ensures OneSite(old(Snapshot(all)), Snapshot(all))
  {
    PutKeepsAll(Snapshot(all), tab, k, n);
    tab.entries := tab.entries[k := n];
    assert Snapshot(all) == Put(old(Snapshot(all)), tab, k, n);
  }

  /** The loop that merges the members of a table into one that exists; it stops at the first key they share. */
  method Merge(t: Table, v: Table, ghost all: set<Table>) returns (ok: bool)
    requires t in all && v in all && Closed(Snapshot(all))
    modifies t`entries
    ensures Closed(Snapshot(all)) && Grows(old(Snapshot(all)), Snapshot(all))
    ensures forall u :: u in all && u != t ==> u.entries == old(u.entries)
    ensures ok <==> old(t.entries).Keys !! old(v.entries).Keys
    ensures ok ==> t.entries == old(t.entries) + old(v.entries) && v.entries == old(v.entries)
  {
    hide Closed, Grows, OneSite, Within;
    ghost var h0 := Snapshot(all);
    var members := v.entries;
    var todo := members.Keys;
    GrowsReflexive(h0);
    while todo != {}
      invariant todo <= members.Keys && t.entries == Merged(h0[t], members, todo)
      invariant h0[t].Keys !! members.Keys - todo
      invariant Closed(Snapshot(all)) && Grows(h0, Snapshot(all))
    {
      var k :| k in todo;
      if k in t.entries {
        MergedHas(h0[t], members, todo, k);
        return false;
      }
      MergedStep(h0[t], members, todo, k);
      ghost var h := Snapshot(all);
      MemberWithin(h0, h, v, k);
      PutEntry(t, k, members[k], all);
      GrowsTransitive(h0, h, Snapshot(all));
      todo := todo - {k};
    }
    assert members - todo == members;
    return true;
  }

  /** The entries a table has once all but the keys to do have been merged into it. */
  ghost function Merged(base: map<Key, Node>, members: map<Key, Node>, todo: set<Key>): map<Key, Node> {
    base + (members - todo)
  }

  lemma MergedHas(base: map<Key, Node>, members: map<Key, Node>, todo: set<Key>, k: Key)
    requires k in todo && k in Merged(base, members, todo)
    ensures k in base
  {
  }

  lemma MergedStep(base: map<Key, Node>, members: map<Key, Node>, todo: set<Key>, k: Key)
    requires k in todo && todo <= members.Keys && k !in Merged(base, members, todo)
    ensures k !in base && Merged(base, members, todo)[k := members[k]] == Merged(base, members, todo - {k})
  {
  }

  lemma GrowsReflexive(h: Heap)
    ensures Grows(h, h)
  {
  }

  lemma MemberWithin(h0: Heap, h: Heap, t: Table, k: Key)
    requires Closed(h0) && t in h0 && k in h0[t] && h0.Keys <= h.Keys
    ensures Within(h, h0[t][k])
  {
    WithinGrows(h0, h, h0[t][k]);
  }

  // ----- The last key -----

  function Prefix2(s: string): string {
    if |s| <= 2 then s else s[..2]
  }

  /** What holds after a value has gone in below a table: its place was free, and nothing else moved. */
  ghost predicate Placed(h0: Heap, h1: Heap, root: Table, path: seq<Step>, v: Node) {
    Defined(h1, root, path, v) && NotYetDefined(h0, root, path, v)
  }

  lemma PlacedEntry(h: Heap, tab: Table, k: Key, v: Node)
    requires tab in h && k !in h[tab] && Within(h, v)
    ensures Placed(h, Put(h, tab, k, v), tab, [Into(k)], v) && KeysOf([Into(k)]) == [k]
  {
    var h1 := Put(h, tab, k, v);
    assert [Into(k)][1..] == [];
    assert Resolve(h1, Sub(tab), [Into(k)]) == Some(v);
    forall key | v.Sub? && key in h1[v.table]
      ensures Resolve(h1, Sub(tab), [Into(k)] + [Into(key)]) == Some(h1[v.table][key])
    {
      ResolveConcat(h1, Sub(tab), [Into(k)], [Into(key)]);
      assert [Into(key)][1..] == [];
    }
  }

  /** Appending to an array puts the value at a new index. */
  lemma PlacedItem(h: Heap, tab: Table, k: Key, items: seq<Node>, v: Node)
    requires tab in h && Within(h, v) && (if k in h[tab] then h[tab][k] == Array(items) else items == [])
    ensures var path := [Into(k), At(|items|)];
      Placed(h, Put(h, tab, k, Array(items + [v])), tab, path, v) && KeysOf(path) == [k]
  {
    var path := [Into(k), At(|items|)];
    var h1 := Put(h, tab, k, Array(items + [v]));
    assert path[1..] == [At(|items|)] && path[1..][1..] == [];
    assert (items + [v])[|items|] == v;
    assert Resolve(h1, Array(items + [v]), path[1..]) == Resolve(h1, v, []) == Some(v);
    assert KeysOf(path[1..]) == [];
    forall key | v.Sub? && key in h1[v.table]
      ensures Resolve(h1, Sub(tab), path + [Into(key)]) == Some(h1[v.table][key])
    {
      ResolveConcat(h1, Sub(tab), path, [Into(key)]);
      assert [Into(key)][1..] == [];
    }
  }

  lemma EntryAt(h: Heap, tab: Table, k: Key)
    requires tab in h && k in h[tab]
    ensures Resolve(h, Sub(tab), [Into(k)]) == Some(h[tab][k])
  {
    assert [Into(k)][1..] == [];
  }

  lemma PlacedMembers(h0: Heap, h1: Heap, tab: Table, k: Key, t: Table, v: Node)
    requires tab in h0 && t in h0 && v.Sub? && v.table in h0 && k in h0[tab] && h0[tab][k] == Sub(t)
    requires h0[t].Keys !! h0[v.table].Keys
    requires h1.Keys == h0.Keys && tab in h1 && k in h1[tab] && h1[tab][k] == Sub(t)
    requires h1[t] == h0[t] + h0[v.table] && h1[v.table] == h0[v.table]
    ensures Placed(h0, h1, tab, [Into(k)], v) && KeysOf([Into(k)]) == [k]
  {
    EntryAt(h0, tab, k);
    EntryAt(h1, tab, k);
    forall key | key in h1[v.table]
      ensures Resolve(h1, Sub(tab), [Into(k)] + [Into(key)]) == Some(h1[v.table][key])
    {
      ResolveConcat(h1, Sub(tab), [Into(k)], [Into(key)]);
      EntryAt(h1, t, key);
    }
  }

  /** An array of tables that was opened by a [[header]], so that it may be appended to. */
  ghost predicate IsMultiLineArray(g: Regions, n: Node) {
    && n.Array? && n.items != [] && n.items[0].Sub? && n.items[0].table in g
    && Prefix2(g[n.items[0].table]) == "[["
  }

  /** An array at the key, or none at all, has got one element longer, and that element is where the path leads. */
  ghost predicate Appended(h0: Heap, h1: Heap, tab: Table, k: Key, path: seq<Step>) {
    && PutAt(h0, h1, tab, k) && h1[tab][k].Array? && h1[tab][k].items != []
    && (var items := h1[tab][k].items[..|h1[tab][k].items| - 1];
      && path == [Into(k), At(|items|)]
      && if k in h0[tab] then h0[tab][k] == Array(items) else items == [])
  }

  /** Only the entry at the key has changed. */
  ghost predicate PutAt(h0: Heap, h1: Heap, tab: Table, k: Key) {
    tab in h0 && tab in h1 && k in h1[tab] && h1 == Put(h0, tab, k, h1[tab][k])
  }

  /** What the last key may change: nothing, its own free entry, the array there, or the table there. */
  ghost predicate ChangedAt(h0: Heap, h1: Heap, tab: Table, k: Key, path: seq<Step>) {
    && tab in h0
    && (|| (h1 == h0 && path == [])
        || (k !in h0[tab] && path == [Into(k)] && PutAt(h0, h1, tab, k))
        || Appended(h0, h1, tab, k, path)
        || (k in h0[tab] && h0[tab][k].Sub? && SameBut(h0, h1, h0[tab][k].table) && path == [Into(k)]))
  }

  /** The array-of-tables branch for the last key. */
  method AppendTable(tab: Table, k: Key, v: Node, ghost all: set<Table>) returns (r: Outcome, ghost path: seq<Step>)
    requires tab in all && Closed(Snapshot(all)) && Within(Snapshot(all), v)
    modifies tab`entries
    ensures Closed(Snapshot(all)) && Grows(old(Snapshot(all)), Snapshot(all))
    ensures forall u :: u in all && u != tab ==> u.entries == old(u.entries)
    ensures r.Inserted? ==> Placed(old(Snapshot(all)), Snapshot(all), tab, path, v) && KeysOf(path) == [k]
    ensures r.Inserted? <==> (k in old(tab.entries) ==> IsMultiLineArray(old(RegionsOf(all)), old(tab.entries)[k]))
    ensures !r.Inserted? ==> r.SyntaxError? && Snapshot(all) == old(Snapshot(all))
    ensures r.Inserted? ==> Appended(old(Snapshot(all)), Snapshot(all), tab, k, path)
  {
    hide Closed, Grows, OneSite, Within, Placed, Resolve;
    path := [];
    GrowsReflexive(Snapshot(all));
    ghost var h := Snapshot(all);
    if k in tab.entries {
      if tab.entries[k].Sub? {
        return SyntaxError, path;
      } else if !tab.entries[k].Array? {
        return SyntaxError, path;
      }
      var items := tab.entries[k].items;
      if items == [] || !items[0].Sub? {
        return SyntaxError, path;
      }
      if Prefix2(items[0].table.region) != "[[" {
        return SyntaxError, path;
      }
      PlacedItem(h, tab, k, items, v);
      LongerWithin(h, tab, k, items, v);
      PutEntry(tab, k, Array(items + [v]), all);
      assert (items + [v])[..|items|] == items;
      return Inserted, [Into(k), At(|items|)];
    }
    PlacedItem(h, tab, k, [], v);
    assert [] + [v] == [v];
    SingleWithin(h, v);
    PutEntry(tab, k, Array([v]), all);
    return Inserted, [Into(k), At(0)];
  }

  lemma LongerWithin(h: Heap, tab: Table, k: Key, items: seq<Node>, v: Node)
    requires Closed(h) && tab in h && k in h[tab] && h[tab][k] == Array(items) && Within(h, v)
    ensures Within(h, Array(items + [v])) && NodeGrows(Array(items), Array(items + [v]))
    ensures items != [] && items[0].Sub? ==> items[0].table in h
  {
    assert Within(h, Array(items));
    assert items != [] ==> Within(h, items[0]);
  }

  lemma SingleWithin(h: Heap, v: Node)
    requires Within(h, v)
    ensures Within(h, Array([v]))
  {
  }

  /** What a region's text reads as: an inline table, a [header] with its keys, or dotted keys. */
  datatype Header = InlineTable | TableKey(keys: seq<Key>) | DottedKey(keys: seq<Key>) | Unreadable

  /** `is_valid_forward_table_definition`: whether the table with one text may be opened again by another, given how
      texts read. A header must differ from the new one; dotted keys may only be joined by dotted keys. */
  function ForwardOk(read: string -> Header, forward: string, inserting: string, keys: seq<Key>): bool
    requires keys != []
  {
    if read(inserting).InlineTable? then false
    else match read(forward)
      case TableKey(tableKeys) => tableKeys != keys
      case DottedKey(dottedKeys) => !read(inserting).TableKey? && dottedKeys != [keys[|keys| - 1]]
      case _ => false
  }

  /** The table at a key may be opened again by the table v. */
  ghost predicate Reopens(g: Regions, read: string -> Header, n: Node, v: Node, keys: seq<Key>) {
    && n.Sub? && v.Sub? && n.table in g && v.table in g && keys != []
    && ForwardOk(read, g[n.table], g[v.table], keys)
  }

  /** Two tables without a common key. */
  ghost predicate Mergeable(h: Heap, a: Node, b: Node) {
    a.Sub? && b.Sub? && a.table in h && b.table in h && h[a.table].Keys !! h[b.table].Keys
  }

  /** The branch of the last key: append to an array of tables, merge two tables, or insert; anything else collides. */
  method InsertLast(tab: Table, keys: seq<Key>, k: Key, v: Node, keyReg: string, isArrayOfTable: bool,
                    read: string -> Header, ghost all: set<Table>)
    returns (r: Outcome, ghost path: seq<Step>, ghost site: Table)
    requires keys != [] && keys[|keys| - 1] == k
    requires tab in all && Closed(Snapshot(all)) && Within(Snapshot(all), v)
    modifies all
    ensures Closed(Snapshot(all)) && Grows(old(Snapshot(all)), Snapshot(all))
    ensures site in all && forall u :: u in all && u != site ==> u.entries == old(u.entries)
    ensures k !in old(tab.entries) ==> site == tab && r.Inserted?
    ensures k in old(tab.entries) ==> (r.Inserted? <==>
      if isArrayOfTable then IsMultiLineArray(old(RegionsOf(all)), old(tab.entries)[k])
      else
        && Mergeable(old(Snapshot(all)), old(tab.entries)[k], v)
        && Reopens(old(RegionsOf(all)), read, old(tab.entries)[k], v, keys))
    ensures !r.Inserted? ==> r.SyntaxError?
    ensures var merged := r.Inserted? && !isArrayOfTable && k in old(tab.entries);
      forall u :: u in all ==>
        u.region == if merged && old(tab.entries)[k] == Sub(u) then keyReg else old(u.region)
    ensures r.Inserted? ==> Placed(old(Snapshot(all)), Snapshot(all), tab, path, v) && KeysOf(path) == [k]
    ensures r.Inserted? && !isArrayOfTable ==> path == [Into(k)]
    ensures ChangedAt(old(Snapshot(all)), Snapshot(all), tab, k, path)
  {
    hide Closed, Grows, OneSite, Placed, Resolve;
    path, site := [], tab;
    GrowsReflexive(Snapshot(all));
    ghost var h := Snapshot(all);
    if isArrayOfTable {
      r, path := AppendTable(tab, k, v, all);
      return r, if r.Inserted? then path else [], site;
    }
    if k in tab.entries {
      if tab.entries[k].Sub? && v.Sub? {
        var t := tab.entries[k].table;
        MemberWithin(Snapshot(all), Snapshot(all), tab, k);
        if !ForwardOk(read, t.region, v.table.region, keys) {
          return SyntaxError, path, site;
        }
        site := t;
        var ok := MergeInto(tab, k, t, v, keyReg, all);
        assert SameBut(h, Snapshot(all), t);
        return if ok then Inserted else SyntaxError, [Into(k)], t;
      }
      return SyntaxError, path, site;  // an array of tables, or any other value, is there already
    }
    PlacedEntry(Snapshot(all), tab, k, v);
    PutEntry(tab, k, v, all);
    return Inserted, [Into(k)], site;
  }

  /** Merging the table v into the one that stands at the key. */
  method MergeInto(tab: Table, k: Key, t: Table, v: Node, keyReg: string, ghost all: set<Table>) returns (ok: bool)
    requires tab in all && t in all && Closed(Snapshot(all)) && Within(Snapshot(all), v)
    requires v.Sub? && k in tab.entries && tab.entries[k] == Sub(t)
    modifies t
    ensures Closed(Snapshot(all)) && Grows(old(Snapshot(all)), Snapshot(all))
    ensures forall u :: u in all && u != t ==> u.entries == old(u.entries)
    ensures ok <==> old(t.entries).Keys !! old(v.table.entries).Keys
    ensures ok ==> Placed(old(Snapshot(all)), Snapshot(all), tab, [Into(k)], v) && KeysOf([Into(k)]) == [k]
    ensures t.region == if ok then keyReg else old(t.region)
  {
    hide Closed, Placed, Resolve;
    ghost var h := Snapshot(all);
    ok := Merge(t, v.table, all);
    if ok {
      assert EntriesGrow(h[tab], Snapshot(all)[tab]);
      PlacedMembers(h, Snapshot(all), tab, k, t, v);
      t.region := keyReg;
    }
  }

  // ----- The keys before the last -----

  /** The path leads from one table to another, through the given keys. */
  ghost predicate Leads(h: Heap, root: Table, path: seq<Step>, keys: seq<Key>, tab: Table) {
    Resolve(h, Sub(root), path) == Some(Sub(tab)) && KeysOf(path) == keys && tab in h
  }

  lemma LeadsByEntry(h: Heap, tab: Table, k: Key, t: Table)
    requires Closed(h) && tab in h && k in h[tab] && h[tab][k] == Sub(t)
    ensures Leads(h, tab, [Into(k)], [k], t)
  {
    assert Within(h, h[tab][k]);
    assert [Into(k)][1..] == [];
  }

  lemma LeadsByLastItem(h: Heap, tab: Table, k: Key, items: seq<Node>, t: Table)
    requires Closed(h) && tab in h && k in h[tab] && h[tab][k] == Array(items)
    requires items != [] && items[|items| - 1] == Sub(t)
    ensures Leads(h, tab, [Into(k), At(|items| - 1)], [k], t)
  {
    var path := [Into(k), At(|items| - 1)];
    assert Within(h, h[tab][k]) && Within(h, items[|items| - 1]);
    assert path[1..] == [At(|items| - 1)] && path[1..][1..] == [];
    assert Resolve(h, Array(items), path[1..]) == Resolve(h, Sub(t), []);
    assert KeysOf(path[1..]) == [];
  }

  lemma LeadsOn(h: Heap, root: Table, p: seq<Step>, keys: seq<Key>, tab: Table, q: seq<Step>, k: Key, next: Table)
    requires Leads(h, root, p, keys, tab) && Leads(h, tab, q, [k], next)
    ensures Leads(h, root, p + q, keys + [k], next)
  {
    ResolveConcat(h, Sub(root), p, q);
    KeysOfConcat(p, q);
  }

  lemma LeadsGrows(h0: Heap, h1: Heap, root: Table, path: seq<Step>, keys: seq<Key>, tab: Table)
    requires Leads(h0, root, path, keys, tab) && Grows(h0, h1)
    ensures Leads(h1, root, path, keys, tab)
  {
    ResolveGrows(h0, h1, Sub(root), Sub(root), path);
  }

  /** A new, empty table at a free key. */
  method AddTable(tab: Table, k: Key, keyReg: string, ghost all: set<Table>) returns (t: Table)
    requires tab in all && Closed(Snapshot(all)) && k !in tab.entries
    modifies tab`entries
    ensures fresh(t) && Closed(Snapshot(all + {t})) && Grows(old(Snapshot(all)), Snapshot(all + {t}))
    ensures tab.entries == old(tab.entries)[k := Sub(t)] && t.entries == map[] && t.region == keyReg
    ensures forall u :: u in all && u != tab ==> u.entries == old(u.entries)
  {
    ghost var h0 := Snapshot(all);
    t := new Table(keyReg);
    ghost var h1 := Snapshot(all + {t});
    forall u, key | u in h1 && key in h1[u]
      ensures Within(h1, h1[u][key])
    {
      WithinGrows(h0, h1, h0[u][key]);
    }
    assert Closed(h1) && Grows(h0, h1);
    hide Closed, Grows, OneSite;
    PutEntry(tab, k, Sub(t), all + {t});
    GrowsTransitive(h0, h1, Snapshot(all + {t}));
  }

  predicate IsInline(region: string) {
    region != "" && region[0] == '{'
  }

  /** A table that was not written inline, or an array whose last element is a table. */
  ghost predicate Enterable(g: Regions, n: Node) {
    match n
    case Sub(t) => t in g && !IsInline(g[t])
    case Array(items) => items != [] && items[|items| - 1].Sub?
    case Scalar(_) => false
  }

  /** The table a path goes on in: the one at the key, or the last one of the array there. */
  predicate EnteredBy(n: Node, next: Table) {
    n == Sub(next) || (n.Array? && n.items != [] && n.items[|n.items| - 1] == Sub(next))
  }

  /** An empty new table stands at the key, which was free, and nothing else has changed. */
  ghost predicate NewTableAt(h0: Heap, h1: Heap, tab: Table, k: Key) {
    && SameBut(h0, h1, tab) && k !in h0[tab] && k in h1[tab] && h1[tab] == h0[tab][k := h1[tab][k]]
    && h1[tab][k].Sub? && h1[tab][k].table in h1 && h1[h1[tab][k].table] == map[]
  }

  /** One move of the pointer: create the table if the key is free, then go into it, or into the last one of an
      array. */
  method Descend(tab: Table, k: Key, keyReg: string, ghost all: set<Table>)
    returns (r: Outcome, next: Table, ghost step: seq<Step>, ghost made: set<Table>)
    requires tab in all && Closed(Snapshot(all))
    modifies tab`entries
    ensures fresh(made) && Closed(Snapshot(all + made)) && Grows(old(Snapshot(all)), Snapshot(all + made))
    ensures r.Inserted? ==> Leads(Snapshot(all + made), tab, step, [k], next)
    ensures made == {} ==> Snapshot(all) == old(Snapshot(all))
    ensures made != {} <==> k !in old(tab.entries)
    ensures r.EmptyBack? <==> k in old(tab.entries) && old(tab.entries)[k] == Array([])
    ensures r.Inserted? <==>
      if k in old(tab.entries) then Enterable(old(RegionsOf(all)), old(tab.entries)[k]) else !IsInline(keyReg)
    ensures r.Inserted? && k in old(tab.entries) ==> EnteredBy(old(tab.entries)[k], next)
    ensures forall t :: t in made ==> t.region == keyReg
    ensures made != {} ==> (r.Inserted? ==> next in made && next.entries == map[] && step == [Into(k)])
    ensures made != {} ==> NewTableAt(old(Snapshot(all)), Snapshot(all + made), tab, k)
    ensures forall u :: u in all && u != tab ==> u.entries == old(u.entries)
  {
    hide Closed, Grows, Leads;
    step, made, next := [], {}, tab;
    ghost var now := all;
    GrowsReflexive(Snapshot(all));
    if k !in tab.entries {
      var t := AddTable(tab, k, keyReg, all);
      made, now := {t}, all + {t};
      assert NewTableAt(old(Snapshot(all)), Snapshot(now), tab, k);
    }
    assert all + made == now;
    match tab.entries[k] {
      case Sub(t) =>
        if IsInline(t.region) {
          return SyntaxError, next, step, made;  // inline tables are immutable
        }
        LeadsByEntry(Snapshot(now), tab, k, t);
        return Inserted, t, [Into(k)], made;
      case Array(items) =>
        if items == [] {
          return EmptyBack, next, step, made;
        }
        var last := items[|items| - 1];
        if !last.Sub? {
          return SyntaxError, next, step, made;
        }
        LeadsByLastItem(Snapshot(now), tab, k, items, last.table);
        return Inserted, last.table, [Into(k), At(|items| - 1)], made;
      case Scalar(_) =>
        return SyntaxError, next, step, made;
    }
  }

  /** Where the pointer may be: nothing has been created and all is as it was, or it is in a new, empty table
      below a free place. */
  ghost predicate Fresh(h0: Heap, h: Heap, root: Table, path: seq<Step>, tab: Table) {
    h == h0 || (tab in h && tab !in h0 && h[tab] == map[] && Resolve(h0, Sub(root), path) == None)
  }

  lemma StillFresh(h0: Heap, h: Heap, h1: Heap, root: Table, path: seq<Step>, keys: seq<Key>, tab: Table,
                   step: seq<Step>, k: Key, next: Table)
    requires Fresh(h0, h, root, path, tab) && Leads(h, root, path, keys, tab)
    requires h1 == h || (k !in h[tab] && step == [Into(k)] && next in h1 && next !in h0 && h1[next] == map[])
    requires tab !in h0 ==> h1 != h
    ensures Fresh(h0, h1, root, path + step, next)
  {
    ResolveConcat(h0, Sub(root), path, step);
  }

  lemma PlacedBelow(h0: Heap, h: Heap, h1: Heap, root: Table, path: seq<Step>, keys: seq<Key>, tab: Table,
                    tail: seq<Step>, v: Node)
    requires Fresh(h0, h, root, path, tab) && Leads(h, root, path, keys, tab) && Grows(h, h1)
    requires Placed(h, h1, tab, tail, v)
    ensures Placed(h0, h1, root, path + tail, v)
  {
    LeadsGrows(h, h1, root, path, keys, tab);
    ResolveConcat(h1, Sub(root), path, tail);
    ResolveConcat(h0, Sub(root), path, tail);
    if v.Sub? {
      forall k | k in h1[v.table]
        ensures Resolve(h1, Sub(root), path + tail + [Into(k)]) == Some(h1[v.table][k])
      {
        ResolveConcat(h1, Sub(root), path, tail + [Into(k)]);
        assert path + tail + [Into(k)] == path + (tail + [Into(k)]);
      }
    }
  }

  // ----- Nothing but the inserted path changes -----

  /** Only the path itself, what it goes through and what lies below it has changed. */
  ghost predicate OnlyAt(h0: Heap, h1: Heap, root: Table, path: seq<Step>) {
    forall p :: Resolve(h1, Sub(root), p) != Resolve(h0, Sub(root), p) ==> p <= path || path <= p
  }

  /** So far only what the path goes through has changed. */
  ghost predicate OnlyAbove(h0: Heap, h: Heap, root: Table, path: seq<Step>) {
    forall p :: Resolve(h, Sub(root), p) != Resolve(h0, Sub(root), p) ==> p <= path
  }

  lemma PrefixSplit(p: seq<Step>, q: seq<Step>) returns (rest: seq<Step>)
    requires q <= p
    ensures p == q + rest
  {
    rest := p[|q|..];
  }

  /** The pointer's table is reached by its own path alone. */
  lemma {:induction false} OnePath(h0: Heap, h: Heap, root: Table, path: seq<Step>, keys: seq<Key>, tab: Table,
                                   q: seq<Step>)
    requires root in h0 && Closed(h0) && Unshared(h0, Sub(root)) && OnlyAbove(h0, h, root, path)
    requires Fresh(h0, h, root, path, tab) && Leads(h, root, path, keys, tab)
    requires Resolve(h, Sub(root), q) == Some(Sub(tab))
    ensures q == path
  {
    if h != h0 {
      ResolvedWithin(h0, Sub(root), q);
      assert q <= path;
      var rest := PrefixSplit(path, q);
      ResolveConcat(h, Sub(root), q, rest);
    }
  }

  /** What changes in the pointer's table does not change the way to it. */
  lemma {:induction false} StillLeads(h0: Heap, h: Heap, h1: Heap, root: Table, path: seq<Step>, keys: seq<Key>,
                                      tab: Table)
    requires root in h0 && root in h && Closed(h0) && Closed(h) && Unshared(h0, Sub(root))
    requires OnlyAbove(h0, h, root, path)
    requires Fresh(h0, h, root, path, tab) && Leads(h, root, path, keys, tab) && SameBut(h, h1, tab)
    ensures Resolve(h1, Sub(root), path) == Some(Sub(tab))
  {
    if Resolve(h1, Sub(root), path) != Resolve(h, Sub(root), path) {
      var q, key := Diverges(h, h1, tab, Sub(root), path);
      OnePath(h0, h, root, path, keys, tab, q);
    }
  }

  /** A new table at the end of the path changes nothing but that end. */
  lemma {:induction false} CreatedAbove(h0: Heap, h: Heap, h1: Heap, root: Table, path: seq<Step>, keys: seq<Key>,
                                        tab: Table, k: Key)
    requires root in h0 && root in h && Closed(h0) && Closed(h) && Unshared(h0, Sub(root))
    requires OnlyAbove(h0, h, root, path)
    requires Fresh(h0, h, root, path, tab) && Leads(h, root, path, keys, tab) && NewTableAt(h, h1, tab, k)
    ensures OnlyAbove(h0, h1, root, path + [Into(k)])
  {
    var next := path + [Into(k)];
    forall p | Resolve(h1, Sub(root), p) != Resolve(h0, Sub(root), p) ensures p <= next {
      if Resolve(h1, Sub(root), p) != Resolve(h, Sub(root), p) {
        var q, key := Diverges(h, h1, tab, Sub(root), p);
        OnePath(h0, h, root, path, keys, tab, q);
        assert key == k && next <= p;
        var rest := PrefixSplit(p, next);
        StillLeads(h0, h, h1, root, path, keys, tab);
        BelowNew(h, h1, root, path, keys, tab, k, rest);
      } else {
        assert p <= path;
      }
    }
  }

  /** One move of the pointer, whether or not it has to create a table. */
  lemma {:induction false} MovedAbove(h0: Heap, h: Heap, h1: Heap, root: Table, path: seq<Step>, keys: seq<Key>,
                                      tab: Table,
                                      k: Key, step: seq<Step>)
    requires root in h0 && root in h && Closed(h0) && Closed(h) && Unshared(h0, Sub(root))
    requires OnlyAbove(h0, h, root, path)
    requires Fresh(h0, h, root, path, tab) && Leads(h, root, path, keys, tab)
    requires h1 == h || NewTableAt(h, h1, tab, k)
    ensures OnlyAt(h0, h1, root, path)
    ensures h1 == h || step == [Into(k)] ==> OnlyAbove(h0, h1, root, path + step)
  {
    if h1 != h {
      CreatedAbove(h0, h, h1, root, path, keys, tab, k);
    }
  }

  lemma BelowNew(h: Heap, h1: Heap, root: Table, path: seq<Step>, keys: seq<Key>, tab: Table, k: Key, rest: seq<Step>)
    requires Leads(h, root, path, keys, tab) && NewTableAt(h, h1, tab, k)
    requires Resolve(h1, Sub(root), path) == Some(Sub(tab))
    requires Resolve(h1, Sub(root), path + [Into(k)] + rest) != Resolve(h, Sub(root), path + [Into(k)] + rest)
    ensures rest == []
  {
    assert path + [Into(k)] + rest == path + ([Into(k)] + rest);
    ResolveConcat(h, Sub(root), path, [Into(k)] + rest);
    ResolveConcat(h1, Sub(root), path, [Into(k)] + rest);
    assert ([Into(k)] + rest)[1..] == rest;
  }

  /** The branches of the last key change nothing but what lies on or below their path. */
  lemma {:induction false} LastChanges(h0: Heap, h: Heap, h1: Heap, root: Table, path: seq<Step>, keys: seq<Key>,
                                       tab: Table,
                                       k: Key, tail: seq<Step>, p: seq<Step>)
    requires root in h0 && root in h && Closed(h0) && Closed(h) && Unshared(h0, Sub(root))
    requires OnlyAbove(h0, h, root, path)
    requires Fresh(h0, h, root, path, tab) && Leads(h, root, path, keys, tab) && ChangedAt(h, h1, tab, k, tail)
    requires Resolve(h1, Sub(root), p) != Resolve(h, Sub(root), p)
    ensures p <= path + tail || path + tail <= p
  {
    if h1 == h {
    } else if k !in h[tab] && tail == [Into(k)] {
      var q, key := Diverges(h, h1, tab, Sub(root), p);
      OnePath(h0, h, root, path, keys, tab, q);
    } else if Appended(h, h1, tab, k, tail) {
      var q, key := Diverges(h, h1, tab, Sub(root), p);
      OnePath(h0, h, root, path, keys, tab, q);
      StillLeads(h0, h, h1, root, path, keys, tab);
      AppendChanges(h0, h, h1, root, path, keys, tab, k, tail, p);
    } else {
      var t := h[tab][k].table;
      assert h == h0;
      var q, key := Diverges(h, h1, t, Sub(root), p);
      ResolveConcat(h, Sub(root), path, [Into(k)]);
      assert [Into(k)][1..] == [];
      assert Resolve(h, Sub(root), path + [Into(k)]) == Some(Sub(t));
      assert q == path + [Into(k)];
    }
  }

  lemma {:induction false} AppendChanges(h0: Heap, h: Heap, h1: Heap, root: Table, path: seq<Step>, keys: seq<Key>,
                                         tab: Table,
                                         k: Key, tail: seq<Step>, p: seq<Step>)
    requires root in h0 && root in h && Closed(h0) && Closed(h) && Unshared(h0, Sub(root))
    requires OnlyAbove(h0, h, root, path)
    requires Fresh(h0, h, root, path, tab) && Leads(h, root, path, keys, tab) && Appended(h, h1, tab, k, tail)
    requires path + [Into(k)] <= p && Resolve(h1, Sub(root), p) != Resolve(h, Sub(root), p)
    requires Resolve(h1, Sub(root), path) == Some(Sub(tab))
    ensures p <= path + tail || path + tail <= p
  {
    var items := h1[tab][k].items[..|h1[tab][k].items| - 1];
    var rest := PrefixSplit(p, path + [Into(k)]);
    var below := [Into(k)] + rest;
    assert p == path + below && below[1..] == rest;
    ResolveConcat(h, Sub(root), path, below);
    ResolveConcat(h1, Sub(root), path, below);
    if rest != [] && rest[0].At? && rest[0].index < |items| {
      var i := rest[0].index;
      assert Within(h, Array(items));
      var q, key := Diverges(h, h1, tab, items[i], rest[1..]);
      var round := path + ([Into(k), At(i)] + q);
      ResolveConcat(h, Sub(root), path, [Into(k), At(i)] + q);
      ItemPath(h, tab, k, items, i, q);
      OnePath(h0, h, root, path, keys, tab, round);
    }
  }

  lemma ItemPath(h: Heap, tab: Table, k: Key, items: seq<Node>, i: nat, q: seq<Step>)
    requires tab in h && k in h[tab] && h[tab][k] == Array(items) && i < |items|
    ensures Resolve(h, Sub(tab), [Into(k), At(i)] + q) == Resolve(h, items[i], q)
  {
    var p := [Into(k), At(i)] + q;
    assert p[1..] == [At(i)] + q && p[1..][1..] == q;
  }

  /** With no table shared, the insertion changes nothing but what lies on or below its path. */
  lemma {:induction false} InsertedOnlyAt(h0: Heap, h: Heap, h1: Heap, root: Table, path: seq<Step>, keys: seq<Key>,
                                          tab: Table,
                                          k: Key, tail: seq<Step>)
    requires root in h0 && root in h && Closed(h0) && Closed(h) && Unshared(h0, Sub(root))
    requires OnlyAbove(h0, h, root, path)
    requires Fresh(h0, h, root, path, tab) && Leads(h, root, path, keys, tab) && ChangedAt(h, h1, tab, k, tail)
    ensures OnlyAt(h0, h1, root, path + tail)
  {
    forall p | Resolve(h1, Sub(root), p) != Resolve(h0, Sub(root), p) ensures p <= path + tail || path + tail <= p {
      if Resolve(h1, Sub(root), p) != Resolve(h, Sub(root), p) {
        LastChanges(h0, h, h1, root, path, keys, tab, k, tail, p);
      }
    }
  }

  // ----- When an insertion succeeds -----

  /** One call of `insert_nested_key`, with how the texts of regions read. */
  datatype Definition = Definition(keys: seq<Key>, value: Node, keyReg: string, isArrayOfTable: bool,
                                   read: string -> Header)

  /** The last key takes the value if it is free, if a [[header]] finds an array that one opened, or if a table that
      may still be opened shares no key with the new one. */
  ghost function LastVerdict(h: Heap, g: Regions, tab: Table, d: Definition, k: Key): Outcome
    requires tab in h
  {
    if k !in h[tab] then Inserted
    else if d.isArrayOfTable then if IsMultiLineArray(g, h[tab][k]) then Inserted else SyntaxError
    else if Mergeable(h, h[tab][k], d.value) && Reopens(g, d.read, h[tab][k], d.value, d.keys) then Inserted
    else SyntaxError
  }

  /** What becomes of a definition from its i-th key on, told from the tables as they are before it. */
  ghost function Verdict(h: Heap, g: Regions, tab: Table, d: Definition, i: nat): Outcome
    requires Closed(h) && tab in h && i < |d.keys|
    decreases |d.keys| - i
  {
    var k := d.keys[i];
    if i + 1 == |d.keys| then LastVerdict(h, g, tab, d, k)
    else if k !in h[tab] then if IsInline(d.keyReg) then SyntaxError else Inserted
    else
      assert Within(h, h[tab][k]);
      match h[tab][k]
      case Scalar(_) => SyntaxError
      case Sub(t) => if Enterable(g, Sub(t)) then Verdict(h, g, t, d, i + 1) else SyntaxError
      case Array(items) =>
        if items == [] then EmptyBack
        else if !items[|items| - 1].Sub? then SyntaxError
        else
          assert Within(h, items[|items| - 1]);
          Verdict(h, g, items[|items| - 1].table, d, i + 1)
  }

  /** In an empty document every key can be defined, unless it calls for a table inside an inline one. */
  lemma EmptyAccepts(h: Heap, g: Regions, root: Table, d: Definition)
    requires Closed(h) && root in h && h[root] == map[] && d.keys != []
    ensures Verdict(h, g, root, d, 0) == Inserted <==> |d.keys| == 1 || !("{" <= d.keyReg)
  {
  }

  /** Nothing gets into a table whose text begins with a brace. */
  lemma InlineIsClosed(h: Heap, g: Regions, tab: Table, d: Definition, i: nat, t: Table)
    requires Closed(h) && tab in h && i + 1 < |d.keys| && d.keys[i] in h[tab] && h[tab][d.keys[i]] == Sub(t)
    requires t in g && "{" <= g[t]
    ensures Verdict(h, g, tab, d, i) == SyntaxError
  {
  }

  /** A key that is taken accepts a [[header]] exactly if its value is an array whose first element is a table with a
      text that begins with two brackets. */
  lemma HeadersAppend(h: Heap, g: Regions, tab: Table, d: Definition, k: Key)
    requires tab in h && h.Keys <= g.Keys && Closed(h) && k in h[tab] && d.isArrayOfTable
    ensures LastVerdict(h, g, tab, d, k) == Inserted <==>
      match h[tab][k]
      case Array(items) => items != [] && items[0].Sub? && items[0].table in g && "[[" <= g[items[0].table]
      case _ => false
  {
    if h[tab][k].Array? && h[tab][k].items != [] && h[tab][k].items[0].Sub? {
      assert Within(h, h[tab][k]) && Within(h, h[tab][k].items[0]);
      var text := g[h[tab][k].items[0].table];
      assert Prefix2(text) == "[[" <==> "[[" <= text;
    }
  }

  /** What its keys lead to cannot be defined again, but by a table. */
  lemma {:induction false} NoSecondDefinition(h: Heap, g: Regions, tab: Table, d: Definition, i: nat, path: seq<Step>)
    requires Closed(h) && tab in h && i < |d.keys| && !d.isArrayOfTable && !d.value.Sub?
    requires |path| == |d.keys| - i && forall j :: 0 <= j < |path| ==> path[j] == Into(d.keys[i + j])
    requires Resolve(h, Sub(tab), path).Some?
    ensures Verdict(h, g, tab, d, i) != Inserted
    decreases |path|
  {
    var n := h[tab][d.keys[i]];
    assert path[0] == Into(d.keys[i]) && Within(h, n);
    if i + 1 < |d.keys| && n.Sub? {
      NoSecondDefinition(h, g, n.table, d, i + 1, path[1..]);
    }
  }

  /** A table whose text is the same [header] is not opened again; one with another header is, unless a key is
      defined twice. */
  lemma HeaderOpensOnce(h: Heap, g: Regions, tab: Table, d: Definition, k: Key, t: Table, header: seq<Key>)
    requires Closed(h) && h.Keys <= g.Keys && tab in h && k in h[tab] && h[tab][k] == Sub(t) && t in h
    requires d.keys != [] && !d.isArrayOfTable && d.value.Sub? && d.value.table in h
    requires d.read(g[t]) == TableKey(header) && d.read(g[d.value.table]) == TableKey(d.keys)
    ensures LastVerdict(h, g, tab, d, k) == Inserted <==> header != d.keys && h[t].Keys !! h[d.value.table].Keys
  {
  }

  /** A table made by dotted keys is not opened by a [header], nor an inline one by anything. */
  lemma DottedStaysClosed(h: Heap, g: Regions, tab: Table, d: Definition, k: Key, t: Table)
    requires tab in h && k in h[tab] && h[tab][k] == Sub(t) && t in g && !d.isArrayOfTable
    requires d.value.Sub? && d.value.table in g
    requires (d.read(g[t]).DottedKey? && d.read(g[d.value.table]).TableKey?) || d.read(g[t]).InlineTable?
    ensures LastVerdict(h, g, tab, d, k) == SyntaxError
  {
  }

  /** What is left to decide when the pointer has come to tab: nothing, once it is in a new table. */
  ghost predicate Due(h0: Heap, g0: Regions, root: Table, d: Definition, tab: Table, i: nat) {
    && Closed(h0) && root in h0 && i < |d.keys|
    && (if tab in h0 then Verdict(h0, g0, root, d, 0) == Verdict(h0, g0, tab, d, i)
        else Verdict(h0, g0, root, d, 0) == Inserted && !IsInline(d.keyReg))
  }

  lemma DueNext(h0: Heap, g0: Regions, root: Table, d: Definition, tab: Table, i: nat, r: Outcome, next: Table)
    requires Due(h0, g0, root, d, tab, i) && i + 1 < |d.keys| && h0.Keys == g0.Keys
    requires tab in h0 && d.keys[i] in h0[tab] ==>
      && (r.EmptyBack? <==> h0[tab][d.keys[i]] == Array([]))
      && (r.Inserted? <==> Enterable(g0, h0[tab][d.keys[i]]))
      && (r.Inserted? ==> EnteredBy(h0[tab][d.keys[i]], next))
    requires !(tab in h0 && d.keys[i] in h0[tab]) ==>
      !r.EmptyBack? && (r.Inserted? <==> !IsInline(d.keyReg)) && (r.Inserted? ==> next !in h0)
    ensures if r.Inserted? then Due(h0, g0, root, d, next, i + 1) else r == Verdict(h0, g0, root, d, 0)
  {
    var k := d.keys[i];
    if tab in h0 && k in h0[tab] {
      assert Within(h0, h0[tab][k]);
      if h0[tab][k].Array? && h0[tab][k].items != [] {
        assert Within(h0, h0[tab][k].items[|h0[tab][k].items| - 1]);
      }
    }
  }

  lemma DueLast(h0: Heap, g0: Regions, root: Table, d: Definition, tab: Table, i: nat, r: Outcome)
    requires Due(h0, g0, root, d, tab, i) && i + 1 == |d.keys|
    requires r.Inserted? || r.SyntaxError?
    requires tab in h0 && d.keys[i] in h0[tab] ==>
      (r.Inserted? <==>
       if d.isArrayOfTable then IsMultiLineArray(g0, h0[tab][d.keys[i]])
       else
         && Mergeable(h0, h0[tab][d.keys[i]], d.value)
         && Reopens(g0, d.read, h0[tab][d.keys[i]], d.value, d.keys))
    requires !(tab in h0 && d.keys[i] in h0[tab]) ==> r.Inserted?
    ensures r == Verdict(h0, g0, root, d, 0)
  {
  }

  // ----- The pointer's way -----

  /** Where the pointer is after some of the keys, and what has changed by then. */
  ghost predicate OnTheWay(h0: Heap, h: Heap, root: Table, path: seq<Step>, keys: seq<Key>, tab: Table, site: Table) {
    && root in h0 && root in h && Closed(h0) && Closed(h) && Grows(h0, h)
    && Leads(h, root, path, keys, tab) && Fresh(h0, h, root, path, tab)
    && SameBut(h0, h, site) && (tab in h0 ==> h == h0)
    && (Unshared(h0, Sub(root)) ==> OnlyAbove(h0, h, root, path))
  }

  lemma DueFirst(h: Heap, g: Regions, root: Table, d: Definition)
    requires Closed(h) && root in h && d.keys != []
    ensures Due(h, g, root, d, root, 0) && Labelled(g, g, d.keyReg)
  {
  }

  lemma Start(h: Heap, root: Table)
    requires root in h && Closed(h)
    ensures OnTheWay(h, h, root, [], [], root, root)
  {
  }

  lemma NewIsEmpty(h0: Heap, h: Heap, root: Table, path: seq<Step>, keys: seq<Key>, tab: Table, site: Table)
    requires OnTheWay(h0, h, root, path, keys, tab, site)
    ensures Closed(h0) && root in h0 && Closed(h)
    ensures tab in h && h0.Keys <= h.Keys && (if tab in h0 then h == h0 else h[tab] == map[])
  {
  }

  /** What an insertion that stops has left behind. */
  ghost predicate Halted(h0: Heap, h: Heap, root: Table, path: seq<Step>) {
    Closed(h) && Grows(h0, h) && OneSite(h0, h) && (Unshared(h0, Sub(root)) ==> OnlyAt(h0, h, root, path))
  }

  lemma MovedOn(h0: Heap, h: Heap, h1: Heap, root: Table, path: seq<Step>, keys: seq<Key>, tab: Table, site: Table,
                k: Key, step: seq<Step>, next: Table, entered: bool)
    requires OnTheWay(h0, h, root, path, keys, tab, site) && Closed(h1) && Grows(h, h1)
    requires h1 == h || NewTableAt(h, h1, tab, k)
    requires h1 == h <==> k in h[tab]
    requires entered ==> Leads(h1, tab, step, [k], next)
    requires entered && h1 != h ==> next in h1 && next !in h && h1[next] == map[] && step == [Into(k)]
    ensures Halted(h0, h1, root, path)
    ensures entered ==> next in h1
    ensures entered ==>
      OnTheWay(h0, h1, root, path + step, keys + [k], next, if tab in h0 && h1 != h then tab else site)
  {
    hide Closed, Grows, Leads, Fresh, Resolve, Unshared, OnlyAt, OnlyAbove, OneSite;
    NewIsEmpty(h0, h, root, path, keys, tab, site);
    GrowsTransitive(h0, h, h1);
    assert SameBut(h0, h1, if tab in h0 && h1 != h then tab else site);
    Unchanged(h0, h1, if tab in h0 && h1 != h then tab else site);
    if Unshared(h0, Sub(root)) {
      MovedAbove(h0, h, h1, root, path, keys, tab, k, step);
    }
    if entered {
      LeadsGrows(h, h1, root, path, keys, tab);
      LeadsOn(h1, root, path, keys, tab, step, k, next);
      StillFresh(h0, h, h1, root, path, keys, tab, step, k, next);
    }
  }

  lemma Arrived(h0: Heap, h: Heap, h1: Heap, root: Table, path: seq<Step>, keys: seq<Key>, tab: Table, site: Table,
                k: Key, tail: seq<Step>, changed: Table, v: Node, inserted: bool)
    requires OnTheWay(h0, h, root, path, keys, tab, site) && Closed(h1) && Grows(h, h1)
    requires SameBut(h, h1, changed) && (k !in h[tab] ==> changed == tab) && ChangedAt(h, h1, tab, k, tail)
    requires inserted ==> Placed(h, h1, tab, tail, v) && KeysOf(tail) == [k]
    ensures Halted(h0, h1, root, path + tail)
    ensures inserted ==> Placed(h0, h1, root, path + tail, v) && KeysOf(path + tail) == keys + [k]
  {
    hide Closed, Grows, Leads, Placed, Fresh, Resolve, Unshared, OnlyAt, OnlyAbove, ChangedAt, OneSite;
    NewIsEmpty(h0, h, root, path, keys, tab, site);
    GrowsTransitive(h0, h, h1);
    Unchanged(h0, h1, if tab in h0 then changed else site);
    if Unshared(h0, Sub(root)) {
      InsertedOnlyAt(h0, h, h1, root, path, keys, tab, k, tail);
    }
    if inserted {
      PlacedBelow(h0, h, h1, root, path, keys, tab, tail, v);
      KeysOfPlaced(path, tail, h, root, keys, tab);
    }
  }

  lemma WithinStays(h0: Heap, h: Heap, v: Node)
    requires Within(h0, v) && h0.Keys <= h.Keys
    ensures Within(h, v)
  {
    WithinGrows(h0, h, v);
  }

  lemma Unchanged(h0: Heap, h1: Heap, site: Table)
    requires site in h0 && h0.Keys <= h1.Keys && forall u :: u in h0 && u != site ==> h1[u] == h0[u]
    ensures OneSite(h0, h1)
  {
  }

  lemma KeysOfPlaced(path: seq<Step>, tail: seq<Step>, h: Heap, root: Table, keys: seq<Key>, tab: Table)
    requires Leads(h, root, path, keys, tab)
    ensures KeysOf(path + tail) == keys + KeysOf(tail)
  {
    KeysOfConcat(path, tail);
  }

  /** New tables carry the key's region, and so does a table that was merged into; no other region changes. */
  ghost predicate Relabelled(h0: Heap, g0: Regions, g1: Regions, root: Table, d: Definition, path: seq<Step>,
                             r: Outcome) {
    && g0.Keys <= g1.Keys
    && forall t :: t in g1 ==>
      var merged := r.Inserted? && !d.isArrayOfTable && Resolve(h0, Sub(root), path) == Some(Sub(t));
      g1[t] == if t !in g0 || merged then d.keyReg else g0[t]
  }

  lemma RelabelledAt(h0: Heap, g0: Regions, h: Heap, g1: Regions, root: Table, path: seq<Step>, keys: seq<Key>,
                     tab: Table, site: Table, d: Definition, k: Key, tail: seq<Step>, r: Outcome)
    requires OnTheWay(h0, h, root, path, keys, tab, site) && g0.Keys == h0.Keys && h0.Keys <= g1.Keys
    requires r.Inserted? && !d.isArrayOfTable ==> tail == [Into(k)]
    requires forall t :: t in g1 ==>
      var merged := r.Inserted? && !d.isArrayOfTable && k in h[tab] && h[tab][k] == Sub(t);
      g1[t] == if t !in g0 || merged then d.keyReg else g0[t]
    ensures Relabelled(h0, g0, g1, root, d, path + tail, r)
  {
    if r.Inserted? && !d.isArrayOfTable {
      assert [Into(k)][1..] == [];
      ResolveConcat(h0, Sub(root), path, tail);
    }
  }

  /** Old tables have their regions still, and new ones the key's. */
  ghost predicate Labelled(g0: Regions, g: Regions, keyReg: string) {
    g0.Keys <= g.Keys && forall t :: t in g ==> g[t] == if t in g0 then g0[t] else keyReg
  }

  lemma HaltedLabels(h0: Heap, g0: Regions, g1: Regions, root: Table, d: Definition, path: seq<Step>, r: Outcome)
    requires Labelled(g0, g1, d.keyReg) && !r.Inserted?
    ensures Relabelled(h0, g0, g1, root, d, path, r)
  {
  }

  /** What holds of a whole insertion. */
  ghost predicate Settled(h0: Heap, g0: Regions, h1: Heap, g1: Regions, root: Table, d: Definition, path: seq<Step>,
                          r: Outcome) {
    && Closed(h0) && root in h0 && d.keys != [] && r == Verdict(h0, g0, root, d, 0)
    && Halted(h0, h1, root, path) && Relabelled(h0, g0, g1, root, d, path, r)
    && (r.Inserted? ==> Placed(h0, h1, root, path, d.value) && KeysOf(path) == d.keys)
  }

  lemma OneMoreKey(keys: seq<Key>, i: nat)
    requires i < |keys|
    ensures keys[..i] + [keys[i]] == keys[..i + 1] && keys[..|keys|] == keys
  {
  }

  /** The turn of the loop for the last key. */
  method TakeLast(root: Table, tab: Table, d: Definition, i: nat, ghost h0: Heap, ghost g0: Regions,
                  ghost path: seq<Step>, ghost site: Table, ghost now: set<Table>)
    returns (r: Outcome, ghost whole: seq<Step>)
    requires tab in now && i + 1 == |d.keys| && Within(h0, d.value) && g0.Keys == h0.Keys
    requires OnTheWay(h0, Snapshot(now), root, path, d.keys[..i], tab, site) && Due(h0, g0, root, d, tab, i)
    requires Labelled(g0, RegionsOf(now), d.keyReg)
    modifies now
    ensures Settled(h0, g0, Snapshot(now), RegionsOf(now), root, d, whole, r)
  {
    hide Closed, Grows, Placed, Resolve, Within, Unshared, OnlyAt, OnlyAbove, ChangedAt;
    hide OnTheWay, Due, Verdict, Relabelled, IsMultiLineArray, Mergeable, OneSite, Halted;
    ghost var h := Snapshot(now);
    ghost var k := d.keys[i];
    NewIsEmpty(h0, h, root, path, d.keys[..i], tab, site);
    assert tab in h0 ==> RegionsOf(now) == g0;
    WithinStays(h0, h, d.value);
    ghost var tail, changed;
    r, tail, changed := InsertLast(tab, d.keys, d.keys[i], d.value, d.keyReg, d.isArrayOfTable, d.read, now);
    whole := path + tail;
    Arrived(h0, h, Snapshot(now), root, path, d.keys[..i], tab, site, k, tail, changed, d.value, r.Inserted?);
    DueLast(h0, g0, root, d, tab, i, r);
    RelabelledAt(h0, g0, h, RegionsOf(now), root, path, d.keys[..i], tab, site, d, k, tail, r);
    OneMoreKey(d.keys, i);
  }

  /** The turn of the loop for a key before the last. */
  method TakeNext(root: Table, tab: Table, d: Definition, i: nat, ghost h0: Heap, ghost g0: Regions,
                  ghost path: seq<Step>, ghost site: Table, ghost now: set<Table>)
    returns (r: Outcome, next: Table, ghost longer: seq<Step>, ghost more: set<Table>, ghost site1: Table)
    requires tab in now && i + 1 < |d.keys| && g0.Keys == h0.Keys
    requires OnTheWay(h0, Snapshot(now), root, path, d.keys[..i], tab, site) && Due(h0, g0, root, d, tab, i)
    requires Labelled(g0, RegionsOf(now), d.keyReg)
    modifies now
    ensures fresh(more) && (r.Inserted? ==> next in now + more)
    ensures if r.Inserted? then
              && OnTheWay(h0, Snapshot(now + more), root, longer, d.keys[..i + 1], next, site1)
              && Due(h0, g0, root, d, next, i + 1) && Labelled(g0, RegionsOf(now + more), d.keyReg)
            else Settled(h0, g0, Snapshot(now + more), RegionsOf(now + more), root, d, longer, r)
  {
    hide Closed, Grows, Leads, Placed, Resolve, Within, Unshared, OnlyAt, OnlyAbove, NewTableAt;
    hide OnTheWay, Due, Verdict, Relabelled, Enterable, EnteredBy, OneSite, Halted;
    ghost var h := Snapshot(now);
    ghost var k := d.keys[i];
    NewIsEmpty(h0, h, root, path, d.keys[..i], tab, site);
    assert tab in h0 ==> RegionsOf(now) == g0;
    ghost var step;
    r, next, step, more := Descend(tab, d.keys[i], d.keyReg, now);
    ghost var h1 := Snapshot(now + more);
    MovedOn(h0, h, h1, root, path, d.keys[..i], tab, site, k, step, next, r.Inserted?);
    DueNext(h0, g0, root, d, tab, i, r, next);
    OneMoreKey(d.keys, i);
    site1 := if tab in h0 && h1 != h then tab else site;
    if r.Inserted? {
      longer := path + step;
    } else {
      longer := path;
      HaltedLabels(h0, g0, RegionsOf(now + more), root, d, path, r);
    }
  }

  /** `insert_nested_key`. Its outcome is the verdict over the tables as they were. Whether it returns or throws,
      nothing defined before is lost; what it inserts is found at its key. */
  method InsertNestedKey(root: Table, v: Node, keys: seq<Key>, keyReg: string, isArrayOfTable: bool,
                         read: string -> Header, ghost all: set<Table>)
    returns (r: Outcome, ghost path: seq<Step>, ghost made: set<Table>)
    requires keys != [] && root in all && Closed(Snapshot(all)) && Within(Snapshot(all), v)
    modifies all
    ensures fresh(made) && Closed(Snapshot(all + made))
    ensures Grows(old(Snapshot(all)), Snapshot(all + made)) && OneSite(old(Snapshot(all)), Snapshot(all + made))
    ensures var d := Definition(keys, v, keyReg, isArrayOfTable, read);
      && r == Verdict(old(Snapshot(all)), old(RegionsOf(all)), root, d, 0)
      && Relabelled(old(Snapshot(all)), old(RegionsOf(all)), RegionsOf(all + made), root, d, path, r)
    ensures r.Inserted? ==> Placed(old(Snapshot(all)), Snapshot(all + made), root, path, v) && KeysOf(path) == keys
    ensures Unshared(old(Snapshot(all)), Sub(root)) ==> OnlyAt(old(Snapshot(all)), Snapshot(all + made), root, path)
  {
    hide Closed, Grows, Placed, Within, Unshared, OnlyAt, OnTheWay, Due, Verdict, Relabelled, OneSite, Labelled;
    var d := Definition(keys, v, keyReg, isArrayOfTable, read);
    ghost var h0, g0, now, site := Snapshot(all), RegionsOf(all), all, root;
    path, made := [], {};
    var tab := root;
    Start(h0, root);
    DueFirst(h0, g0, root, d);
    for i := 0 to |keys|
      invariant i < |keys|
      invariant fresh(made) && now == all + made && tab in now
      invariant OnTheWay(h0, Snapshot(now), root, path, keys[..i], tab, site)
      invariant Due(h0, g0, root, d, tab, i) && Labelled(g0, RegionsOf(now), keyReg)
      modifies all, made
    {
      if i + 1 == |keys| {
        r, path := TakeLast(root, tab, d, i, h0, g0, path, site, now);
        return;
      }
      ghost var more;
      r, tab, path, more, site := TakeNext(root, tab, d, i, h0, g0, path, site, now);
      made, now := made + more, now + more;
      assert now == all + made;
      if !r.Inserted? {
        return;
      }
    }
    assert false;  // never reached
  }

  // ----- Whole documents -----

  /** Everything the value had in the first heap is still found below the path, or has grown there. */
  ghost predicate Kept(h0: Heap, h: Heap, root: Table, path: seq<Step>, v: Node) {
    match v
    case Sub(t) =>
      t in h0 && forall k :: k in h0[t] ==>
        var at := Resolve(h, Sub(root), path + [Into(k)]);
        at.Some? && NodeGrows(h0[t][k], at.value)
    case _ =>
      var at := Resolve(h, Sub(root), path);
      at.Some? && NodeGrows(v, at.value)
  }

  lemma DefinedIsKept(h0: Heap, h: Heap, root: Table, path: seq<Step>, v: Node)
    requires Defined(h, root, path, v) && Grows(h0, h) && (v.Sub? ==> v.table in h0)
    ensures Kept(h0, h, root, path, v)
  {
    if v.Sub? {
      assert EntriesGrow(h0[v.table], h[v.table]);
    }
  }

  lemma KeptGrows(h0: Heap, h: Heap, h1: Heap, root: Table, path: seq<Step>, v: Node)
    requires Kept(h0, h, root, path, v) && Grows(h, h1)
    ensures Kept(h0, h1, root, path, v)
  {
    if v.Sub? {
      forall k | k in h0[v.table]
        ensures var at := Resolve(h1, Sub(root), path + [Into(k)]); at.Some? && NodeGrows(h0[v.table][k], at.value)
      {
        ResolveGrows(h, h1, Sub(root), Sub(root), path + [Into(k)]);
      }
    } else {
      ResolveGrows(h, h1, Sub(root), Sub(root), path);
    }
  }

  /** The tables and regions at one moment. */
  datatype Moment = Moment(heap: Heap, regions: Regions)

  /** What becomes of a whole definition. */
  ghost predicate Decided(m: Moment, root: Table, d: Definition, r: Outcome) {
    && Closed(m.heap) && root in m.heap && d.keys != []
    && r == Verdict(m.heap, m.regions, root, d, 0)
  }

  /** What one insertion does to the tables. */
  ghost predicate Stepped(m: Moment, m1: Moment, root: Table, d: Definition, path: seq<Step>, r: Outcome) {
    && Decided(m, root, d, r)
    && Grows(m.heap, m1.heap) && OneSite(m.heap, m1.heap)
    && Relabelled(m.heap, m.regions, m1.regions, root, d, path, r)
    && (r.Inserted? ==> Placed(m.heap, m1.heap, root, path, d.value) && KeysOf(path) == d.keys)
    && (Unshared(m.heap, Sub(root)) ==> OnlyAt(m.heap, m1.heap, root, path))
  }

  /** Each definition was accepted as things stood, and went in at its path. */
  ghost predicate Chained(ms: seq<Moment>, root: Table, defs: seq<Definition>, paths: seq<seq<Step>>) {
    && |ms| == |defs| + 1 && |paths| == |defs|
    && forall j :: 0 <= j < |defs| ==> Stepped(ms[j], ms[j + 1], root, defs[j], paths[j], Inserted)
  }

  lemma ChainedOn(ms: seq<Moment>, root: Table, defs: seq<Definition>, paths: seq<seq<Step>>, m: Moment,
                  d: Definition, path: seq<Step>)
    requires Chained(ms, root, defs, paths)
    requires Stepped(ms[|ms| - 1], m, root, d, path, Inserted)
    ensures Chained(ms + [m], root, defs + [d], paths + [path])
  {
    hide Stepped;
  }

  /** `insert_nested_key` for one definition, with everything it says in one predicate. */
  method Define(root: Table, d: Definition, ghost all: set<Table>)
    returns (r: Outcome, ghost path: seq<Step>, ghost made: set<Table>)
    requires root in all && Closed(Snapshot(all)) && d.keys != [] && Within(Snapshot(all), d.value)
    modifies all
    ensures fresh(made) && Closed(Snapshot(all + made))
    ensures Stepped(old(Moment(Snapshot(all), RegionsOf(all))), Moment(Snapshot(all + made), RegionsOf(all + made)),
                    root, d, path, r)
  {
    hide Closed, Grows, Placed, Within, OneSite, Relabelled, Unshared, OnlyAt, Verdict;
    r, path, made := InsertNestedKey(root, d.value, d.keys, d.keyReg, d.isArrayOfTable, d.read, all);
  }

  lemma SteppedGrows(m: Moment, m1: Moment, root: Table, d: Definition, path: seq<Step>, r: Outcome)
    requires Stepped(m, m1, root, d, path, r)
    ensures Decided(m, root, d, r) && Grows(m.heap, m1.heap)
    ensures r.Inserted? ==> Placed(m.heap, m1.heap, root, path, d.value)
  {
  }

  /** After a chain of definitions all of them still stand. */
  ghost predicate Standing(first: Moment, m: Moment, ms: seq<Moment>, root: Table, defs: seq<Definition>,
                           paths: seq<seq<Step>>) {
    && Chained(ms, root, defs, paths) && ms[0] == first && ms[|defs|] == m
    && Closed(m.heap) && Grows(first.heap, m.heap)
    && forall j :: 0 <= j < |defs| ==> Kept(first.heap, m.heap, root, paths[j], defs[j].value)
  }

  lemma StandingFirst(m: Moment, root: Table)
    requires Closed(m.heap)
    ensures Standing(m, m, [m], root, [], [])
  {
    GrowsReflexive(m.heap);
  }

  lemma StandingKeeps(first: Moment, m: Moment, ms: seq<Moment>, root: Table, defs: seq<Definition>,
                      paths: seq<seq<Step>>)
    requires Standing(first, m, ms, root, defs, paths)
    ensures |paths| == |defs| && |ms| == |defs| + 1 && ms[0] == first && ms[|defs|] == m
    ensures Chained(ms, root, defs, paths)
    ensures first.heap.Keys <= m.heap.Keys && Closed(m.heap) && Grows(first.heap, m.heap)
    ensures forall j :: 0 <= j < |defs| ==> Kept(first.heap, m.heap, root, paths[j], defs[j].value)
  {
    hide Kept, Stepped, Closed;
  }

  lemma StandingOn(first: Moment, m: Moment, m1: Moment, ms: seq<Moment>, root: Table, defs: seq<Definition>, n: nat,
                   paths: seq<seq<Step>>, path: seq<Step>, r: Outcome)
    requires n < |defs| && Standing(first, m, ms, root, defs[..n], paths) && Stepped(m, m1, root, defs[n], path, r)
    requires Within(first.heap, defs[n].value) && Closed(m1.heap)
    ensures |ms| == n + 1 && |paths| == n && Chained(ms, root, defs[..n], paths) && ms[0] == first
    ensures Grows(first.heap, m1.heap)
    ensures forall j :: 0 <= j < n ==> Kept(first.heap, m1.heap, root, paths[j], defs[j].value)
    ensures if r.Inserted? then Standing(first, m1, ms + [m1], root, defs[..n + 1], paths + [path])
            else Decided(ms[n], root, defs[n], r)
  {
    hide Closed, Grows, Kept, Placed, Within, Stepped, Decided;
    SteppedGrows(m, m1, root, defs[n], path, r);
    AllKeptGrow(first.heap, m.heap, m1.heap, root, paths, defs[..n]);
    GrowsTransitive(first.heap, m.heap, m1.heap);
    if r.Inserted? {
      NewKept(first.heap, m.heap, m1.heap, root, path, defs[n].value);
      ChainedOn(ms, root, defs[..n], paths, m1, defs[n], path);
      assert defs[..n] + [defs[n]] == defs[..n + 1];
    }
  }

  /** The definitions of a document, in order, up to the first that is refused; at the end every one of them still
      stands. */
  method DefineAll(root: Table, defs: seq<Definition>, ghost all: set<Table>)
    returns (r: Outcome, n: nat, ghost paths: seq<seq<Step>>, ghost made: set<Table>, ghost ms: seq<Moment>)
    requires root in all && Closed(Snapshot(all))
    requires forall j :: 0 <= j < |defs| ==> defs[j].keys != [] && Within(Snapshot(all), defs[j].value)
    modifies all
    ensures fresh(made) && Closed(Snapshot(all + made)) && Grows(old(Snapshot(all)), Snapshot(all + made))
    ensures n <= |defs| && Chained(ms, root, defs[..n], paths)
    ensures ms[0] == Moment(old(Snapshot(all)), old(RegionsOf(all)))
    ensures if n < |defs| then !r.Inserted? && Decided(ms[n], root, defs[n], r)
            else r.Inserted? && ms[n] == Moment(Snapshot(all + made), RegionsOf(all + made))
    ensures forall j :: 0 <= j < n ==> Kept(old(Snapshot(all)), Snapshot(all + made), root, paths[j], defs[j].value)
  {
    hide Closed, Grows, Kept, Within, Stepped, Decided, Standing;
    ghost var first := Moment(Snapshot(all), RegionsOf(all));
    r, n, paths, made, ms := Inserted, 0, [], {}, [first];
    StandingFirst(first, root);
    assert all + made == all;
    while n < |defs|
      invariant n <= |defs| && fresh(made) && r.Inserted?
      invariant Standing(first, Moment(Snapshot(all + made), RegionsOf(all + made)), ms, root, defs[..n], paths)
      modifies all, made
    {
      ghost var now := all + made;
      ghost var m := Moment(Snapshot(now), RegionsOf(now));
      StandingKeeps(first, m, ms, root, defs[..n], paths);
      WithinStays(first.heap, m.heap, defs[n].value);
      ghost var path, more;
      r, path, more := Define(root, defs[n], now);
      made := made + more;
      assert now + more == all + made;
      ghost var m1 := Moment(Snapshot(all + made), RegionsOf(all + made));
      StandingOn(first, m, m1, ms, root, defs, n, paths, path, r);
      if !r.Inserted? {
        return;
      }
      paths, ms, n := paths + [path], ms + [m1], n + 1;
    }
    StandingKeeps(first, Moment(Snapshot(all + made), RegionsOf(all + made)), ms, root, defs[..n], paths);
  }

  lemma AllKeptGrow(h0: Heap, h: Heap, h1: Heap, root: Table, paths: seq<seq<Step>>, defs: seq<Definition>)
    requires |paths| == |defs| && Grows(h, h1)
    requires forall j :: 0 <= j < |defs| ==> Kept(h0, h, root, paths[j], defs[j].value)
    ensures forall j :: 0 <= j < |defs| ==> Kept(h0, h1, root, paths[j], defs[j].value)
  {
    forall j | 0 <= j < |defs|
      ensures Kept(h0, h1, root, paths[j], defs[j].value)
    {
      KeptGrows(h0, h, h1, root, paths[j], defs[j].value);
    }
  }

  lemma NewKept(h0: Heap, h: Heap, h1: Heap, root: Table, path: seq<Step>, v: Node)
    requires Placed(h, h1, root, path, v) && Grows(h0, h1) && Within(h0, v)
    ensures Kept(h0, h1, root, path, v)
  {
    DefinedIsKept(h0, h1, root, path, v);
  }
}
