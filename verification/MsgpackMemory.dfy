/** The memory msgpack-c works on: counted buffers, and the zones that hold on to them. */
module MsgpackMemory {
  import opened Common

  /** A malloc'ed buffer: the reference count in its first bytes, and its contents. */
  datatype Block = Block(count: nat, data: seq<Byte>)

  /** What a str, bin or ext object keeps: a place in a buffer, and the text it is meant to find there. */
  datatype Pointer = Pointer(block: nat, at: nat, text: seq<Byte>)

  /** A zone: the buffers its finalizer array will release, and the pointers of the objects allocated in it. */
  datatype Zone = Zone(finalizers: seq<nat>, objects: seq<Pointer>)

  function Times(fs: seq<nat>, b: nat): nat {
    multiset(fs)[b]
  }

  /** How many finalizers for buffer b are pending in the live zones with an id below n. */
  function Pending(zones: map<nat, Zone>, n: nat, b: nat): nat {
    if n == 0 then 0
    else Pending(zones, n - 1, b) + if n - 1 in zones then Times(zones[n - 1].finalizers, b) else 0
  }

  /** The references to buffer b: the unpacker's own, and one for each pending finalizer. */
  function References(zones: map<nat, Zone>, n: nat, own: Option<nat>, b: nat): nat {
    Pending(zones, n, b) + if own == Some(b) then 1 else 0
  }

  /** Every live buffer is counted right, every reference is to a live buffer. */
  ghost predicate Counted(blocks: map<nat, Block>, zones: map<nat, Zone>, n: nat, own: Option<nat>) {
    && (forall b :: b in blocks ==> b < n && blocks[b].count == References(zones, n, own, b) && blocks[b].count > 0)
    && (forall z :: z in zones ==> z < n)
    && (forall z, b :: z in zones && b in zones[z].finalizers ==> b in blocks)
    && (own.Some? ==> own.value in blocks)
  }

  /** The pointer's buffer is alive and still holds what the pointer was made for. */
  predicate Reads(blocks: map<nat, Block>, ptr: Pointer) {
    && ptr.block in blocks && ptr.at + |ptr.text| <= |blocks[ptr.block].data|
    && blocks[ptr.block].data[ptr.at..ptr.at + |ptr.text|] == ptr.text
  }

  /** A zone holds on to the buffers its objects point into, but for the one buffer it has on loan from the unpacker. */
  predicate HeldBy(zones: map<nat, Zone>, z: nat, ptr: Pointer, loan: Option<(nat, nat)>)
    requires z in zones
  {
    ptr.block in zones[z].finalizers || loan == Some((z, ptr.block))
  }

  ghost predicate Sound(blocks: map<nat, Block>, zones: map<nat, Zone>, loan: Option<(nat, nat)>) {
    forall z, ptr :: z in zones && ptr in zones[z].objects ==> Reads(blocks, ptr) && HeldBy(zones, z, ptr, loan)
  }

  lemma {:induction false} PendingAgrees(zones: map<nat, Zone>, other: map<nat, Zone>, n: nat, b: nat)
    requires forall z :: 0 <= z < n ==> (z in zones <==> z in other)
    requires forall z :: 0 <= z < n && z in zones ==> zones[z].finalizers == other[z].finalizers
    ensures Pending(zones, n, b) == Pending(other, n, b)
  {
    if n > 0 {
      PendingAgrees(zones, other, n - 1, b);
    }
  }

  lemma {:induction false} PendingUpdate(zones: map<nat, Zone>, n: nat, z: nat, now: Zone, b: nat)
    requires z in zones && z < n
    ensures Pending(zones[z := now], n, b) + Times(zones[z].finalizers, b) ==
      Pending(zones, n, b) + Times(now.finalizers, b)
  {
    if z == n - 1 {
      PendingAgrees(zones, zones[z := now], n - 1, b);
    } else {
      PendingUpdate(zones, n - 1, z, now, b);
    }
  }

  lemma {:induction false} PendingRemove(zones: map<nat, Zone>, n: nat, z: nat, b: nat)
    requires z in zones && z < n && zones[z].finalizers == []
    ensures Pending(zones - {z}, n, b) == Pending(zones, n, b)
  {
    if z == n - 1 {
      PendingAgrees(zones, zones - {z}, n - 1, b);
    } else {
      PendingRemove(zones, n - 1, z, b);
    }
  }

  lemma {:induction false} PendingPositive(zones: map<nat, Zone>, n: nat, z: nat, b: nat)
    requires z in zones && z < n && b in zones[z].finalizers
    ensures Pending(zones, n, b) > 0
  {
    if z < n - 1 {
      PendingPositive(zones, n - 1, z, b);
    }
  }

  lemma {:induction false} PendingWitness(zones: map<nat, Zone>, n: nat, b: nat) returns (z: nat)
    requires Pending(zones, n, b) > 0
    ensures z in zones && z < n && b in zones[z].finalizers
  {
    if n - 1 in zones && b in zones[n - 1].finalizers {
      z := n - 1;
    } else {
      z := PendingWitness(zones, n - 1, b);
    }
  }

  /** Memory with one reference to b dropped, and b freed if that was the last. */
  function Dropped(blocks: map<nat, Block>, b: nat): map<nat, Block>
    requires b in blocks
  {
    if blocks[b].count <= 1 then blocks - {b} else blocks[b := blocks[b].(count := blocks[b].count - 1)]
  }

  function Popped(zones: map<nat, Zone>, z: nat): map<nat, Zone>
    requires z in zones && zones[z].finalizers != []
  {
    var fs := zones[z].finalizers;
    zones[z := Zone(fs[..|fs| - 1], [])]
  }

  lemma TimesAdd(fs: seq<nat>, f: nat, b: nat)
    ensures Times(fs + [f], b) == Times(fs, b) + if f == b then 1 else 0
  {
  }

  lemma PoppedPending(zones: map<nat, Zone>, n: nat, z: nat, b: nat)
    requires z in zones && z < n && zones[z].finalizers != []
    ensures var fs := zones[z].finalizers;
      Pending(zones, n, b) == Pending(Popped(zones, z), n, b) + if fs[|fs| - 1] == b then 1 else 0
  {
    var fs := zones[z].finalizers;
    assert fs == fs[..|fs| - 1] + [fs[|fs| - 1]];
    TimesAdd(fs[..|fs| - 1], fs[|fs| - 1], b);
    PendingUpdate(zones, n, z, Zone(fs[..|fs| - 1], []), b);
  }

  /** Running the last finalizer of a zone keeps the count of every buffer right. */
  lemma CountedPop(blocks: map<nat, Block>, zones: map<nat, Zone>, n: nat, own: Option<nat>, z: nat)
    requires Counted(blocks, zones, n, own) && z in zones && zones[z].finalizers != []
    ensures var fs := zones[z].finalizers;
      fs[|fs| - 1] in blocks && Counted(Dropped(blocks, fs[|fs| - 1]), Popped(zones, z), n, own)
  {
    var fs, after := zones[z].finalizers, Popped(zones, z);
    var last := fs[|fs| - 1];
    assert last in fs;
    var left := Dropped(blocks, last);
    forall b | b in left
      ensures b < n && left[b].count == References(after, n, own, b) && left[b].count > 0
    {
      PoppedPending(zones, n, z, b);
    }
    forall z', b | z' in after && b in after[z'].finalizers
      ensures b in left
    {
      PendingPositive(after, n, z', b);
      PoppedPending(zones, n, z, b);
      assert b in zones[z'].finalizers;
    }
    PoppedPending(zones, n, z, last);
  }

  /** Nor does it take a buffer away from an object of another zone. */
  lemma SoundPop(blocks: map<nat, Block>, zones: map<nat, Zone>, n: nat, own: Option<nat>, loan: Option<(nat, nat)>,
                 z: nat)
    requires Counted(blocks, zones, n, own) && Sound(blocks, zones, loan) && z in zones && zones[z].finalizers != []
    requires loan.Some? ==> own == Some(loan.value.1)
    ensures var fs := zones[z].finalizers;
      fs[|fs| - 1] in blocks && Sound(Dropped(blocks, fs[|fs| - 1]), Popped(zones, z), loan)
  {
    CountedPop(blocks, zones, n, own, z);
    var fs, after := zones[z].finalizers, Popped(zones, z);
    var left := Dropped(blocks, fs[|fs| - 1]);
    forall z', ptr | z' in after && ptr in after[z'].objects
      ensures Reads(left, ptr) && HeldBy(after, z', ptr, loan)
    {
      assert z' != z && ptr in zones[z'].objects;
      assert Reads(blocks, ptr) && HeldBy(zones, z', ptr, loan);
      if ptr.block in zones[z'].finalizers {
        assert ptr.block in after[z'].finalizers;
      }
      assert ptr.block in left;
    }
  }

  /** Buffers may have gone or changed their counts, but what is left holds the same bytes. */
  predicate SameBytes(before: map<nat, Block>, after: map<nat, Block>) {
    forall b :: b in after ==> b in before && after[b].data == before[b].data
  }

  /** The same bytes in a shorter or longer buffer. */
  function Resized(data: seq<Byte>, size: nat): (r: seq<Byte>)
    ensures |r| == size && forall k :: 0 <= k < |data| && k < size ==> r[k] == data[k]
  {
    if size <= |data| then data[..size] else data + seq(size - |data|, _ => 0)
  }

  /** The heap: buffers and zones by address, and the addresses already given out. */
  class Memory {
    var blocks: map<nat, Block>
    var zones: map<nat, Zone>
    var next: nat

    constructor ()
      ensures blocks == map[] && zones == map[] && next == 0
    {
      blocks, zones, next := map[], map[], 0;
    }

    /** `malloc` and `init_count`. */
    method NewBuffer(data: seq<Byte>) returns (b: nat)
      modifies this`blocks, this`next
      ensures b == old(next) && next == old(next) + 1 && zones == old(zones)
      ensures blocks == old(blocks)[b := Block(1, data)]
    {
      b := next;
      blocks, next := blocks[b := Block(1, data)], next + 1;
    }

    /** `realloc`: the old buffer is gone, its bytes and its count have moved. */
    method Realloc(b: nat, size: nat) returns (c: nat)
      requires b in blocks
      modifies this`blocks, this`next
      ensures c == old(next) && next == old(next) + 1
      ensures blocks == old(blocks)[c := Block(old(blocks)[b].count, Resized(old(blocks)[b].data, size))] - {b}
    {
      c := next;
      blocks := blocks[c := Block(blocks[b].count, Resized(blocks[b].data, size))] - {b};
      next := next + 1;
    }

    method NewZone() returns (z: nat)
      modifies this`zones, this`next
      ensures z == old(next) && next == old(next) + 1 && blocks == old(blocks)
      ensures zones == old(zones)[z := Zone([], [])]
    {
      z := next;
      zones, next := zones[z := Zone([], [])], next + 1;
    }

    /** `decr_count`: the last reference frees the buffer. */
    method DecrCount(b: nat)
      requires b in blocks && blocks[b].count > 0
      modifies this`blocks
      ensures blocks == Dropped(old(blocks), b)
    {
      var count := blocks[b].count - 1;
      if count == 0 {
        blocks := blocks - {b};
      } else {
        blocks := blocks[b := blocks[b].(count := count)];
      }
    }

    method IncrCount(b: nat)
      requires b in blocks
      modifies this`blocks
      ensures blocks == old(blocks)[b := Block(old(blocks)[b].count + 1, old(blocks)[b].data)]
    {
      blocks := blocks[b := blocks[b].(count := blocks[b].count + 1)];
    }

    method PushFinalizer(z: nat, b: nat)
      requires z in zones
      modifies this`zones
      ensures zones == old(zones)[z := Zone(old(zones)[z].finalizers + [b], old(zones)[z].objects)]
    {
      zones := zones[z := zones[z].(finalizers := zones[z].finalizers + [b])];
    }

    /** `call_finalizer_array`, last finalizer first, on a zone whose objects are dead; each one that has run is
        taken off. */
    method CallFinalizers(z: nat, ghost own: Option<nat>, ghost loan: Option<(nat, nat)>)
      requires z in zones && Counted(blocks, zones, next, own) && Sound(blocks, zones, loan)
      requires loan.Some? ==> own == Some(loan.value.1)
      modifies this`blocks, this`zones
      ensures zones == old(zones)[z := Zone([], [])] && SameBytes(old(blocks), blocks)
      ensures Counted(blocks, zones, next, own) && Sound(blocks, zones, loan)
    {
      hide Counted, Sound, References, Pending;
      ObjectsDie(blocks, zones, next, own, loan, z);
      zones := zones[z := zones[z].(objects := [])];
      while zones[z].finalizers != []
        invariant z in zones && zones == old(zones)[z := zones[z]] && zones[z].objects == []
        invariant SameBytes(old(blocks), blocks)
        invariant Counted(blocks, zones, next, own) && Sound(blocks, zones, loan)
        decreases |zones[z].finalizers|
      {
        var fs := zones[z].finalizers;
        CountedPop(blocks, zones, next, own, z);
        SoundPop(blocks, zones, next, own, loan, z);
        CountPositive(blocks, zones, next, own, fs[|fs| - 1]);
        DecrCount(fs[|fs| - 1]);
        zones := zones[z := Zone(fs[..|fs| - 1], [])];
      }
    }

    /** `msgpack_zone_clear`. */
    method ZoneClear(z: nat, ghost own: Option<nat>, ghost loan: Option<(nat, nat)>)
      requires z in zones && Counted(blocks, zones, next, own) && Sound(blocks, zones, loan)
      requires loan.Some? ==> own == Some(loan.value.1)
      modifies this`blocks, this`zones
      ensures zones == old(zones)[z := Zone([], [])] && SameBytes(old(blocks), blocks)
      ensures Counted(blocks, zones, next, own) && Sound(blocks, zones, loan)
    {
      CallFinalizers(z, own, loan);
    }

    /** `msgpack_zone_free`. */
    method ZoneFree(z: nat, ghost own: Option<nat>, ghost loan: Option<(nat, nat)>)
      requires z in zones && Counted(blocks, zones, next, own) && Sound(blocks, zones, loan)
      requires loan.Some? ==> own == Some(loan.value.1)
      modifies this`blocks, this`zones
      ensures zones == old(zones) - {z} && SameBytes(old(blocks), blocks)
      ensures Counted(blocks, zones, next, own) && Sound(blocks, zones, loan)
    {
      CallFinalizers(z, own, loan);
      CountedDrop(blocks, zones, next, own, loan, z);
      zones := zones - {z};
    }
  }

  lemma CountPositive(blocks: map<nat, Block>, zones: map<nat, Zone>, n: nat, own: Option<nat>, b: nat)
    requires Counted(blocks, zones, n, own) && b in blocks
    ensures blocks[b].count > 0
  {
  }

  lemma ObjectsDie(blocks: map<nat, Block>, zones: map<nat, Zone>, n: nat, own: Option<nat>, loan: Option<(nat, nat)>,
                   z: nat)
    requires Counted(blocks, zones, n, own) && Sound(blocks, zones, loan) && z in zones
    ensures var after := zones[z := zones[z].(objects := [])];
      Counted(blocks, after, n, own) && Sound(blocks, after, loan)
  {
    var after := zones[z := zones[z].(objects := [])];
    forall b | b in blocks
      ensures blocks[b].count == References(after, n, own, b)
    {
      PendingAgrees(zones, after, n, b);
    }
    forall z', b | z' in after && b in after[z'].finalizers
      ensures b in blocks
    {
      assert b in zones[z'].finalizers;
    }
    forall z', ptr | z' in after && ptr in after[z'].objects
      ensures Reads(blocks, ptr) && HeldBy(after, z', ptr, loan)
    {
      assert ptr in zones[z'].objects && HeldBy(zones, z', ptr, loan);
    }
  }

  /** A zone with nothing pending can go. */
  lemma CountedDrop(blocks: map<nat, Block>, zones: map<nat, Zone>, n: nat, own: Option<nat>,
                    loan: Option<(nat, nat)>, z: nat)
    requires Counted(blocks, zones, n, own) && Sound(blocks, zones, loan) && z in zones && zones[z].finalizers == []
    ensures Counted(blocks, zones - {z}, n, own) && Sound(blocks, zones - {z}, loan)
  {
    var after := zones - {z};
    forall b | b in blocks
      ensures blocks[b].count == References(after, n, own, b)
    {
      PendingRemove(zones, n, z, b);
    }
    forall z', b | z' in after && b in after[z'].finalizers
      ensures b in blocks
    {
      assert b in zones[z'].finalizers;
    }
    forall z', ptr | z' in after && ptr in after[z'].objects
      ensures Reads(blocks, ptr) && HeldBy(after, z', ptr, loan)
    {
      assert ptr in zones[z'].objects && HeldBy(zones, z', ptr, loan);
    }
  }
}
