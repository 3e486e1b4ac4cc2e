/** `msgpack_unpacker`: who owns the buffer that parsed objects point into. */
module MsgpackUnpacker {
  import opened Common
  import opened MsgpackMemory

  /** The reference count takes up the first bytes of every buffer. */
  const COUNTER_SIZE: nat := 4

  /** Sizes wrap around here. */
  const SIZE: nat := 0x1_0000_0000_0000_0000

  /** Objects that point into the current buffer point at what has been parsed already. */
  ghost predicate Parsed(zones: map<nat, Zone>, buffer: nat, off: nat) {
    forall z, ptr :: z in zones && ptr in zones[z].objects && ptr.block == buffer ==> ptr.at + |ptr.text| <= off
  }

  /** No object of a live zone points into the buffer. */
  ghost predicate Unused(zones: map<nat, Zone>, buffer: nat) {
    forall z, ptr :: z in zones && ptr in zones[z].objects ==> ptr.block != buffer
  }

  /** A buffer of which the unpacker holds the only reference, with nothing on loan, is one nobody points into. */
  lemma SoleReference(blocks: map<nat, Block>, zones: map<nat, Zone>, n: nat, buffer: nat)
    requires Counted(blocks, zones, n, Some(buffer)) && Sound(blocks, zones, None) && blocks[buffer].count == 1
    ensures Unused(zones, buffer) && forall z :: z in zones ==> buffer !in zones[z].finalizers
  {
    forall z | z in zones
      ensures buffer !in zones[z].finalizers
    {
      if buffer in zones[z].finalizers {
        PendingPositive(zones, n, z, buffer);
      }
    }
    forall z, ptr | z in zones && ptr in zones[z].objects
      ensures ptr.block != buffer
    {
      assert HeldBy(zones, z, ptr, None);
    }
  }

  function Pushed(zones: map<nat, Zone>, z: nat, b: nat): map<nat, Zone>
    requires z in zones
  {
    zones[z := Zone(zones[z].finalizers + [b], zones[z].objects)]
  }

  function Incremented(blocks: map<nat, Block>, b: nat): map<nat, Block>
    requires b in blocks
  {
    blocks[b := Block(blocks[b].count + 1, blocks[b].data)]
  }

  lemma PushedPending(zones: map<nat, Zone>, n: nat, z: nat, f: nat, b: nat)
    requires z in zones && z < n
    ensures Pending(Pushed(zones, z, f), n, b) == Pending(zones, n, b) + if f == b then 1 else 0
  {
    PendingUpdate(zones, n, z, Pushed(zones, z, f)[z], b);
    TimesAdd(zones[z].finalizers, f, b);
  }

  /** The zone that has the buffer on loan gets a reference of its own. */
  lemma LoanSettled(blocks: map<nat, Block>, zones: map<nat, Zone>, z: nat, b: nat)
    requires z in zones && Sound(blocks, zones, Some((z, b)))
    ensures Sound(blocks, Pushed(zones, z, b), None)
  {
    var after := Pushed(zones, z, b);
    forall z', ptr | z' in after && ptr in after[z'].objects
      ensures Reads(blocks, ptr) && HeldBy(after, z', ptr, None)
    {
      assert ptr in zones[z'].objects && HeldBy(zones, z', ptr, Some((z, b)));
      assert b in after[z].finalizers;
      assert ptr.block in zones[z'].finalizers ==> ptr.block in after[z'].finalizers;
    }
  }

  /** Flushing adds one pending finalizer and one to the count. */
  lemma CountedFlush(blocks: map<nat, Block>, zones: map<nat, Zone>, n: nat, own: Option<nat>, z: nat, b: nat)
    requires Counted(blocks, zones, n, own) && z in zones && b in blocks
    ensures Counted(Incremented(blocks, b), Pushed(zones, z, b), n, own)
  {
    var more, after := Incremented(blocks, b), Pushed(zones, z, b);
    forall c | c in more
      ensures c < n && more[c].count == References(after, n, own, c) && more[c].count > 0
    {
      PushedPending(zones, n, z, b, c);
    }
    FinalizersLive(blocks, zones, z, b);
  }

  lemma FinalizersLive(blocks: map<nat, Block>, zones: map<nat, Zone>, z: nat, b: nat)
    requires z in zones && b in blocks && forall z', c :: z' in zones && c in zones[z'].finalizers ==> c in blocks
    ensures var after := Pushed(zones, z, b); forall z', c :: z' in after && c in after[z'].finalizers ==> c in blocks
  {
    var after := Pushed(zones, z, b);
    forall z', c | z' in after && c in after[z'].finalizers
      ensures c in blocks
    {
      assert c == b || c in zones[z'].finalizers;
    }
  }

  /** Handing the unpacker's own reference over to a zone, and taking up a new buffer instead. */
  lemma CountedHandOver(blocks: map<nat, Block>, zones: map<nat, Zone>, n: nat, z: nat, b: nat, data: seq<Byte>)
    requires Counted(blocks, zones, n, Some(b)) && z in zones
    ensures Counted(blocks[n := Block(1, data)], Pushed(zones, z, b), n + 1, Some(n))
  {
    var more, after := blocks[n := Block(1, data)], Pushed(zones, z, b);
    forall c | c in more
      ensures c < n + 1 && more[c].count == References(after, n + 1, Some(n), c) && more[c].count > 0
    {
      PushedPending(zones, n, z, b, c);
      NothingPending(blocks, zones, n, Some(b));
      assert Pending(after, n + 1, c) == Pending(after, n, c);
    }
    FinalizersLive(blocks, zones, z, b);
  }

  /** An address not yet given out has no finalizer pending. */
  lemma NothingPending(blocks: map<nat, Block>, zones: map<nat, Zone>, n: nat, own: Option<nat>)
    requires Counted(blocks, zones, n, own)
    ensures n !in blocks && n !in zones && Pending(zones, n, n) == 0 && own != Some(n)
  {
    if Pending(zones, n, n) > 0 {
      var z := PendingWitness(zones, n, n);
    }
  }

  /** Dropping the unpacker's own reference, having taken up a new buffer. */
  lemma CountedReplace(blocks: map<nat, Block>, zones: map<nat, Zone>, n: nat, b: nat, data: seq<Byte>)
    requires Counted(blocks, zones, n, Some(b))
    ensures b in blocks[n := Block(1, data)] && Counted(Dropped(blocks[n := Block(1, data)], b), zones, n + 1, Some(n))
  {
    var more := blocks[n := Block(1, data)];
    var left := Dropped(more, b);
    NothingPending(blocks, zones, n, Some(b));
    forall c | c in left
      ensures c < n + 1 && left[c].count == References(zones, n + 1, Some(n), c) && left[c].count > 0
    {
      assert Pending(zones, n + 1, c) == Pending(zones, n, c);
    }
    forall z, c | z in zones && c in zones[z].finalizers
      ensures c in left
    {
      PendingPositive(zones, n, z, c);
    }
  }

  /** Dropping the unpacker's own reference for good. */
  lemma CountedRelease(blocks: map<nat, Block>, zones: map<nat, Zone>, n: nat, b: nat)
    requires Counted(blocks, zones, n, Some(b))
    ensures Counted(Dropped(blocks, b), zones, n, None)
  {
    var left := Dropped(blocks, b);
    forall z, c | z in zones && c in zones[z].finalizers
      ensures c in left
    {
      PendingPositive(zones, n, z, c);
    }
  }

  /** Objects of live zones keep their buffers when the unpacker drops a reference that is not on loan. */
  lemma SoundWithout(blocks: map<nat, Block>, zones: map<nat, Zone>, n: nat, own: Option<nat>, left: map<nat, Block>)
    requires Sound(blocks, zones, None) && Counted(left, zones, n, own)
    requires forall c :: c in left && c in blocks ==> left[c].data == blocks[c].data
    ensures Sound(left, zones, None)
  {
    forall z, ptr | z in zones && ptr in zones[z].objects
      ensures Reads(left, ptr) && HeldBy(zones, z, ptr, None)
    {
      assert Reads(blocks, ptr) && HeldBy(zones, z, ptr, None);
      assert ptr.block in left;
    }
  }

  /** Once the unpacker is gone and every zone it handed out has been freed, no buffer is left behind. */
  lemma NothingLeaks(blocks: map<nat, Block>, zones: map<nat, Zone>, n: nat)
    requires Counted(blocks, zones, n, None) && zones == map[]
    ensures blocks == map[]
  {
    forall b | b in blocks
      ensures false
    {
      var z := PendingWitness(zones, n, b);
    }
  }

  /** Every zone still has its objects. */
  predicate KeepsObjects(before: map<nat, Zone>, after: map<nat, Zone>) {
    forall z :: z in before ==> z in after && before[z].objects <= after[z].objects
  }

  /** The objects a stretch of unparsed bytes gives, one for each text the parser meets, in their order. */
  ghost function Made(buffer: nat, off: nat, bytes: seq<Byte>, found: seq<(nat, nat)>): (made: seq<Pointer>)
    requires forall i :: 0 <= i < |found| ==> off <= found[i].0 && found[i].0 + found[i].1 <= off + |bytes|
    ensures |made| == |found|
  {
    if found == [] then []
    else
      var (at, len) := found[|found| - 1];
      Made(buffer, off, bytes, found[..|found| - 1]) + [Pointer(buffer, at, bytes[at - off..at - off + len])]
  }

  /** The zones with some objects more in one of them, which may be new. */
  function Grown(zones: map<nat, Zone>, z: nat, more: seq<Pointer>): map<nat, Zone> {
    zones[z := if z in zones then Zone(zones[z].finalizers, zones[z].objects + more) else Zone([], more)]
  }

  lemma GrownTwice(zones: map<nat, Zone>, z: nat, a: seq<Pointer>, b: seq<Pointer>)
    ensures Grown(Grown(zones, z, a), z, b) == Grown(zones, z, a + b)
    ensures z in zones ==> Grown(zones, z, []) == zones
  {
    if z in zones {
      assert zones[z].objects + a + b == zones[z].objects + (a + b);
      assert zones[z].objects + [] == zones[z].objects;
    }
  }

  class Unpacker {
    const mem: Memory
    var buffer: nat
    var used: nat
    var free: nat
    var off: nat
    var parsed: nat
    var initialBufferSize: nat
    var z: Option<nat>
    var referenced: bool
    var open: bool

    /** The buffer the unpacker itself holds a reference to. */
    ghost function Own(): Option<nat>
      reads this
    {
      if open then Some(buffer) else None
    }

    /** The zone that relies on the unpacker's reference for the objects parsed into it since the last flush. */
    ghost function Loan(): Option<(nat, nat)>
      reads this
    {
      if open && referenced && z.Some? then Some((z.value, buffer)) else None
    }

    /** Counts are right and every object can be read. */
    ghost predicate Owned()
      reads this, mem
    {
      Counted(mem.blocks, mem.zones, mem.next, Own()) && Sound(mem.blocks, mem.zones, Loan())
    }

    /** The fields fit the current buffer; at the start of a buffer nothing can point into it. */
    ghost predicate Fits()
      reads this, mem
    {
      && buffer in mem.blocks && |mem.blocks[buffer].data| == used + free && COUNTER_SIZE <= off <= used
      && COUNTER_SIZE <= initialBufferSize < SIZE && used + free < SIZE
      && (z.Some? ==> z.value in mem.zones) && (referenced ==> z.Some?)
      && (off == COUNTER_SIZE ==> !referenced && mem.blocks[buffer].count == 1)
      && Parsed(mem.zones, buffer, off)
    }

    ghost predicate Valid()
      reads this, mem
    {
      Owned() && (open ==> Fits())
    }

    /** The bytes fed in and not yet parsed. */
    ghost function Unparsed(): seq<Byte>
      requires Valid() && open
      reads this, mem
    {
      mem.blocks[buffer].data[off..used]
    }

    /** The objects parsed into the unpacker's own zone so far. */
    ghost function Objects(): seq<Pointer>
      reads this, mem
    {
      if z.Some? && z.value in mem.zones then mem.zones[z.value].objects else []
    }

    /** `msgpack_unpacker_init`. */
    constructor (mem: Memory, initialBufferSize: nat)
      requires Counted(mem.blocks, mem.zones, mem.next, None) && Sound(mem.blocks, mem.zones, None)
      requires initialBufferSize < SIZE
      modifies mem
      ensures this.mem == mem && Valid() && open && Unparsed() == [] && mem.zones == old(mem.zones)
    {
      var size := if initialBufferSize < COUNTER_SIZE then COUNTER_SIZE else initialBufferSize;
      var data := seq(size, _ => 0);
      CountedNew(mem.blocks, mem.zones, mem.next, data);
      AllBelow(mem.blocks, mem.zones, mem.next, None);
      var b := mem.NewBuffer(data);
      this.mem, buffer, used, free, off := mem, b, COUNTER_SIZE, size - COUNTER_SIZE, COUNTER_SIZE;
      parsed, this.initialBufferSize, z, referenced, open := 0, size, None, false, true;
    }

    /** `msgpack_unpacker_buffer`, a copy, and `msgpack_unpacker_buffer_consumed`. */
    method Feed(bytes: seq<Byte>)
      requires Valid() && open && |bytes| <= free
      modifies this`used, this`free, mem`blocks
      ensures Valid() && Unparsed() == old(Unparsed()) + bytes
      ensures mem.zones == old(mem.zones)
    {
      var block := mem.blocks[buffer];
      var data := block.data[..used] + bytes + block.data[used + |bytes|..];
      OverwriteFree(mem.blocks, mem.zones, mem.next, Own(), Loan(), buffer, off, used, bytes, data);
      mem.blocks := mem.blocks[buffer := block.(data := data)];
      assert data[off..used + |bytes|] == block.data[off..used] + bytes;
      used, free := used + |bytes|, free - |bytes|;
    }

    /** The zone the next object goes into. */
    ghost function Target(): nat
      reads this, mem
    {
      if z.Some? then z.value else mem.next
    }

    /** The zone check at the top of every callback that allocates or references. */
    method EnsureZone()
      requires Valid() && open
      modifies this`z, mem`zones, mem`next
      ensures Valid() && z == Some(old(Target())) && referenced == old(referenced)
      ensures mem.zones == Grown(old(mem.zones), z.value, [])
    {
      if z.None? {
        AddZone(mem.blocks, mem.zones, mem.next, Own(), Loan(), buffer, off);
        var zone := mem.NewZone();
        z := Some(zone);
      } else {
        GrownTwice(mem.zones, z.value, [], []);
      }
    }

    /** The str, bin and ext callbacks: the new object points straight into the buffer. */
    method Reference(at: nat, len: nat)
      requires Valid() && open && COUNTER_SIZE < off && at + len <= off
      modifies this`z, this`referenced, mem`zones, mem`next
      ensures Valid() && z == Some(old(Target())) && referenced
      ensures mem.zones ==
        Grown(old(mem.zones), z.value, [Pointer(buffer, at, mem.blocks[buffer].data[at..at + len])])
    {
      ghost var zones := mem.zones;
      EnsureZone();
      hide Counted, Sound, Owned, Parsed;
      OwnedParts();
      var zone := mem.zones[z.value];
      var ptr := Pointer(buffer, at, mem.blocks[buffer].data[at..at + len]);
      AddObject(mem.blocks, mem.zones, mem.next, buffer, z.value, ptr, Loan(), off);
      GrownTwice(zones, z.value, [], [ptr]);
      assert [] + [ptr] == [ptr];
      mem.zones := mem.zones[z.value := zone.(objects := zone.objects + [ptr])];
      referenced := true;
      OwnedAgain();
    }

    lemma OwnedParts()
      requires Owned()
      ensures Counted(mem.blocks, mem.zones, mem.next, Own()) && Sound(mem.blocks, mem.zones, Loan())
    {
    }

    lemma OwnedAgain()
      requires Counted(mem.blocks, mem.zones, mem.next, Own()) && Sound(mem.blocks, mem.zones, Loan())
      ensures Owned()
    {
    }

    /** `msgpack_unpacker_execute`. What the parser consumes and the texts it meets there are given; each lies in
        what it consumes, and gives one object of the unpacker's zone, in their order. */
    method Execute(consumed: nat, found: seq<(nat, nat)>)
      requires Valid() && open && off + consumed <= used && (found != [] ==> consumed > 0)
      requires forall i :: 0 <= i < |found| ==> off <= found[i].0 && found[i].0 + found[i].1 <= off + consumed
      modifies this`off, this`parsed, this`z, this`referenced, mem`zones, mem`next
      ensures Valid() && off == old(off) + consumed && parsed == old(parsed) + consumed
      ensures Unparsed() == old(Unparsed())[consumed..]
      ensures found == [] ==> z == old(z) && referenced == old(referenced) && mem.zones == old(mem.zones)
      ensures found != [] ==> z == Some(old(Target())) && referenced
      ensures found != [] ==>
        mem.zones == Grown(old(mem.zones), z.value, Made(buffer, old(off), old(Unparsed()), found))
    {
      AdvanceParsed(mem.zones, buffer, off, off + consumed);
      ghost var start, bytes, zones, target := off, Unparsed(), mem.zones, Target();
      off, parsed := off + consumed, parsed + consumed;
      assert bytes[consumed..] == mem.blocks[buffer].data[off..used];
      hide Owned, Parsed, Grown, Made;
      for i := 0 to |found|
        invariant Valid()
        invariant i == 0 ==> z == old(z) && referenced == old(referenced) && mem.zones == zones && Target() == target
        invariant i > 0 ==> z == Some(target) && referenced
        invariant i > 0 ==> mem.zones == Grown(zones, target, Made(buffer, start, bytes, found[..i]))
        modifies this`z, this`referenced, mem`zones, mem`next
      {
        var (at, len) := found[i];
        ghost var ptr := Pointer(buffer, at, mem.blocks[buffer].data[at..at + len]);
        SliceOfSlice(mem.blocks[buffer].data, start, used, at, len);
        MadeNext(buffer, start, bytes, found, i, ptr);
        GrownTwice(zones, target, Made(buffer, start, bytes, found[..i]), [ptr]);
        Reference(at, len);
      }
      assert found[..|found|] == found;
    }

    /** `msgpack_unpacker_flush_zone`: the zone gets its own reference to the buffer. */
    method FlushZone()
      requires Valid() && open
      modifies this`referenced, mem`blocks, mem`zones
      ensures Valid() && !referenced && Unparsed() == old(Unparsed()) && KeepsObjects(old(mem.zones), mem.zones)
      ensures mem.zones == if old(referenced) then Pushed(old(mem.zones), z.value, buffer) else old(mem.zones)
    {
      if referenced {
        CountedFlush(mem.blocks, mem.zones, mem.next, Own(), z.value, buffer);
        LoanSettled(mem.blocks, mem.zones, z.value, buffer);
        SameObjects(mem.blocks, mem.zones, z.value, buffer, buffer, off);
        mem.PushFinalizer(z.value, buffer);
        referenced := false;
        mem.IncrCount(buffer);
      }
    }

    /** `msgpack_unpacker_expand_buffer`, when the allocations succeed: room for size more bytes, and no unparsed
        byte lost. */
    method ExpandBuffer(size: nat)
      requires Valid() && open && size + used < SIZE
      modifies this`buffer, this`used, this`free, this`off, this`referenced, mem`blocks, mem`zones, mem`next
      ensures Valid() && free >= size && Unparsed() == old(Unparsed()) && KeepsObjects(old(mem.zones), mem.zones)
    {
      if used == off && mem.blocks[buffer].count == 1 && !referenced {
        Rewind();
        if free >= size {
          return;
        }
      }
      if off == COUNTER_SIZE {
        GrowInPlace(size);
      } else {
        MoveToNewBuffer(size);
      }
    }

    /** Rewinding the buffer: nobody else refers to it, so nothing can point into it. */
    method Rewind()
      requires Valid() && open && used == off && mem.blocks[buffer].count == 1 && !referenced
      modifies this`used, this`free, this`off
      ensures Valid() && used == off == COUNTER_SIZE && used + free == old(used + free)
    {
      SoleReference(mem.blocks, mem.zones, mem.next, buffer);
      free := free + used - COUNTER_SIZE;
      used := COUNTER_SIZE;
      off := COUNTER_SIZE;
    }

    /** The realloc branch: the buffer may move, because nothing points into it. */
    method GrowInPlace(size: nat)
      requires Valid() && open && off == COUNTER_SIZE && size + used < SIZE
      modifies this`buffer, this`free, mem`blocks, mem`next
      ensures Valid() && free >= size && Unparsed() == old(Unparsed())
    {
      hide Sound, References;
      var nextSize := Doubled((used + free) * 2 % SIZE, size + used);
      ghost var data := Resized(mem.blocks[buffer].data, nextSize);
      SoleReference(mem.blocks, mem.zones, mem.next, buffer);
      CountedReplace(mem.blocks, mem.zones, mem.next, buffer, data);
      NothingPending(mem.blocks, mem.zones, mem.next, Some(buffer));
      SoundWithout(mem.blocks, mem.zones, mem.next + 1, Some(mem.next),
                   Dropped(mem.blocks[mem.next := Block(1, data)], buffer));
      AllBelow(mem.blocks, mem.zones, mem.next, None);
      var tmp := mem.Realloc(buffer, nextSize);
      assert data[off..used] == old(mem.blocks[buffer].data)[off..used];
      buffer := tmp;
      free := nextSize - used;
    }

    /** The malloc branch: the old buffer is left to the zone that has it on loan, or let go. */
    method MoveToNewBuffer(size: nat)
      requires Valid() && open && size + used < SIZE
      modifies this`buffer, this`used, this`free, this`off, this`referenced, mem`blocks, mem`zones, mem`next
      ensures Valid() && free >= size && Unparsed() == old(Unparsed()) && KeepsObjects(old(mem.zones), mem.zones)
    {
      hide Counted, Sound, References, KeepsObjects;
      var notParsed := used - off;
      var nextSize := Doubled(initialBufferSize, size + notParsed + COUNTER_SIZE);
      var data := seq(COUNTER_SIZE, _ => 0) + mem.blocks[buffer].data[off..used]
        + seq(nextSize - notParsed - COUNTER_SIZE, _ => 0);
      assert data[COUNTER_SIZE..COUNTER_SIZE + notParsed] == mem.blocks[buffer].data[off..used];
      var tmp := SwitchBuffer(data);
      buffer := tmp;
      used := notParsed + COUNTER_SIZE;
      free := nextSize - used;
      off := COUNTER_SIZE;
    }

    /** A new buffer with its first reference; the old one goes to the zone that has it on loan, or is let go. */
    method SwitchBuffer(data: seq<Byte>) returns (tmp: nat)
      requires Valid() && open
      modifies this`referenced, mem`blocks, mem`zones, mem`next
      ensures Counted(mem.blocks, mem.zones, mem.next, Some(tmp)) && Sound(mem.blocks, mem.zones, None) && !referenced
      ensures tmp in mem.blocks && mem.blocks[tmp] == Block(1, data) && Unused(mem.zones, tmp)
      ensures KeepsObjects(old(mem.zones), mem.zones) && mem.zones.Keys == old(mem.zones).Keys
    {
      ghost var blocks, zones, n, loan := mem.blocks, mem.zones, mem.next, Loan();
      AllBelow(blocks, zones, n, loan);
      NothingPending(blocks, zones, n, Some(buffer));
      hide Counted, Sound, Unused, References, KeepsObjects;
      tmp := mem.NewBuffer(data);
      if referenced {
        HandedOver(blocks, zones, n, z.value, buffer, data);
        mem.PushFinalizer(z.value, buffer);
        referenced := false;
      } else {
        LetGo(blocks, zones, n, buffer, data);
        ObjectsStay(zones);
        mem.DecrCount(buffer);
      }
    }

    /** `msgpack_unpacker_release_zone`: the zone handed out holds all the references its objects need. */
    method ReleaseZone() returns (zone: Option<nat>)
      requires Valid() && open
      modifies this`referenced, this`z, mem`blocks, mem`zones
      ensures Valid() && z == None && !referenced && Unparsed() == old(Unparsed()) && zone == old(z)
      ensures mem.zones == if old(referenced) then Pushed(old(mem.zones), old(z).value, buffer) else old(mem.zones)
      ensures KeepsObjects(old(mem.zones), mem.zones)
      ensures zone.Some? ==> zone.value in mem.zones
      ensures zone.Some? ==>
        forall ptr :: ptr in mem.zones[zone.value].objects ==> ptr.block in mem.zones[zone.value].finalizers
    {
      zone := z;
      if zone.None? {
        return;
      }
      FlushZone();
      z := None;
      SoundHeld(mem.blocks, mem.zones, zone.value);
    }

    /** `msgpack_unpacker_reset_zone`: the objects in the unpacker's zone die, its references are dropped. */
    method ResetZone()
      requires Valid() && open && z.Some?
      modifies mem`blocks, mem`zones
      ensures Valid() && Unparsed() == old(Unparsed())
      ensures mem.zones == old(mem.zones)[z.value := Zone([], [])]
    {
      ClearedPending(mem.zones, mem.next, z.value, buffer);
      mem.ZoneClear(z.value, Own(), Loan());
      ParsedLess(old(mem.zones), mem.zones, buffer, off);
    }

    /** `msgpack_zone_free` on a zone that was handed out: its objects die, and a buffer goes when its last zone
        does. */
    method FreeZone(zone: nat)
      requires Valid() && zone in mem.zones && (open ==> z != Some(zone))
      modifies mem`blocks, mem`zones
      ensures Valid() && (open ==> Unparsed() == old(Unparsed())) && mem.zones == old(mem.zones) - {zone}
    {
      ClearedPending(mem.zones, mem.next, zone, buffer);
      mem.ZoneFree(zone, Own(), Loan());
      if open {
        ParsedLess(old(mem.zones), mem.zones, buffer, off);
      }
    }

    /** `msgpack_unpacker_destroy`: zones handed out before keep their objects. */
    method Destroy()
      requires Valid() && open
      modifies this`open, this`z, mem`blocks, mem`zones
      ensures Valid() && !open
      ensures mem.zones == if old(z).Some? then old(mem.zones) - {old(z).value} else old(mem.zones)
    {
      ghost var loan := Loan();
      if z.Some? {
        mem.ZoneFree(z.value, Own(), loan);
      }
      LoanGone(mem.blocks, mem.zones, loan);
      CountedRelease(mem.blocks, mem.zones, mem.next, buffer);
      SoundWithout(mem.blocks, mem.zones, mem.next, None, Dropped(mem.blocks, buffer));
      mem.DecrCount(buffer);
      open, z := false, None;
    }

    /** `msgpack_unpacker_next`: the old result goes; a complete message comes with a zone that has exactly the
        objects parsed since the last one, and keeps them readable. */
    method Next(result: Option<nat>, consumed: nat, found: seq<(nat, nat)>, ret: int) returns (zone: Option<nat>)
      requires Valid() && open && off + consumed <= used && (found != [] ==> consumed > 0)
      requires forall i :: 0 <= i < |found| ==> off <= found[i].0 && found[i].0 + found[i].1 <= off + consumed
      requires result.Some? ==> result.value in mem.zones && z != result
      modifies this`off, this`parsed, this`z, this`referenced, mem`blocks, mem`zones, mem`next
      ensures Valid() && Unparsed() == old(Unparsed())[consumed..]
      ensures result.Some? ==> result.value !in mem.zones
      ensures forall y :: y in old(mem.zones) && Some(y) != result && Some(y) != old(z) ==>
        y in mem.zones && mem.zones[y] == old(mem.zones)[y]
      ensures zone.Some? <==> ret > 0 && (old(z).Some? || found != [])
      ensures ret > 0 ==> z == None
      ensures var objects := old(Objects()) + Made(buffer, old(off), old(Unparsed()), found);
        if zone.Some? then zone.value in mem.zones && mem.zones[zone.value].objects == objects
        else ret <= 0 ==> Objects() == objects
      ensures zone.Some? ==>
        forall ptr :: ptr in mem.zones[zone.value].objects ==> ptr.block in mem.zones[zone.value].finalizers
    {
      ZonesBelow();
      hide *;
      ghost var zones, own, n := mem.zones, z, mem.next;
      ghost var made := Made(buffer, off, Unparsed(), found);
      FreeAndExecute(result, consumed, found);
      ghost var after, target, lent := mem.zones, z, referenced;
      ObjectsAre();
      if ret <= 0 {
        NextZones(zones, result, own, n, made, after, target, false, buffer, after);
        return None;
      }
      zone := ReleaseAndReset();
      NextZones(zones, result, own, n, made, after, target, lent, buffer, mem.zones);
    }

    lemma ZonesBelow()
      requires Valid() && open
      ensures |Unparsed()| == used - off && forall y :: y in mem.zones ==> y < mem.next
      ensures z.Some? ==> z.value in mem.zones
      ensures Objects() == if z.Some? then mem.zones[z.value].objects else []
      ensures Target() == if z.Some? then z.value else mem.next
    {
    }

    lemma ObjectsAre()
      requires Valid() && open
      ensures z.Some? ==> z.value in mem.zones
      ensures Objects() == if z.Some? then mem.zones[z.value].objects else []
    {
    }

    /** The zone of a complete message is handed out, and `msgpack_unpacker_reset`. */
    method ReleaseAndReset() returns (zone: Option<nat>)
      requires Valid() && open
      modifies this`referenced, this`z, this`parsed, mem`blocks, mem`zones
      ensures Valid() && z == None && Unparsed() == old(Unparsed()) && zone == old(z)
      ensures mem.zones == if old(referenced) then Pushed(old(mem.zones), old(z).value, buffer) else old(mem.zones)
      ensures zone.Some? ==> zone.value in mem.zones
      ensures zone.Some? ==>
        forall ptr :: ptr in mem.zones[zone.value].objects ==> ptr.block in mem.zones[zone.value].finalizers
    {
      hide Counted, Sound, Parsed;
      zone := ReleaseZone();
      parsed := 0;
    }

    /** The old result is freed, and the parser goes on. */
    method FreeAndExecute(result: Option<nat>, consumed: nat, found: seq<(nat, nat)>)
      requires Valid() && open && off + consumed <= used && (found != [] ==> consumed > 0)
      requires forall i :: 0 <= i < |found| ==> off <= found[i].0 && found[i].0 + found[i].1 <= off + consumed
      requires result.Some? ==> result.value in mem.zones && z != result
      modifies this`off, this`parsed, this`z, this`referenced, mem`blocks, mem`zones, mem`next
      ensures Valid() && Unparsed() == old(Unparsed())[consumed..]
      ensures z == if found == [] then old(z) else Some(old(Target()))
      ensures var left := if result.Some? then old(mem.zones) - {result.value} else old(mem.zones);
        mem.zones ==
        if found == [] then left else Grown(left, z.value, Made(buffer, old(off), old(Unparsed()), found))
    {
      if result.Some? {
        FreeZone(result.value);
      }
      hide Counted, Sound, Parsed, Made, Grown;
      Execute(consumed, found);
    }
  }

  /** What the steps of `msgpack_unpacker_next` make of the zones together. */
  lemma NextZones(zones: map<nat, Zone>, result: Option<nat>, z: Option<nat>, n: nat, made: seq<Pointer>,
                  after: map<nat, Zone>, own: Option<nat>, flushed: bool, buffer: nat, last: map<nat, Zone>)
    requires (forall y :: y in zones ==> y < n) && (z.Some? ==> z.value in zones)
    requires result.Some? ==> result.value in zones && result != z
    requires own == if made == [] then z else Some(if z.Some? then z.value else n)
    requires var left := if result.Some? then zones - {result.value} else zones;
      after == if made == [] then left else Grown(left, own.value, made)
    requires if flushed then own.Some? && own.value in after && last == Pushed(after, own.value, buffer)
             else last == after
    ensures result.Some? ==> result.value !in last
    ensures forall y :: y in zones && Some(y) != result && Some(y) != z ==> y in last && last[y] == zones[y]
    ensures own.Some? ==>
      own.value in last && last[own.value].objects == (if z.Some? then zones[z.value].objects else []) + made
  {
  }

  lemma SliceOfSlice(data: seq<Byte>, start: nat, end: nat, at: nat, len: nat)
    requires start <= at && at + len <= end <= |data|
    ensures data[start..end][at - start..at - start + len] == data[at..at + len]
  {
    var part, same := data[start..end][at - start..at - start + len], data[at..at + len];
    assert forall k :: 0 <= k < len ==> part[k] == same[k];
  }

  lemma MadeNext(buffer: nat, off: nat, bytes: seq<Byte>, found: seq<(nat, nat)>, i: nat, ptr: Pointer)
    requires forall k :: 0 <= k < |found| ==> off <= found[k].0 && found[k].0 + found[k].1 <= off + |bytes|
    requires i < |found| && ptr.block == buffer && ptr.at == found[i].0
    requires ptr.text == bytes[found[i].0 - off..found[i].0 - off + found[i].1]
    ensures Made(buffer, off, bytes, found[..i + 1]) == Made(buffer, off, bytes, found[..i]) + [ptr]
    ensures i == 0 ==> Made(buffer, off, bytes, found[..i + 1]) == [ptr]
  {
    assert found[..i + 1][..i] == found[..i];
  }

  lemma ClearedPending(zones: map<nat, Zone>, n: nat, z: nat, b: nat)
    requires z in zones && z < n
    ensures Pending(zones[z := Zone([], [])], n, b) <= Pending(zones, n, b)
    ensures Pending(zones - {z}, n, b) <= Pending(zones, n, b)
  {
    PendingUpdate(zones, n, z, Zone([], []), b);
    PendingRemove(zones[z := Zone([], [])], n, z, b);
    assert zones[z := Zone([], [])] - {z} == zones - {z};
  }

  lemma ParsedLess(zones: map<nat, Zone>, fewer: map<nat, Zone>, buffer: nat, off: nat)
    requires Parsed(zones, buffer, off)
    requires forall z, ptr :: z in fewer && ptr in fewer[z].objects ==> z in zones && ptr in zones[z].objects
    ensures Parsed(fewer, buffer, off)
  {
  }

  /** Without the zone it was made to, a loan means nothing. */
  lemma LoanGone(blocks: map<nat, Block>, zones: map<nat, Zone>, loan: Option<(nat, nat)>)
    requires Sound(blocks, zones, loan) && (loan.Some? ==> loan.value.0 !in zones)
    ensures Sound(blocks, zones, None)
  {
    forall z, ptr | z in zones && ptr in zones[z].objects
      ensures Reads(blocks, ptr) && HeldBy(zones, z, ptr, None)
    {
      assert HeldBy(zones, z, ptr, loan);
    }
  }

  lemma ObjectsStay(zones: map<nat, Zone>)
    ensures KeepsObjects(zones, zones)
  {
  }

  lemma HandedOver(blocks: map<nat, Block>, zones: map<nat, Zone>, n: nat, z: nat, b: nat, data: seq<Byte>)
    requires Counted(blocks, zones, n, Some(b)) && Sound(blocks, zones, Some((z, b))) && z in zones && Unused(zones, n)
    ensures var more, after := blocks[n := Block(1, data)], Pushed(zones, z, b);
      && Counted(more, after, n + 1, Some(n)) && Sound(more, after, None)
      && Unused(after, n) && KeepsObjects(zones, after)
  {
    CountedHandOver(blocks, zones, n, z, b, data);
    LoanSettled(blocks, zones, z, b);
    NothingPending(blocks, zones, n, Some(b));
    var more, after := blocks[n := Block(1, data)], Pushed(zones, z, b);
    forall z', ptr | z' in after && ptr in after[z'].objects
      ensures ptr in zones[z'].objects && Reads(more, ptr) && HeldBy(after, z', ptr, None)
    {
      assert Reads(blocks, ptr) && HeldBy(after, z', ptr, None);
    }
  }

  lemma LetGo(blocks: map<nat, Block>, zones: map<nat, Zone>, n: nat, b: nat, data: seq<Byte>)
    requires Counted(blocks, zones, n, Some(b)) && Sound(blocks, zones, None)
    ensures var more := blocks[n := Block(1, data)];
      && b in more && b != n && Dropped(more, b)[n] == Block(1, data)
      && Counted(Dropped(more, b), zones, n + 1, Some(n)) && Sound(Dropped(more, b), zones, None)
  {
    CountedReplace(blocks, zones, n, b, data);
    NothingPending(blocks, zones, n, Some(b));
    SoundWithout(blocks, zones, n + 1, Some(n), Dropped(blocks[n := Block(1, data)], b));
  }

  /** The size doubled until it is enough, or the size needed when doubling would wrap around. */
  method Doubled(start: nat, need: nat) returns (next: nat)
    requires start < SIZE && need < SIZE
    ensures need <= next < SIZE
  {
    next := start;
    while next < need
      invariant next < SIZE
      decreases need - next
    {
      var doubled := next * 2 % SIZE;
      if doubled <= next {
        return need;
      }
      next := doubled;
    }
  }

  lemma SoundHeld(blocks: map<nat, Block>, zones: map<nat, Zone>, z: nat)
    requires Sound(blocks, zones, None) && z in zones
    ensures forall ptr :: ptr in zones[z].objects ==> ptr.block in zones[z].finalizers
  {
    forall ptr | ptr in zones[z].objects
      ensures ptr.block in zones[z].finalizers
    {
      assert HeldBy(zones, z, ptr, None);
    }
  }

  lemma AdvanceParsed(zones: map<nat, Zone>, buffer: nat, off: nat, now: nat)
    requires Parsed(zones, buffer, off) && off <= now
    ensures Parsed(zones, buffer, now)
  {
  }

  /** A finalizer changes no object, and a count no byte. */
  lemma SameObjects(blocks: map<nat, Block>, zones: map<nat, Zone>, z: nat, b: nat, buffer: nat, off: nat)
    requires z in zones && b in blocks && Parsed(zones, buffer, off) && Sound(blocks, Pushed(zones, z, b), None)
    ensures Parsed(Pushed(zones, z, b), buffer, off) && Sound(Incremented(blocks, b), Pushed(zones, z, b), None)
    ensures KeepsObjects(zones, Pushed(zones, z, b))
  {
    var after := Pushed(zones, z, b);
    forall z', ptr | z' in after && ptr in after[z'].objects
      ensures ptr in zones[z'].objects && Reads(Incremented(blocks, b), ptr) && HeldBy(after, z', ptr, None)
    {
      assert Reads(blocks, ptr) && HeldBy(after, z', ptr, None);
    }
  }

  lemma AddZone(blocks: map<nat, Block>, zones: map<nat, Zone>, n: nat, own: Option<nat>, loan: Option<(nat, nat)>,
                buffer: nat, off: nat)
    requires Counted(blocks, zones, n, own) && Sound(blocks, zones, loan) && Parsed(zones, buffer, off)
    ensures var after := zones[n := Zone([], [])];
      && Counted(blocks, after, n + 1, own) && Sound(blocks, after, loan) && Parsed(after, buffer, off)
      && n !in zones && KeepsObjects(zones, after)
  {
    var after := zones[n := Zone([], [])];
    NothingPending(blocks, zones, n, own);
    forall b | b in blocks
      ensures b < n + 1 && blocks[b].count == References(after, n + 1, own, b)
    {
      PendingAgrees(zones, after, n, b);
    }
    forall z, ptr | z in after && ptr in after[z].objects
      ensures Reads(blocks, ptr) && HeldBy(after, z, ptr, loan) && (ptr.block == buffer ==> ptr.at + |ptr.text| <= off)
    {
      assert ptr in zones[z].objects && HeldBy(zones, z, ptr, loan);
    }
    assert forall z, b :: z in after && b in after[z].finalizers ==> z in zones && b in zones[z].finalizers;
  }

  /** A new object in the unpacker's zone, which now has the current buffer on loan. */
  lemma AddObject(blocks: map<nat, Block>, zones: map<nat, Zone>, n: nat, buffer: nat, z: nat, ptr: Pointer,
                  loan: Option<(nat, nat)>, off: nat)
    requires Counted(blocks, zones, n, Some(buffer)) && Sound(blocks, zones, loan) && Parsed(zones, buffer, off)
    requires z in zones
    requires loan == None || loan == Some((z, buffer))
    requires ptr.block == buffer && Reads(blocks, ptr) && ptr.at + |ptr.text| <= off
    ensures var after := zones[z := zones[z].(objects := zones[z].objects + [ptr])];
      && Counted(blocks, after, n, Some(buffer)) && Sound(blocks, after, Some((z, buffer)))
      && Parsed(after, buffer, off)
      && KeepsObjects(zones, after)
  {
    var after := zones[z := zones[z].(objects := zones[z].objects + [ptr])];
    forall b | b in blocks
      ensures blocks[b].count == References(after, n, Some(buffer), b)
    {
      PendingAgrees(zones, after, n, b);
    }
    forall z', p | z' in after && p in after[z'].objects
      ensures Reads(blocks, p) && HeldBy(after, z', p, Some((z, buffer)))
      ensures (p.block == buffer ==> p.at + |p.text| <= off)
    {
      if p in zones[z'].objects {
        assert Reads(blocks, p) && HeldBy(zones, z', p, loan);
      }
    }
    assert forall z', b :: z' in after && b in after[z'].finalizers ==> b in zones[z'].finalizers;
  }

  lemma CountedNew(blocks: map<nat, Block>, zones: map<nat, Zone>, n: nat, data: seq<Byte>)
    requires Counted(blocks, zones, n, None) && Sound(blocks, zones, None)
    ensures Counted(blocks[n := Block(1, data)], zones, n + 1, Some(n))
    ensures Sound(blocks[n := Block(1, data)], zones, None)
  {
    NothingPending(blocks, zones, n, None);
    forall z, ptr | z in zones && ptr in zones[z].objects
      ensures Reads(blocks[n := Block(1, data)], ptr) && HeldBy(zones, z, ptr, None)
    {
      assert Reads(blocks, ptr) && HeldBy(zones, z, ptr, None);
    }
  }

  /** No object points into a buffer that does not exist yet. */
  lemma AllBelow(blocks: map<nat, Block>, zones: map<nat, Zone>, n: nat, loan: Option<(nat, nat)>)
    requires Sound(blocks, zones, loan) && forall b :: b in blocks ==> b < n
    ensures Unused(zones, n)
  {
    forall z, ptr | z in zones && ptr in zones[z].objects
      ensures ptr.block != n
    {
      assert Reads(blocks, ptr);
    }
  }

  /** Writing into the free part of the current buffer disturbs no object. */
  lemma OverwriteFree(blocks: map<nat, Block>, zones: map<nat, Zone>, n: nat, own: Option<nat>,
                      loan: Option<(nat, nat)>,
                      b: nat, off: nat, used: nat, bytes: seq<Byte>, data: seq<Byte>)
    requires Counted(blocks, zones, n, own) && Sound(blocks, zones, loan) && b in blocks
    requires off <= used && used + |bytes| <= |blocks[b].data| && Parsed(zones, b, off)
    requires data == blocks[b].data[..used] + bytes + blocks[b].data[used + |bytes|..]
    ensures Counted(blocks[b := blocks[b].(data := data)], zones, n, own)
    ensures Sound(blocks[b := blocks[b].(data := data)], zones, loan)
  {
    var after := blocks[b := blocks[b].(data := data)];
    forall z, ptr | z in zones && ptr in zones[z].objects
      ensures Reads(after, ptr) && HeldBy(zones, z, ptr, loan)
    {
      assert Reads(blocks, ptr) && HeldBy(zones, z, ptr, loan);
      if ptr.block == b {
        assert data[ptr.at..ptr.at + |ptr.text|] == blocks[b].data[ptr.at..ptr.at + |ptr.text|];
      }
    }
  }
}
