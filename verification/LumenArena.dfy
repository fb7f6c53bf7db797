/** The arena as the object a worker owns: a fixed block of memory and a moving offset. */
module LumenArenaClass {
  import opened Core
  import opened Arena
  import Memory

  class LumenArena {
    const base: nat
    const capacity: nat
    const memory: array<byte>
    var offset: nat
    var warmupOffset: nat
    var warmedUp: bool

    ghost var frozen: seq<Block>
    ghost var live: seq<Block>

    ghost function View(): Heap
      reads this
    {
      Heap(ArenaState(base, capacity, offset, warmupOffset, warmedUp), frozen, live)
    }

    /** All blocks are in order and aligned, and the memory covers the capacity. */
    ghost predicate Valid()
      reads this
    {
      HeapFits(View()) && HeapAligned(View()) && capacity <= memory.Length
    }

    /** `where` is the 64-aligned address that aligned_alloc returned for the enlarged request. */
    constructor (requested: nat, where: nat)
      requires requested < TWO_64
      requires 0 < where && where % 64 == 0 && where + BackingSize(requested) < TWO_64
      ensures View() == FreshHeap(where, requested) && memory.Length == BackingSize(requested)
      ensures Valid() <==> requested + 1024 * 1024 + 63 < TWO_64
    {
      BackingCoversExactlyWhen(requested);
      base, capacity := where, requested;
      memory := new byte[BackingSize(requested)];
      offset, warmupOffset, warmedUp := 0, 0, false;
      frozen, live := [], [];
    }

    method AllocRaw(size: nat, alignment: nat) returns (r: Option<nat>)
      requires Valid() && size < TWO_64 && alignment < TWO_64
      modifies this
      ensures r == Arena.AllocRaw(old(View()).arena, size, alignment)
      ensures View() == HeapAlloc(old(View()), size, alignment)
      ensures NoWrap(old(View()).arena, size, alignment) ==> Valid()
    {
      var padding := Padding(Wrap(base + offset), alignment);
      var demand := Demand(offset, padding, size);
      AllocByDemand(View(), size, alignment, padding, demand);
      if NoWrap(View().arena, size, alignment) {
        AllocKeepsHeap(View(), size, alignment);
      }
      if demand > capacity { return None; }
      var aligned := Wrap(base + offset + padding);
      offset := demand;
      live := if aligned >= base then live + [Block(aligned - base, size, alignment)] else live;
      r := Some(aligned);
    }

    method Alloc(size: nat) returns (r: Option<nat>)
      requires Valid() && size < TWO_64
      modifies this
      ensures r == Arena.AllocRaw(old(View()).arena, size, 64)
      ensures View() == HeapAlloc(old(View()), size, 64)
      ensures NoWrap(old(View()).arena, size, 64) ==> Valid()
    {
      r := AllocRaw(size, 64);
    }

    /** An array of `count` elements: the byte count is computed in 64 bits. */
    method AllocTyped(count: nat, sizeOf: nat, alignOf: nat) returns (r: Option<nat>)
      requires Valid() && alignOf < TWO_64
      modifies this
      ensures r == Arena.AllocRaw(old(View()).arena, Wrap(count * sizeOf), alignOf)
      ensures View() == HeapAlloc(old(View()), Wrap(count * sizeOf), alignOf)
      ensures NoWrap(old(View()).arena, Wrap(count * sizeOf), alignOf) ==> Valid()
    {
      r := AllocRaw(Wrap(count * sizeOf), alignOf);
    }

    method Reset()
      requires Valid()
      modifies this
      ensures Valid() && View() == HeapReset(old(View()))
    {
      ResetKeepsHeap(View());
      frozen := if warmedUp then frozen else live;
      live := [];
      if !warmedUp {
        warmupOffset := offset;
        warmedUp := true;
      }
      offset := warmupOffset;
    }

    function GetAllocatedSize(): nat
      reads this
    {
      offset
    }

    /** memcpy into the arena. */
    method Store(address: nat, bytes: seq<byte>)
      requires base <= address && address - base + |bytes| <= memory.Length
      modifies memory
      ensures memory[..] == Memory.Splice(old(memory[..]), address - base, bytes)
    {
      var o := address - base;
      for i := 0 to |bytes|
        invariant memory[..] == Memory.Splice(old(memory[..]), o, bytes[..i])
      {
        memory[o + i] := bytes[i];
        assert bytes[..i + 1] == bytes[..i] + [bytes[i]];
      }
      assert bytes[..|bytes|] == bytes;
    }
  }
}
