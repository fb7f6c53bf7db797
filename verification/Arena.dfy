/**
 The bump allocator of a worker on values: 64-bit arithmetic as the code has it, the
 blocks handed out, and the warm-up mark that the first reset sets for good.
 */
module Arena {
  import opened Core

  /** The remainder `x % e`, by subtraction: proofs about addresses then stay linear. */
  function Remainder(x: nat, e: nat): (r: nat)
    requires e > 0
    ensures r < e
  {
    if x < e then x else Remainder(x - e, e)
  }

  lemma {:induction false} RemainderIsMod(x: nat, e: nat)
    requires e > 0
    ensures Remainder(x, e) == x % e
  {
    if x >= e {
      RemainderIsMod(x - e, e);
      SameRemainder(x, x - e, e, 1);
    }
  }

  /** A sum or product in 64 bits: `x % 2^64`. */
  function Wrap(x: nat): (w: nat)
    ensures w < TWO_64
  {
    Remainder(x, TWO_64)
  }

  lemma WrapOnce(x: nat)
    requires TWO_64 <= x < 2 * TWO_64
    ensures Wrap(x) == x - TWO_64
  {
    assert Remainder(x - TWO_64, TWO_64) == x - TWO_64;
  }

  /** `x & ~63` */
  function ClearLow(x: nat): nat {
    x - Remainder(x, 64)
  }

  /** The least multiple of 64 that is at least x. */
  function Ceil64(x: nat): (c: nat)
    ensures c % 64 == 0 && x <= c < x + 64
  {
    RemainderIsMod(x + 63, 64);
    ClearLow(x + 63)
  }

  datatype ArenaState = ArenaState(base: nat, capacity: nat, offset: nat, warmup: nat, warmed: bool)

  /** A block, as offsets from the base of the arena. */
  datatype Block = Block(start: nat, size: nat, alignment: nat)

  function Effective(alignment: nat): (e: nat)
    ensures e >= 64
  {
    if alignment < 64 then 64 else alignment
  }

  function Padding(address: nat, alignment: nat): (p: nat)
    ensures p < Effective(alignment)
  {
    var e := Effective(alignment);
    var r := Remainder(address, e);
    if r == 0 then 0 else e - r
  }

  /** Padding is what the source computes. */
  lemma PaddingFormula(address: nat, alignment: nat)
    ensures var e := Effective(alignment); Padding(address, alignment) == (e - address % e) % e
  {
    var e := Effective(alignment);
    RemainderIsMod(address, e);
    RemainderIsMod(e - Remainder(address, e), e);
  }

  /** What alloc_raw checks against the capacity, in 64-bit arithmetic. */
  function Demand(offset: nat, padding: nat, size: nat): nat {
    Wrap(offset + padding + ClearLow(Wrap(size + 63)))
  }

  function AllocPadded(a: ArenaState, size: nat, padding: nat): Option<nat> {
    if Demand(a.offset, padding, size) > a.capacity then None else Some(Wrap(a.base + a.offset + padding))
  }

  function AfterPadded(a: ArenaState, size: nat, padding: nat): ArenaState {
    if Demand(a.offset, padding, size) > a.capacity then a else a.(offset := Demand(a.offset, padding, size))
  }

  /** The address alloc_raw returns, or None for null. */
  function AllocRaw(a: ArenaState, size: nat, alignment: nat): Option<nat> {
    AllocPadded(a, size, Padding(Wrap(a.base + a.offset), alignment))
  }

  function AfterAlloc(a: ArenaState, size: nat, alignment: nat): ArenaState {
    AfterPadded(a, size, Padding(Wrap(a.base + a.offset), alignment))
  }

  function AfterReset(a: ArenaState): ArenaState {
    var warmed := if a.warmed then a else a.(warmup := a.offset, warmed := true);
    warmed.(offset := warmed.warmup)
  }

  /** The bytes that aligned_alloc is asked for: the parameter is enlarged, the member is not. */
  function BackingSize(requested: nat): nat {
    ClearLow(Wrap(requested + 1024 * 1024 + 63))
  }

  /** The backing covers the requested capacity exactly when the enlarged request does not wrap. */
  lemma BackingCoversExactlyWhen(requested: nat)
    requires requested < TWO_64
    ensures BackingSize(requested) >= requested <==> requested + 1024 * 1024 + 63 < TWO_64
  {
    var enlarged := requested + 1024 * 1024 + 63;
    if enlarged >= TWO_64 { WrapOnce(enlarged); }
  }

  predicate Placed(a: ArenaState) {
    && 0 < a.base && a.base % 64 == 0
    && a.base + a.capacity < TWO_64
    && a.offset <= a.capacity
    && (a.warmed ==> a.warmup <= a.offset)
  }

  /** The request does not wrap the 64-bit arithmetic of the bound check. */
  predicate NoWrap(a: ArenaState, size: nat, alignment: nat) {
    a.offset + Padding(Wrap(a.base + a.offset), alignment) + Ceil64(size) < TWO_64
  }

  predicate AlignedTo(address: nat, alignment: nat) {
    Remainder(address, Effective(alignment)) == 0
  }

  lemma {:induction false} RoundedUp(x: nat, e: nat)
    requires e > 0
    ensures Remainder(x + e - Remainder(x, e), e) == 0
  {
    if x >= e {
      RoundedUp(x - e, e);
    }
  }

  lemma PaddingAligns(address: nat, alignment: nat)
    ensures AlignedTo(address + Padding(address, alignment), alignment)
  {
    RoundedUp(address, Effective(alignment));
  }

  // ----- blocks over a whole run -----

  /** `frozen` are the blocks from before the first reset, `live` those handed out since the last one. */
  datatype Heap = Heap(arena: ArenaState, frozen: seq<Block>, live: seq<Block>)

  datatype Op = Alloc(size: nat, alignment: nat) | Reset

  /** The heap after a call that returned r and left the arena in state `after`. */
  function Record(h: Heap, r: Option<nat>, after: ArenaState, size: nat, alignment: nat): Heap {
    Heap(after, h.frozen,
         if r.Some? && r.value >= h.arena.base
         then h.live + [Block(r.value - h.arena.base, size, alignment)] else h.live)
  }

  function HeapPadded(h: Heap, size: nat, alignment: nat, padding: nat): Heap {
    Record(h, AllocPadded(h.arena, size, padding), AfterPadded(h.arena, size, padding), size, alignment)
  }

  function HeapAlloc(h: Heap, size: nat, alignment: nat): Heap {
    HeapPadded(h, size, alignment, Padding(Wrap(h.arena.base + h.arena.offset), alignment))
  }

  function HeapReset(h: Heap): Heap {
    Heap(AfterReset(h.arena), if h.arena.warmed then h.frozen else h.live, [])
  }

  function Do(h: Heap, op: Op): Heap {
    match op
    case Alloc(size, alignment) => HeapAlloc(h, size, alignment)
    case Reset => HeapReset(h)
  }

  function DoAll(h: Heap, ops: seq<Op>): Heap {
    if ops == [] then h else Do(DoAll(h, ops[..|ops| - 1]), ops[|ops| - 1])
  }

  predicate BlockFits(a: ArenaState, b: Block) {
    b.start + b.size <= a.offset
  }

  predicate BlockAligned(base: nat, b: Block) {
    AlignedTo(base + b.start, b.alignment)
  }

  /** Every block begins at a multiple of its alignment. */
  predicate HeapAligned(h: Heap) {
    && (forall i :: 0 <= i < |h.frozen| ==> BlockAligned(h.arena.base, h.frozen[i]))
    && (forall i :: 0 <= i < |h.live| ==> BlockAligned(h.arena.base, h.live[i]))
  }

  /** Blocks in order of allocation, each ending before the next begins. */
  predicate Chained(blocks: seq<Block>) {
    forall i, j :: 0 <= i < j < |blocks| ==> blocks[i].start + blocks[i].size <= blocks[j].start
  }

  predicate HeapFits(h: Heap) {
    && Placed(h.arena)
    && Chained(h.frozen) && Chained(h.live)
    && (forall i :: 0 <= i < |h.frozen| ==> BlockFits(h.arena, h.frozen[i]))
    && (forall i :: 0 <= i < |h.live| ==> BlockFits(h.arena, h.live[i]))
    && (!h.arena.warmed ==> h.frozen == [])
    && (h.arena.warmed ==>
          && (forall i :: 0 <= i < |h.frozen| ==> h.frozen[i].start + h.frozen[i].size <= h.arena.warmup)
          && (forall i :: 0 <= i < |h.live| ==> h.arena.warmup <= h.live[i].start))
  }

  lemma DemandIsExact(offset: nat, padding: nat, size: nat)
    requires offset + padding + Ceil64(size) < TWO_64
    ensures Demand(offset, padding, size) == offset + padding + Ceil64(size)
  {
    CeilNotWrapped(size);
  }

  lemma AllocIsExact(a: ArenaState, size: nat, padding: nat)
    requires Placed(a) && a.offset + padding + Ceil64(size) < TWO_64
    ensures a.offset + padding + Ceil64(size) <= a.capacity ==>
              && AllocPadded(a, size, padding) == Some(a.base + a.offset + padding)
              && AfterPadded(a, size, padding) == a.(offset := a.offset + padding + Ceil64(size))
    ensures a.offset + padding + Ceil64(size) > a.capacity ==>
              AllocPadded(a, size, padding) == None && AfterPadded(a, size, padding) == a
  {
    DemandIsExact(a.offset, padding, size);
    var end := a.offset + padding + Ceil64(size);
    assert Demand(a.offset, padding, size) == end;
    if end <= a.capacity {
      assert a.base + a.offset + padding < TWO_64;
    }
  }

  lemma CeilNotWrapped(size: nat)
    requires Ceil64(size) < TWO_64
    ensures size + 63 < TWO_64
  {
    assert TWO_64 % 64 == 0;
    var c := Ceil64(size);
    assert c <= TWO_64 - 64;
  }

  /** What an allocation comes to, by the sum that is checked against the capacity. */
  lemma AllocByDemand(h: Heap, size: nat, alignment: nat, padding: nat, demand: nat)
    requires padding == Padding(Wrap(h.arena.base + h.arena.offset), alignment)
    requires demand == Demand(h.arena.offset, padding, size)
    ensures var aligned := Wrap(h.arena.base + h.arena.offset + padding);
            && AllocRaw(h.arena, size, alignment) == (if demand > h.arena.capacity then None else Some(aligned))
            && HeapAlloc(h, size, alignment)
               == if demand > h.arena.capacity then h
                  else Record(h, Some(aligned), h.arena.(offset := demand), size, alignment)
  {
  }

  lemma AllocKeepsHeap(h: Heap, size: nat, alignment: nat)
    requires HeapFits(h) && NoWrap(h.arena, size, alignment)
    ensures HeapFits(HeapAlloc(h, size, alignment))
    ensures HeapAligned(h) ==> HeapAligned(HeapAlloc(h, size, alignment))
  {
    var padding := Padding(Wrap(h.arena.base + h.arena.offset), alignment);
    StartAligned(h.arena, alignment);
    PaddedKeepsBoth(h, size, alignment, padding);
    assert HeapAlloc(h, size, alignment) == HeapPadded(h, size, alignment, padding);
  }

  lemma PaddedKeepsBoth(h: Heap, size: nat, alignment: nat, padding: nat)
    requires HeapFits(h) && h.arena.offset + padding + Ceil64(size) < TWO_64
    requires AlignedTo(h.arena.base + (h.arena.offset + padding), alignment)
    ensures HeapFits(HeapPadded(h, size, alignment, padding))
    ensures HeapAligned(h) ==> HeapAligned(HeapPadded(h, size, alignment, padding))
  {
    PaddedKeepsHeap(h, size, alignment, padding);
    ExtendAligned(h, HeapPadded(h, size, alignment, padding), Block(h.arena.offset + padding, size, alignment));
  }

  lemma StartAligned(a: ArenaState, alignment: nat)
    requires Placed(a)
    ensures AlignedTo(a.base + (a.offset + Padding(Wrap(a.base + a.offset), alignment)), alignment)
  {
    var address := a.base + a.offset;
    assert Wrap(address) == address;
    PaddingAligns(address, alignment);
    assert a.base + (a.offset + Padding(address, alignment)) == address + Padding(address, alignment);
  }

  /** The same blocks, or one more at the end. */
  predicate Extends(h: Heap, r: Heap, b: Block) {
    r.frozen == h.frozen && r.arena.base == h.arena.base && (r.live == h.live || r.live == h.live + [b])
  }

  lemma ExtendAligned(h: Heap, r: Heap, b: Block)
    requires Extends(h, r, b) && BlockAligned(h.arena.base, b)
    ensures HeapAligned(h) ==> HeapAligned(r)
  {
  }

  /** Without wrap-around a call changes nothing, or adds one block beyond the offset. */
  lemma PaddedKeepsHeap(h: Heap, size: nat, alignment: nat, padding: nat)
    requires HeapFits(h) && h.arena.offset + padding + Ceil64(size) < TWO_64
    ensures HeapFits(HeapPadded(h, size, alignment, padding))
    ensures Extends(h, HeapPadded(h, size, alignment, padding), Block(h.arena.offset + padding, size, alignment))
  {
    var start := h.arena.offset + padding;
    var end := AllocAnswers(h.arena, size, padding);
    RecordFits(h, AllocPadded(h.arena, size, padding), AfterPadded(h.arena, size, padding),
               start, end, size, alignment);
  }

  /** Null and no change, or the block from `start` with the offset moved to `end`. */
  predicate Answers(a: ArenaState, r: Option<nat>, after: ArenaState, start: nat, end: nat) {
    || (r == None && after == a)
    || (end <= a.capacity && r == Some(a.base + start) && after == a.(offset := end))
  }

  lemma AllocAnswers(a: ArenaState, size: nat, padding: nat) returns (end: nat)
    requires Placed(a) && a.offset + padding + Ceil64(size) < TWO_64
    ensures a.offset + padding + size <= end
    ensures Answers(a, AllocPadded(a, size, padding), AfterPadded(a, size, padding), a.offset + padding, end)
  {
    AllocIsExact(a, size, padding);
    end := a.offset + padding + Ceil64(size);
  }

  lemma RecordFits(h: Heap, r: Option<nat>, after: ArenaState, start: nat, end: nat, size: nat, alignment: nat)
    requires HeapFits(h) && h.arena.offset <= start && start + size <= end
    requires Answers(h.arena, r, after, start, end)
    ensures HeapFits(Record(h, r, after, size, alignment))
    ensures Extends(h, Record(h, r, after, size, alignment), Block(start, size, alignment))
  {
    if r == None {
      assert Record(h, r, after, size, alignment) == h;
    } else {
      ExtendHeap(h, Block(start, size, alignment), end);
    }
  }

  lemma ExtendHeap(h: Heap, b: Block, end: nat)
    requires HeapFits(h) && h.arena.offset <= b.start && b.start + b.size <= end <= h.arena.capacity
    ensures HeapFits(Heap(h.arena.(offset := end), h.frozen, h.live + [b]))
  {
    var r := Heap(h.arena.(offset := end), h.frozen, h.live + [b]);
    forall i | 0 <= i < |r.frozen| ensures BlockFits(r.arena, r.frozen[i]) { assert BlockFits(h.arena, h.frozen[i]); }
    forall i | 0 <= i < |r.live| ensures BlockFits(r.arena, r.live[i]) {
      if i < |h.live| { assert BlockFits(h.arena, h.live[i]); }
    }
  }

  lemma ResetKeepsHeap(h: Heap)
    requires HeapFits(h)
    ensures HeapFits(HeapReset(h)) && (HeapAligned(h) ==> HeapAligned(HeapReset(h)))
  {
  }

  /** A request that cannot wrap, whatever the offset: known before the call from the capacity alone. */
  predicate CannotWrap(capacity: nat, size: nat, alignment: nat) {
    size + 64 + Effective(alignment) + capacity <= TWO_64
  }

  predicate OpCannotWrap(capacity: nat, op: Op) {
    op.Alloc? ==> CannotWrap(capacity, op.size, op.alignment)
  }

  lemma {:induction false} RunKeepsHeap(h: Heap, ops: seq<Op>)
    requires HeapFits(h) && forall i :: 0 <= i < |ops| ==> OpCannotWrap(h.arena.capacity, ops[i])
    ensures HeapFits(DoAll(h, ops)) && (HeapAligned(h) ==> HeapAligned(DoAll(h, ops)))
    ensures DoAll(h, ops).arena.capacity == h.arena.capacity && DoAll(h, ops).arena.base == h.arena.base
  {
    if ops != [] {
      var before, op := ops[..|ops| - 1], ops[|ops| - 1];
      RunKeepsHeap(h, before);
      var r := DoAll(h, before);
      match op
      case Alloc(size, alignment) => AllocKeepsHeap(r, size, alignment);
      case Reset => ResetKeepsHeap(r);
    }
  }

  function FreshHeap(base: nat, capacity: nat): Heap {
    Heap(ArenaState(base, capacity, 0, 0, false), [], [])
  }

  predicate Apart(b: Block, c: Block) {
    b.start + b.size <= c.start || c.start + c.size <= b.start
  }

  /**
   After any run of allocations and resets, the blocks handed out since the last reset and
   all blocks from before the first one are pairwise disjoint, aligned and within capacity.
   */
  lemma BlocksStayApart(base: nat, capacity: nat, ops: seq<Op>)
    requires 0 < base && base % 64 == 0 && base + capacity < TWO_64
    requires forall i :: 0 <= i < |ops| ==> OpCannotWrap(capacity, ops[i])
    ensures var h := DoAll(FreshHeap(base, capacity), ops);
            var blocks := h.frozen + h.live;
            && (forall i :: 0 <= i < |blocks| ==>
                  && blocks[i].start + blocks[i].size <= h.arena.offset <= capacity
                  && (base + blocks[i].start) % Effective(blocks[i].alignment) == 0)
            && (forall i, j :: 0 <= i < j < |blocks| ==> Apart(blocks[i], blocks[j]))
  {
    var start := FreshHeap(base, capacity);
    RunKeepsHeap(start, ops);
    var h := DoAll(start, ops);
    BlocksFit(h);
    AlignedMeans(base, h.frozen + h.live);
  }

  lemma AlignedMeans(base: nat, blocks: seq<Block>)
    requires forall i :: 0 <= i < |blocks| ==> BlockAligned(base, blocks[i])
    ensures forall i :: 0 <= i < |blocks| ==> (base + blocks[i].start) % Effective(blocks[i].alignment) == 0
  {
    forall i | 0 <= i < |blocks| ensures (base + blocks[i].start) % Effective(blocks[i].alignment) == 0 {
      assert BlockAligned(base, blocks[i]);
      RemainderIsMod(base + blocks[i].start, Effective(blocks[i].alignment));
    }
  }

  lemma BlocksFit(h: Heap)
    requires HeapFits(h) && HeapAligned(h)
    ensures var blocks := h.frozen + h.live;
            && (forall i :: 0 <= i < |blocks| ==>
                  BlockFits(h.arena, blocks[i]) && BlockAligned(h.arena.base, blocks[i]))
            && (forall i, j :: 0 <= i < j < |blocks| ==> Apart(blocks[i], blocks[j]))
  {
    var blocks := h.frozen + h.live;
    forall i | 0 <= i < |blocks| ensures BlockFits(h.arena, blocks[i]) && BlockAligned(h.arena.base, blocks[i]) {
      if i < |h.frozen| { assert blocks[i] == h.frozen[i]; } else { assert blocks[i] == h.live[i - |h.frozen|]; }
    }
  }

  // ----- when the 64-bit arithmetic is right -----

  /** The call returned null, or a block that lies beyond the current offset and within capacity. */
  predicate Sound(a: ArenaState, size: nat, r: Option<nat>) {
    r.None? || (r.value >= a.base + a.offset && r.value + size <= a.base + a.capacity)
  }

  /**
   For a 64-aligned offset and an alignment up to 64, alloc_raw is sound exactly when the
   offset plus the rounded size is below 2^64. Beyond that it hands out a block that does not fit.
   */
  lemma SoundExactlyWhen(a: ArenaState, size: nat, alignment: nat)
    requires Placed(a) && a.offset % 64 == 0 && alignment <= 64 && size < TWO_64
    ensures Sound(a, size, AllocRaw(a, size, alignment)) <==> a.offset + Ceil64(size) < TWO_64
  {
    NoPadding(a, alignment);
    if a.offset + Ceil64(size) < TWO_64 {
      AllocIsExact(a, size, 0);
    } else {
      WrappedDemand(a.offset, size);
    }
  }

  /** Beyond 2^64 the checked sum is at most the offset, so the bound check passes. */
  lemma WrappedDemand(offset: nat, size: nat)
    requires offset < TWO_64 && size < TWO_64 && offset + Ceil64(size) >= TWO_64
    ensures Demand(offset, 0, size) <= offset
  {
    if size + 63 >= TWO_64 {
      WrapOnce(size + 63);
      assert ClearLow(Wrap(size + 63)) == 0;
    } else {
      assert Wrap(size + 63) == size + 63;
      assert offset + Ceil64(size) < 2 * TWO_64;
      WrapOnce(offset + Ceil64(size));
    }
  }

  lemma NoPadding(a: ArenaState, alignment: nat)
    requires Placed(a) && a.offset % 64 == 0 && alignment <= 64
    ensures Padding(Wrap(a.base + a.offset), alignment) == 0
  {
    assert Wrap(a.base + a.offset) == a.base + a.offset;
    SumAligned(a.base, a.offset);
    RemainderIsMod(a.base + a.offset, 64);
  }

  /** For the alignments callers use, alloc_raw is a plain bump by the size rounded up to 64. */
  lemma PlainBump(a: ArenaState, size: nat, alignment: nat)
    requires Placed(a) && a.offset % 64 == 0 && alignment <= 64
    requires CannotWrap(a.capacity, size, alignment)
    ensures a.offset + Ceil64(size) <= a.capacity ==>
              && AllocRaw(a, size, alignment) == Some(a.base + a.offset)
              && AfterAlloc(a, size, alignment) == a.(offset := a.offset + Ceil64(size))
    ensures a.offset + Ceil64(size) > a.capacity ==>
              AllocRaw(a, size, alignment) == None && AfterAlloc(a, size, alignment) == a
  {
    NoPadding(a, alignment);
    AllocIsExact(a, size, 0);
  }

  lemma FitsUnpadded(a: ArenaState, size: nat)
    requires Placed(a) && a.offset + Ceil64(size) <= a.capacity
    ensures AllocPadded(a, size, 0) == Some(a.base + a.offset)
    ensures AfterPadded(a, size, 0) == a.(offset := a.offset + Ceil64(size))
  {
    AllocIsExact(a, size, 0);
  }

  /** An ordinary request that fits is served at the current offset. */
  lemma FitsIsServed(a: ArenaState, size: nat, alignment: nat)
    requires Placed(a) && a.offset % 64 == 0 && alignment <= 64 && a.offset + Ceil64(size) <= a.capacity
    ensures NoWrap(a, size, alignment)
    ensures AllocRaw(a, size, alignment) == Some(a.base + a.offset)
    ensures AfterAlloc(a, size, alignment) == a.(offset := a.offset + Ceil64(size))
    ensures (a.offset + Ceil64(size)) % 64 == 0
  {
    NoPadding(a, alignment);
    FitsUnpadded(a, size);
    SumAligned(a.offset, Ceil64(size));
  }

  lemma FitsInHeap(h: Heap, size: nat, alignment: nat)
    requires Placed(h.arena) && h.arena.offset % 64 == 0 && alignment <= 64
    requires h.arena.offset + Ceil64(size) <= h.arena.capacity
    ensures NoWrap(h.arena, size, alignment)
    ensures AllocRaw(h.arena, size, alignment) == Some(h.arena.base + h.arena.offset)
    ensures HeapAlloc(h, size, alignment).arena == h.arena.(offset := h.arena.offset + Ceil64(size))
    ensures (h.arena.offset + Ceil64(size)) % 64 == 0
  {
    FitsIsServed(h.arena, size, alignment);
    assert HeapAlloc(h, size, alignment).arena == AfterAlloc(h.arena, size, alignment);
  }

  // ----- steady state -----

  /** What a request asks the arena for, in order. */
  function AllocAll(a: ArenaState, sizes: seq<nat>): (ArenaState, seq<Option<nat>>)
    decreases |sizes|
  {
    if sizes == [] then (a, [])
    else
      var (b, rest) := AllocAll(AfterAlloc(a, sizes[0], 64), sizes[1..]);
      (b, [AllocRaw(a, sizes[0], 64)] + rest)
  }

  predicate SizesCannotWrap(a: ArenaState, sizes: seq<nat>) {
    forall i :: 0 <= i < |sizes| ==> CannotWrap(a.capacity, sizes[i], 64)
  }

  function SumCeil(sizes: seq<nat>): nat {
    if sizes == [] then 0 else Ceil64(sizes[0]) + SumCeil(sizes[1..])
  }

  predicate AllSome(rs: seq<Option<nat>>) {
    forall i :: 0 <= i < |rs| ==> rs[i].Some?
  }

  /** A request succeeds throughout exactly when its rounded sizes fit, and then takes exactly their sum. */
  lemma {:induction false} RequestFits(a: ArenaState, sizes: seq<nat>)
    requires Placed(a) && a.offset % 64 == 0 && SizesCannotWrap(a, sizes)
    decreases |sizes|
    ensures AllSome(AllocAll(a, sizes).1) <==> a.offset + SumCeil(sizes) <= a.capacity
    ensures AllSome(AllocAll(a, sizes).1) ==> AllocAll(a, sizes).0 == a.(offset := a.offset + SumCeil(sizes))
  {
    if sizes != [] {
      var size, rest := sizes[0], sizes[1..];
      PlainBump(a, size, 64);
      var next := AfterAlloc(a, size, 64);
      AllSomeCons(AllocRaw(a, size, 64), AllocAll(next, rest).1);
      if a.offset + Ceil64(size) <= a.capacity {
        BumpPlaced(a, size);
        RequestFits(next, rest);
      }
    }
  }

  lemma BumpPlaced(a: ArenaState, size: nat)
    requires Placed(a) && a.offset % 64 == 0 && a.offset + Ceil64(size) <= a.capacity
    ensures var b := a.(offset := a.offset + Ceil64(size)); Placed(b) && b.offset % 64 == 0
  {
    SumAligned(a.offset, Ceil64(size));
  }

  lemma AllSomeCons(r: Option<nat>, rs: seq<Option<nat>>)
    ensures AllSome([r] + rs) <==> r.Some? && AllSome(rs)
  {
    var all := [r] + rs;
    assert all[0] == r && forall i :: 0 <= i < |rs| ==> all[i + 1] == rs[i];
  }

  lemma CeilMonotone(x: nat, y: nat)
    requires x <= y
    ensures Ceil64(x) <= Ceil64(y)
  {
    var c, d := Ceil64(x), Ceil64(y);
    assert c < d + 64 && c % 64 == 0 && d % 64 == 0;
  }

  lemma {:induction false} SumCeilMonotone(small: seq<nat>, large: seq<nat>)
    requires |small| == |large| && forall i :: 0 <= i < |small| ==> small[i] <= large[i]
    ensures SumCeil(small) <= SumCeil(large)
  {
    if small != [] {
      SumCeilMonotone(small[1..], large[1..]);
      CeilMonotone(small[0], large[0]);
    }
  }

  lemma {:induction false} ResetForgets(h: Heap, ops: seq<Op>)
    requires h.arena.warmed
    ensures AfterReset(DoAll(h, ops).arena) == h.arena.(offset := h.arena.warmup)
    ensures DoAll(h, ops).arena.warmed
  {
    if ops != [] {
      ResetForgets(h, ops[..|ops| - 1]);
    }
  }

  /**
   Steady state: once warmed up, whatever earlier requests did, a request starts at the
   warm-up mark. So equal requests get equal answers, a pointwise smaller request fits where a
   larger one did, and no usage is carried from one request to the next.
   */
  lemma SteadyState(h: Heap, earlier: seq<Op>, later: seq<Op>, small: seq<nat>, large: seq<nat>)
    requires HeapFits(h) && h.arena.warmed && h.arena.warmup % 64 == 0
    requires SizesCannotWrap(h.arena, large)
    requires |small| == |large| && forall i :: 0 <= i < |small| ==> small[i] <= large[i]
    ensures var first, second := AfterReset(DoAll(h, earlier).arena), AfterReset(DoAll(h, later).arena);
            && first.offset == h.arena.warmup
            && AllocAll(first, large) == AllocAll(second, large)
            && (AllSome(AllocAll(first, large).1) ==>
                  AllSome(AllocAll(second, small).1)
                  && AllocAll(second, small).0.offset <= AllocAll(first, large).0.offset)
  {
    ResetForgets(h, earlier);
    ResetForgets(h, later);
    var a := h.arena.(offset := h.arena.warmup);
    RequestFits(a, large);
    RequestFits(a, small);
    SumCeilMonotone(small, large);
  }

  /** The alignments that callers use never exceed 64. */
  predicate UsualAlignment(op: Op) {
    op.Alloc? ==> op.alignment <= 64
  }

  predicate Aligned64(a: ArenaState) {
    a.offset % 64 == 0 && a.warmup % 64 == 0
  }

  lemma AllocKeepsAligned(a: ArenaState, size: nat, alignment: nat)
    requires Placed(a) && a.offset % 64 == 0 && alignment <= 64 && CannotWrap(a.capacity, size, alignment)
    ensures AfterAlloc(a, size, alignment).offset % 64 == 0
    ensures AfterAlloc(a, size, alignment).warmup == a.warmup
  {
    PlainBump(a, size, alignment);
    var after, c := AfterAlloc(a, size, alignment), Ceil64(size);
    SumAligned(a.offset, c);
    assert after == a || after == a.(offset := a.offset + c);
  }

  lemma SumAligned(x: nat, y: nat)
    requires x % 64 == 0 && y % 64 == 0
    ensures (x + y) % 64 == 0
  {
  }

  lemma StepKeepsAligned(h: Heap, op: Op)
    requires HeapFits(h) && Aligned64(h.arena) && OpCannotWrap(h.arena.capacity, op) && UsualAlignment(op)
    ensures Aligned64(Do(h, op).arena)
  {
    if op.Alloc? {
      AllocKeepsAligned(h.arena, op.size, op.alignment);
      assert Do(h, op).arena == AfterAlloc(h.arena, op.size, op.alignment);
    }
  }

  /** With the usual alignments the offset stays a multiple of 64 over every run, so padding is always zero. */
  lemma {:induction false} RunKeepsAligned(h: Heap, ops: seq<Op>, alignment: nat)
    requires HeapFits(h) && Aligned64(h.arena) && alignment <= 64
    requires forall i :: 0 <= i < |ops| ==> OpCannotWrap(h.arena.capacity, ops[i]) && UsualAlignment(ops[i])
    ensures var a := DoAll(h, ops).arena;
            Aligned64(a) && Padding(Wrap(a.base + a.offset), alignment) == 0
  {
    RunKeepsHeap(h, ops);
    if ops != [] {
      var before, op := ops[..|ops| - 1], ops[|ops| - 1];
      RunKeepsAligned(h, before, alignment);
      RunKeepsHeap(h, before);
      StepKeepsAligned(DoAll(h, before), op);
    }
    NoPadding(DoAll(h, ops).arena, alignment);
  }

  /** The first reset comes after the first request, so that request's buffers are frozen for good. */
  lemma FirstRequestIsFrozen(a: ArenaState, sizes: seq<nat>)
    requires Placed(a) && a.offset % 64 == 0 && !a.warmed && SizesCannotWrap(a, sizes)
    requires a.offset + SumCeil(sizes) <= a.capacity
    ensures AfterReset(AllocAll(a, sizes).0).warmup == a.offset + SumCeil(sizes)
    ensures AfterReset(AllocAll(a, sizes).0).offset == a.offset + SumCeil(sizes)
  {
    RequestFits(a, sizes);
  }
}
