/**
 Requests after the migration: each takes blocks from the arena, writes anything into the
 blocks it took, and ends with a reset. The metadata below stays what it was.
 */
module Requests {
  import opened Core
  import opened Arena
  import opened Memory
  import opened Metadata
  import opened InferenceEngineClass

  /** `mine` are the blocks of the current request. */
  datatype World = World(heap: Heap, memory: seq<byte>, mine: seq<Block>)

  datatype Act = TakeBlock(size: nat, alignment: nat) | Fill(k: nat, bytes: seq<byte>) | EndRequest

  function Next(w: World, act: Act): World {
    match act
    case TakeBlock(size, alignment) =>
      var heap := HeapAlloc(w.heap, size, alignment);
      World(heap, w.memory,
            if |heap.live| > |w.heap.live| then w.mine + [heap.live[|heap.live| - 1]] else w.mine)
    case Fill(k, bytes) =>
      if k < |w.mine| && |bytes| <= w.mine[k].size && w.mine[k].start + |bytes| <= |w.memory|
      then w.(memory := Splice(w.memory, w.mine[k].start, bytes)) else w
    case EndRequest => World(HeapReset(w.heap), w.memory, [])
  }

  function RunActs(w: World, acts: seq<Act>): World {
    if acts == [] then w else Next(RunActs(w, acts[..|acts| - 1]), acts[|acts| - 1])
  }

  predicate ActCannotWrap(capacity: nat, act: Act) {
    act.TakeBlock? ==> CannotWrap(capacity, act.size, act.alignment)
  }

  /** Whatever a request may write lies at or beyond `end`. */
  predicate WorldFits(w: World, end: nat) {
    && HeapFits(w.heap) && w.heap.arena.capacity <= |w.memory|
    && end <= w.heap.arena.offset && (w.heap.arena.warmed ==> end <= w.heap.arena.warmup)
    && (forall k :: 0 <= k < |w.mine| ==> end <= w.mine[k].start)
  }

  lemma TakeBlockFits(w: World, size: nat, alignment: nat, end: nat)
    requires WorldFits(w, end) && ActCannotWrap(w.heap.arena.capacity, TakeBlock(size, alignment))
    ensures WorldFits(Next(w, TakeBlock(size, alignment)), end)
  {
    var a := w.heap.arena;
    AllocKeepsHeap(w.heap, size, alignment);
    AllocIsExact(a, size, Padding(Wrap(a.base + a.offset), alignment));
  }

  lemma ActFits(w: World, act: Act, end: nat)
    requires WorldFits(w, end) && ActCannotWrap(w.heap.arena.capacity, act)
    ensures WorldFits(Next(w, act), end) && Next(w, act).heap.arena.capacity == w.heap.arena.capacity
    ensures Same(w.memory, Next(w, act).memory, 0, end)
  {
    match act
    case TakeBlock(size, alignment) => TakeBlockFits(w, size, alignment, end);
    case Fill(_, _) =>
    case EndRequest => ResetKeepsHeap(w.heap);
  }

  /** Any number of requests leaves everything below `end` as it was. */
  lemma {:induction false} RequestsKeepBelow(w: World, acts: seq<Act>, end: nat)
    requires WorldFits(w, end) && forall i :: 0 <= i < |acts| ==> ActCannotWrap(w.heap.arena.capacity, acts[i])
    ensures WorldFits(RunActs(w, acts), end)
    ensures RunActs(w, acts).heap.arena.capacity == w.heap.arena.capacity
    ensures Same(w.memory, RunActs(w, acts).memory, 0, end)
  {
    if acts != [] {
      RequestsKeepBelow(w, acts[..|acts| - 1], end);
      ActFits(RunActs(w, acts[..|acts| - 1]), acts[|acts| - 1], end);
    }
  }

  lemma InArenaKept(m: seq<byte>, r: seq<byte>, base: nat, ins: Tables, inputs: seq<Node>, outs: Tables,
                    outputs: seq<Node>, l: Layout, end: nat)
    requires InArena(m, base, ins, inputs, outs, outputs, l, end) && Same(m, r, 0, end)
    ensures InArena(r, base, ins, inputs, outs, outputs, l, end)
  {
    StoredAllKept(m, r, base, ins, inputs, l.inSpots, l.limit, end);
    StoredAllKept(m, r, base, outs, outputs, l.outSpots, l.limit, end);
  }

  predicate AllPrintable(nodes: seq<Node>) {
    forall j :: 0 <= j < |nodes| ==> Printable(nodes[j].name)
  }

  /** The node that `run` works with: read through the arena, or from the heap vectors. */
  function NodeForRun(migrated: bool, m: seq<byte>, base: nat, t: Tables, nodes: seq<Node>, j: nat): Option<Node>
    requires j < |nodes|
  {
    if migrated then ReadNode(m, base, t, j) else Some(nodes[j])
  }

  /** Both branches of `run` see the same node at every index of one side. */
  predicate SideAgrees(m: seq<byte>, base: nat, t: Tables, nodes: seq<Node>) {
    forall j :: 0 <= j < |nodes| ==>
      NodeForRun(true, m, base, t, nodes, j) == NodeForRun(false, m, base, t, nodes, j)
  }

  /** What the migration leaves behind: the metadata ends at the offset, and no reset has happened yet. */
  predicate Migrated(h: Heap, m: seq<byte>, ins: Tables, inputs: seq<Node>, outs: Tables, outputs: seq<Node>,
                     l: Layout) {
    && HeapFits(h) && !h.arena.warmed && h.arena.capacity <= |m|
    && InArena(m, h.arena.base, ins, inputs, outs, outputs, l, h.arena.offset)
    && AllPrintable(inputs) && AllPrintable(outputs)
  }

  /**
   After the migration and any number of requests, every name and shape read through the
   arena is the one the heap vectors held, so the two branches of `run` see the same model.
   */
  lemma BranchesAgree(h: Heap, m: seq<byte>, acts: seq<Act>, ins: Tables, inputs: seq<Node>, outs: Tables,
                      outputs: seq<Node>, l: Layout)
    requires Migrated(h, m, ins, inputs, outs, outputs, l)
    requires forall i :: 0 <= i < |acts| ==> ActCannotWrap(h.arena.capacity, acts[i])
    ensures var later, base := RunActs(World(h, m, []), acts).memory, h.arena.base;
            SideAgrees(later, base, ins, inputs) && SideAgrees(later, base, outs, outputs)
  {
    var w, base, end := World(h, m, []), h.arena.base, h.arena.offset;
    var later := RunActs(w, acts).memory;
    RequestsKeepBelow(w, acts, end);
    InArenaKept(m, later, base, ins, inputs, outs, outputs, l, end);
    SideIsRead(later, base, ins, inputs, l.inSpots, l.limit, end);
    SideIsRead(later, base, outs, outputs, l.outSpots, l.limit, end);
  }

  lemma SideIsRead(m: seq<byte>, base: nat, t: Tables, nodes: seq<Node>, spots: seq<Spot>, limit: nat, end: nat)
    requires StoredAll(m, base, t, nodes, spots, limit, end) && AllPrintable(nodes)
    ensures forall j :: 0 <= j < |nodes| ==> ReadNode(m, base, t, j) == Some(nodes[j])
  {
    forall j | 0 <= j < |nodes| ensures ReadNode(m, base, t, j) == Some(nodes[j]) {
      StoredIsRead(m, base, t, j, nodes[j], spots[j], limit, end);
    }
  }

  /**
   The same from the call: migrate into an arena that has seen no reset, let any requests
   follow, and the arena still reads as the heap vectors did before the call.
   */
  method MigrateForGood(engine: InferenceEngine, ghost acts: seq<Act>)
    requires engine.arena.Valid() && engine.arena.offset % 64 == 0 && !engine.arena.warmedUp
    requires engine.arena.offset + MetadataSize(engine.inputs, engine.outputs) <= engine.arena.capacity
    requires AllPrintable(engine.inputs) && AllPrintable(engine.outputs)
    requires forall i :: 0 <= i < |acts| ==> ActCannotWrap(engine.arena.capacity, acts[i])
    modifies engine, engine.arena, engine.arena.memory
    ensures engine.metadataMigrated && engine.inputs == [] && engine.outputs == []
    ensures Migrated(engine.arena.View(), engine.arena.memory[..], engine.inputTables, old(engine.inputs),
                     engine.outputTables, old(engine.outputs), engine.layout)
    ensures var later := RunActs(World(engine.arena.View(), engine.arena.memory[..], []), acts).memory;
            && SideAgrees(later, engine.arena.base, engine.inputTables, old(engine.inputs))
            && SideAgrees(later, engine.arena.base, engine.outputTables, old(engine.outputs))
  {
    engine.MigrateMetadataToArena();
    BranchesAgree(engine.arena.View(), engine.arena.memory[..], acts, engine.inputTables, old(engine.inputs),
                  engine.outputTables, old(engine.outputs), engine.layout);
  }
}
