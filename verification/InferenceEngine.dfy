/**
 The engine of a worker: moving the model's metadata into the arena once, and after that
 reading names and shapes through the arena while requests come and go.
 */
module InferenceEngineClass {
  import opened Core
  import opened Arena
  import opened Memory
  import opened Metadata
  import opened LumenArenaClass

  /** Bytes of arena that one node takes, and all nodes of a side. */
  function NodeSize(node: Node): nat {
    Ceil64(|node.name| + 1) + Ceil64(8 * |node.dims|)
  }

  function SideSize(nodes: seq<Node>): nat {
    if nodes == [] then 0 else SideSize(nodes[..|nodes| - 1]) + NodeSize(nodes[|nodes| - 1])
  }

  lemma SideSizeStep(nodes: seq<Node>, i: nat)
    requires i < |nodes|
    ensures SideSize(nodes[..i + 1]) == SideSize(nodes[..i]) + NodeSize(nodes[i])
  {
    assert nodes[..i + 1][..i] == nodes[..i];
  }

  lemma {:induction false} SideSizeMonotone(nodes: seq<Node>, i: nat)
    requires i <= |nodes|
    ensures SideSize(nodes[..i]) <= SideSize(nodes)
    decreases |nodes| - i
  {
    if i == |nodes| {
      assert nodes[..i] == nodes;
    } else {
      SideSizeStep(nodes, i);
      SideSizeMonotone(nodes, i + 1);
    }
  }

  predicate OutsideTables(t: Tables, n: nat, k: nat) {
    && !(t.names <= k < t.names + 8 * n)
    && !(t.dims <= k < t.dims + 8 * n)
    && !(t.counts <= k < t.counts + 8 * n)
  }

  /** Nothing changed outside the tables of one side and the area from `from` to `to`. */
  predicate OnlySide(before: seq<byte>, after: seq<byte>, t: Tables, n: nat, from: nat, to: nat) {
    && |before| == |after|
    && forall k :: 0 <= k < |before| && OutsideTables(t, n, k) && !(from <= k < to) ==> after[k] == before[k]
  }

  lemma OnlySideStep(before: seq<byte>, m: seq<byte>, t: Tables, nodes: seq<Node>, i: nat, base: nat, spot: Spot,
                     limit: nat, start: nat, end: nat)
    requires i < |nodes| && Fits(m, t, i, nodes[i], spot, limit, end) && start <= spot.name <= end
    requires OnlySide(before, m, t, |nodes|, start, spot.name)
    ensures OnlySide(before, StoreNode(m, base, t, i, nodes[i], spot, limit, end), t, |nodes|, start, end)
  {
    forall k | 0 <= k < |m| && OutsideTables(t, |nodes|, k) && !(start <= k < end)
      ensures StoreNode(m, base, t, i, nodes[i], spot, limit, end)[k] == before[k]
    {
      StoreNodeFrame(m, base, t, i, nodes[i], spot, limit, end, k);
    }
  }

  function Planned(node: Node, start: nat): Spot {
    Spot(start, start + Ceil64(|node.name| + 1))
  }

  lemma PlanFits(m: seq<byte>, t: Tables, i: nat, node: Node, start: nat, limit: nat, capacity: nat)
    requires TablesPlaced(t, i + 1, limit) && limit <= start && start + NodeSize(node) <= capacity <= |m|
    ensures Fits(m, t, i, node, Planned(node, start), limit, start + NodeSize(node))
  {
  }

  /** Memory before the first of the stores and after each of them. */
  ghost predicate Chain(ms: seq<seq<byte>>, stores: seq<Store>) {
    && |ms| == |stores| + 1
    && forall k :: 0 <= k < |stores| ==> Follows(ms[k], ms[k + 1], stores[k])
  }

  predicate Follows(before: seq<byte>, after: seq<byte>, store: Store) {
    store.at + |store.bytes| <= |before| && after == Splice(before, store.at, store.bytes)
  }

  /** The planned stores of one iteration as such a chain. */
  lemma PlanStores(m: seq<byte>, base: nat, t: Tables, i: nat, node: Node, start: nat, limit: nat, capacity: nat)
    returns (ms: seq<seq<byte>>)
    requires TablesPlaced(t, i + 1, limit) && limit <= start && start + NodeSize(node) <= capacity <= |m|
    ensures var spot, end := Planned(node, start), start + NodeSize(node);
            && Fits(m, t, i, node, spot, limit, end)
            && Chain(ms, NodeStores(base, t, i, node, spot)) && ms[0] == m
            && ms[5] == StoreNode(m, base, t, i, node, spot, limit, end)
  {
    var spot, end := Planned(node, start), start + NodeSize(node);
    PlanFits(m, t, i, node, start, limit, capacity);
    NodeStoresApart(m, base, t, i, node, spot, limit, end);
    ms := Stages(m, NodeStores(base, t, i, node, spot));
  }

  /** The chain of the first k stores. */
  ghost predicate StagesTo(m: seq<byte>, stores: seq<Store>, k: nat, ms: seq<seq<byte>>) {
    && InBounds(|m|, stores) && k <= |stores| && |ms| == k + 1 && ms[0] == m && ms[k] == StoreAll(m, stores[..k])
    && forall i :: 0 <= i < k ==> Follows(ms[i], ms[i + 1], stores[i])
  }

  lemma OneMoreStage(m: seq<byte>, stores: seq<Store>, k: nat, ms: seq<seq<byte>>) returns (more: seq<seq<byte>>)
    requires StagesTo(m, stores, k, ms) && k < |stores|
    ensures StagesTo(m, stores, k + 1, more)
  {
    var next := StoreAll(m, stores[..k + 1]);
    StoreAllStep(m, stores, k);
    assert Follows(ms[k], next, stores[k]);
    more := ms + [next];
  }

  lemma Stages(m: seq<byte>, stores: seq<Store>) returns (ms: seq<seq<byte>>)
    requires InBounds(|m|, stores)
    ensures Chain(ms, stores) && ms[0] == m && ms[|stores|] == StoreAll(m, stores)
  {
    ms := [m];
    assert stores[..0] == [];
    for k := 0 to |stores|
      invariant StagesTo(m, stores, k, ms)
    {
      ms := OneMoreStage(m, stores, k, ms);
    }
    assert stores[..|stores|] == stores;
  }

  /** The state of the copy loop after i nodes. */
  predicate Copied(before: seq<byte>, m: seq<byte>, base: nat, t: Tables, nodes: seq<Node>, i: nat, spots: seq<Spot>,
                   limit: nat, start: nat, end: nat)
    requires i <= |nodes|
  {
    StoredAll(m, base, t, nodes[..i], spots, limit, end) && OnlySide(before, m, t, |nodes|, start, end)
  }

  lemma CopiedStep(before: seq<byte>, m: seq<byte>, base: nat, t: Tables, nodes: seq<Node>, i: nat, spots: seq<Spot>,
                   spot: Spot, limit: nat, start: nat, end: nat)
    requires i < |nodes| && TablesPlaced(t, |nodes|, limit) && Fits(m, t, i, nodes[i], spot, limit, end)
    requires start <= spot.name <= end && base + end < TWO_64
    requires Copied(before, m, base, t, nodes, i, spots, limit, start, spot.name)
    ensures Copied(before, StoreNode(m, base, t, i, nodes[i], spot, limit, end), base, t,
                   nodes, i + 1, spots + [spot], limit, start, end)
  {
    StoreNodeExtends(m, base, t, nodes[..i], spots, nodes[i], spot, |nodes|, limit, end);
    assert nodes[..i + 1] == nodes[..i] + [nodes[i]];
    OnlySideStep(before, m, t, nodes, i, base, spot, limit, start, end);
  }

  function TablesSize(n: nat, k: nat): nat {
    3 * Ceil64(n * 8) + 3 * Ceil64(k * 8)
  }

  function MetadataSize(inputs: seq<Node>, outputs: seq<Node>): nat {
    TablesSize(|inputs|, |outputs|) + SideSize(inputs) + SideSize(outputs)
  }

  /** The tables of both sides lie below `limit` and no table overlaps one of the other side. */
  predicate BothPlaced(ins: Tables, n: nat, outs: Tables, k: nat, limit: nat) {
    && TablesPlaced(ins, n, limit) && TablesPlaced(outs, k, limit)
    && ins.names + 8 * n <= outs.names && outs.names + 8 * k <= ins.dims
    && ins.dims + 8 * n <= outs.dims && outs.dims + 8 * k <= ins.counts
    && ins.counts + 8 * n <= outs.counts
  }

  /** Where the migration put things: the end of the tables, and each node's string and dimensions. */
  datatype Layout = Layout(limit: nat, inSpots: seq<Spot>, outSpots: seq<Spot>)

  /** All names and shapes are found through the tables, and nothing they need lies beyond `end`. */
  predicate InArena(m: seq<byte>, base: nat, ins: Tables, inputs: seq<Node>, outs: Tables, outputs: seq<Node>,
                    l: Layout, end: nat) {
    && BothPlaced(ins, |inputs|, outs, |outputs|, l.limit)
    && StoredAll(m, base, ins, inputs, l.inSpots, l.limit, end)
    && StoredAll(m, base, outs, outputs, l.outSpots, l.limit, end)
    && l.limit <= end <= |m|
  }

  lemma SidesTogether(m: seq<byte>, r: seq<byte>, base: nat, ins: Tables, inputs: seq<Node>, inSpots: seq<Spot>,
                      outs: Tables, outputs: seq<Node>, outSpots: seq<Spot>, limit: nat, middle: nat, end: nat)
    requires BothPlaced(ins, |inputs|, outs, |outputs|, limit) && limit <= middle <= end <= |m| && base + end < TWO_64
    requires StoredAll(m, base, ins, inputs, inSpots, limit, middle)
    requires StoredAll(r, base, outs, outputs, outSpots, limit, end)
    requires OnlySide(m, r, outs, |outputs|, middle, end)
    ensures InArena(r, base, ins, inputs, outs, outputs, Layout(limit, inSpots, outSpots), end)
  {
    forall j | 0 <= j < |inputs| ensures StoredAt(r, base, ins, j, inputs[j], inSpots[j], limit, end) {
      assert SameEntry(m, r, ins, j);
      StoredKept(m, r, base, ins, j, inputs[j], inSpots[j], limit, middle, end);
    }
  }

  class InferenceEngine {
    const arena: LumenArena

    // Heap metadata, cleared by the migration.
    var inputs: seq<Node>
    var outputs: seq<Node>

    // Offsets of the arena tables.
    var inputTables: Tables
    var outputTables: Tables
    var numInputs: nat
    var numOutputs: nat
    var metadataMigrated: bool
    ghost var layout: Layout

    constructor (arena: LumenArena, inputs: seq<Node>, outputs: seq<Node>)
      ensures this.arena == arena && this.inputs == inputs && this.outputs == outputs && !metadataMigrated
    {
      this.arena, this.inputs, this.outputs := arena, inputs, outputs;
      inputTables, outputTables := Tables(0, 0, 0), Tables(0, 0, 0);
      numInputs, numOutputs, metadataMigrated := 0, 0, false;
    }

    /** Allocate an array of the arena that fits. */
    method Reserve(count: nat, sizeOf: nat, alignOf: nat) returns (o: nat)
      requires arena.Valid() && arena.offset % 64 == 0 && alignOf <= 64
      requires count * sizeOf < TWO_64 && arena.offset + Ceil64(count * sizeOf) <= arena.capacity
      modifies arena
      ensures arena.Valid() && o == old(arena.offset)
      ensures arena.View().arena == old(arena.View().arena).(offset := o + Ceil64(count * sizeOf))
      ensures arena.offset % 64 == 0
    {
      FitsInHeap(arena.View(), count * sizeOf, alignOf);
      var r := arena.AllocTyped(count, sizeOf, alignOf);
      o := r.value - arena.base;
    }

    /** The k-th of the planned stores. */
    method Put(o: nat, bytes: seq<byte>, ghost ms: seq<seq<byte>>, ghost stores: seq<Store>, ghost k: nat)
      requires Chain(ms, stores) && k < |stores| && stores[k] == Store(o, bytes) && arena.memory[..] == ms[k]
      modifies arena.memory
      ensures arena.memory[..] == ms[k + 1]
    {
      assert Follows(ms[k], ms[k + 1], stores[k]);
      arena.Store(arena.base + o, bytes);
    }

    /** The string and its pointer, the first two of the planned stores. */
    method PutName(node: Node, t: Tables, i: nat, name: nat, ghost ms: seq<seq<byte>>, ghost stores: seq<Store>)
      requires Chain(ms, stores) && |stores| == 5 && arena.memory[..] == ms[0]
      requires stores[0] == Store(name, node.name + [0])
      requires stores[1] == Store(t.names + 8 * i, Word(arena.base + name))
      modifies arena.memory
      ensures arena.memory[..] == ms[2]
    {
      Put(name, node.name + [0], ms, stores, 0);
      Put(t.names + 8 * i, Word(arena.base + name), ms, stores, 1);
    }

    /** The dimensions, their pointer and their count, the last three of the planned stores. */
    method PutDims(node: Node, t: Tables, i: nat, dims: nat, ghost ms: seq<seq<byte>>, ghost stores: seq<Store>)
      requires Chain(ms, stores) && |stores| == 5 && arena.memory[..] == ms[2]
      requires stores[2] == Store(dims, Words(node.dims))
      requires stores[3] == Store(t.dims + 8 * i, Word(arena.base + dims))
      requires stores[4] == Store(t.counts + 8 * i, Word(|node.dims|))
      modifies arena.memory
      ensures arena.memory[..] == ms[5]
    {
      Put(dims, Words(node.dims), ms, stores, 2);
      Put(t.dims + 8 * i, Word(arena.base + dims), ms, stores, 3);
      Put(t.counts + 8 * i, Word(|node.dims|), ms, stores, 4);
    }

    /** The stores of the plan, with each block taken from the arena before it is filled. */
    method CopyParts(node: Node, t: Tables, i: nat, ghost ms: seq<seq<byte>>, ghost stores: seq<Store>,
                     ghost planned: Spot)
      returns (spot: Spot)
      requires arena.Valid() && arena.offset % 64 == 0 && planned == Planned(node, arena.offset)
      requires arena.offset + NodeSize(node) <= arena.capacity
      requires stores == NodeStores(arena.base, t, i, node, planned)
      requires Chain(ms, stores) && arena.memory[..] == ms[0]
      modifies arena, arena.memory
      ensures arena.Valid() && arena.offset % 64 == 0 && spot == planned
      ensures arena.View().arena == old(arena.View().arena).(offset := old(arena.offset) + NodeSize(node))
      ensures arena.memory[..] == ms[5]
    {
      var name := ReserveName(node);
      PutName(node, t, i, name, ms, stores);
      var dims := ReserveDims(node);
      PutDims(node, t, i, dims, ms, stores);
      spot := Spot(name, dims);
    }

    method ReserveName(node: Node) returns (name: nat)
      requires arena.Valid() && arena.offset % 64 == 0 && arena.offset + Ceil64(|node.name| + 1) <= arena.capacity
      modifies arena
      ensures arena.Valid() && arena.offset % 64 == 0 && name == old(arena.offset)
      ensures arena.View().arena == old(arena.View().arena).(offset := name + Ceil64(|node.name| + 1))
    {
      assert (|node.name| + 1) * 1 == |node.name| + 1;
      name := Reserve(|node.name| + 1, 1, 1);
    }

    method ReserveDims(node: Node) returns (dims: nat)
      requires arena.Valid() && arena.offset % 64 == 0 && arena.offset + Ceil64(8 * |node.dims|) <= arena.capacity
      modifies arena
      ensures arena.Valid() && arena.offset % 64 == 0 && dims == old(arena.offset)
      ensures arena.View().arena == old(arena.View().arena).(offset := dims + Ceil64(8 * |node.dims|))
    {
      dims := Reserve(|node.dims|, 8, 8);
    }

    /** One iteration of the copy loops: name, pointer, dimensions, pointer, count. */
    method CopyNode(node: Node, t: Tables, i: nat, ghost limit: nat) returns (spot: Spot)
      requires arena.Valid() && arena.offset % 64 == 0
      requires TablesPlaced(t, i + 1, limit) && limit <= arena.offset
      requires arena.offset + NodeSize(node) <= arena.capacity
      modifies arena, arena.memory
      ensures arena.Valid() && arena.offset % 64 == 0
      ensures arena.View().arena == old(arena.View().arena).(offset := old(arena.offset) + NodeSize(node))
      ensures spot == Planned(node, old(arena.offset))
      ensures Fits(old(arena.memory[..]), t, i, node, spot, limit, arena.offset)
      ensures arena.memory[..] == StoreNode(old(arena.memory[..]), arena.base, t, i, node, spot, limit, arena.offset)
    {
      ghost var planned := Planned(node, arena.offset);
      ghost var ms := PlanStores(arena.memory[..], arena.base, t, i, node, arena.offset, limit, arena.capacity);
      spot := CopyParts(node, t, i, ms, NodeStores(arena.base, t, i, node, planned), planned);
    }

    /** The copy loop over one side. */
    method CopySide(nodes: seq<Node>, t: Tables, ghost limit: nat) returns (ghost spots: seq<Spot>)
      requires arena.Valid() && arena.offset % 64 == 0
      requires TablesPlaced(t, |nodes|, limit) && limit <= arena.offset
      requires arena.offset + SideSize(nodes) <= arena.capacity
      modifies arena, arena.memory
      ensures arena.Valid() && arena.offset % 64 == 0
      ensures arena.View().arena == old(arena.View().arena).(offset := old(arena.offset) + SideSize(nodes))
      ensures StoredAll(arena.memory[..], arena.base, t, nodes, spots, limit, arena.offset)
      ensures OnlySide(old(arena.memory[..]), arena.memory[..], t, |nodes|, old(arena.offset), arena.offset)
    {
      spots := [];
      ghost var start, before := arena.offset, arena.memory[..];
      for i := 0 to |nodes|
        invariant arena.Valid() && arena.offset % 64 == 0
        invariant arena.View().arena == old(arena.View().arena).(offset := start + SideSize(nodes[..i]))
        invariant Copied(before, arena.memory[..], arena.base, t, nodes, i, spots, limit, start, arena.offset)
      {
        spots := CopyNext(nodes, t, i, limit, spots, before, start);
      }
      assert nodes[..|nodes|] == nodes;
    }

    method CopyNext(nodes: seq<Node>, t: Tables, i: nat, ghost limit: nat, ghost spots: seq<Spot>,
                    ghost before: seq<byte>, ghost start: nat)
      returns (ghost more: seq<Spot>)
      requires arena.Valid() && arena.offset % 64 == 0 && i < |nodes|
      requires TablesPlaced(t, |nodes|, limit) && limit <= start && arena.offset == start + SideSize(nodes[..i])
      requires start + SideSize(nodes) <= arena.capacity
      requires Copied(before, arena.memory[..], arena.base, t, nodes, i, spots, limit, start, arena.offset)
      modifies arena, arena.memory
      ensures arena.Valid() && arena.offset % 64 == 0
      ensures arena.View().arena == old(arena.View().arena).(offset := start + SideSize(nodes[..i + 1]))
      ensures Copied(before, arena.memory[..], arena.base, t, nodes, i + 1, more, limit, start, arena.offset)
    {
      SideSizeStep(nodes, i);
      SideSizeMonotone(nodes, i + 1);
      ghost var m := arena.memory[..];
      var spot := CopyNode(nodes[i], t, i, limit);
      CopiedStep(before, m, arena.base, t, nodes, i, spots, spot, limit, start, arena.offset);
      more := spots + [spot];
    }

    /** The six tables, in the order of the source. */
    method ReserveTables(n: nat, k: nat) returns (ins: Tables, outs: Tables)
      requires arena.Valid() && arena.offset % 64 == 0
      requires arena.offset + TablesSize(n, k) <= arena.capacity
      modifies arena
      ensures arena.Valid() && arena.offset % 64 == 0
      ensures arena.View().arena == old(arena.View().arena).(offset := old(arena.offset) + TablesSize(n, k))
      ensures BothPlaced(ins, n, outs, k, arena.offset)
    {
      var a := Reserve(n, 8, 8);
      var b := Reserve(k, 8, 8);
      var c := Reserve(n, 8, 8);
      var d := Reserve(k, 8, 8);
      var e := Reserve(n, 8, 8);
      var f := Reserve(k, 8, 8);
      ins, outs := Tables(a, c, e), Tables(b, d, f);
    }

    /** Deep-copy names and shapes into the arena, then drop the heap vectors. */
    method MigrateMetadataToArena()
      requires arena.Valid() && arena.offset % 64 == 0
      requires arena.offset + MetadataSize(inputs, outputs) <= arena.capacity
      modifies this, arena, arena.memory
      ensures arena.Valid() && metadataMigrated && inputs == [] && outputs == []
      ensures numInputs == |old(inputs)| && numOutputs == |old(outputs)|
      ensures arena.View().arena
           == old(arena.View().arena).(offset := old(arena.offset + MetadataSize(inputs, outputs)))
      ensures InArena(arena.memory[..], arena.base, inputTables, old(inputs), outputTables, old(outputs),
                      layout, arena.offset)
    {
      var ins, outs, l := MoveToArena(inputs, outputs);
      ghost var m, end := arena.memory[..], arena.offset;
      SwitchOver(ins, outs, l);
      assert arena.memory[..] == m && arena.offset == end;
    }

    /** From here on `run` takes the arena branch; the heap vectors are released. */
    method SwitchOver(ins: Tables, outs: Tables, ghost l: Layout)
      modifies this
      ensures inputTables == ins && outputTables == outs && layout == l && metadataMigrated
      ensures numInputs == |old(inputs)| && numOutputs == |old(outputs)| && inputs == [] && outputs == []
    {
      numInputs, numOutputs := |inputs|, |outputs|;
      inputTables, outputTables, layout := ins, outs, l;
      metadataMigrated := true;
      inputs, outputs := [], [];
    }

    method MoveToArena(inputs: seq<Node>, outputs: seq<Node>) returns (ins: Tables, outs: Tables, ghost l: Layout)
      requires arena.Valid() && arena.offset % 64 == 0
      requires arena.offset + MetadataSize(inputs, outputs) <= arena.capacity
      modifies arena, arena.memory
      ensures arena.Valid()
      ensures arena.View().arena
           == old(arena.View().arena).(offset := old(arena.offset) + MetadataSize(inputs, outputs))
      ensures InArena(arena.memory[..], arena.base, ins, inputs, outs, outputs, l, arena.offset)
    {
      ins, outs := ReserveTables(|inputs|, |outputs|);
      l := CopyBoth(inputs, ins, outputs, outs);
    }

    method CopyBoth(inputs: seq<Node>, ins: Tables, outputs: seq<Node>, outs: Tables) returns (ghost l: Layout)
      requires arena.Valid() && arena.offset % 64 == 0 && BothPlaced(ins, |inputs|, outs, |outputs|, arena.offset)
      requires arena.offset + SideSize(inputs) + SideSize(outputs) <= arena.capacity
      modifies arena, arena.memory
      ensures arena.Valid()
      ensures arena.View().arena
           == old(arena.View().arena).(offset := old(arena.offset) + SideSize(inputs) + SideSize(outputs))
      ensures InArena(arena.memory[..], arena.base, ins, inputs, outs, outputs, l, arena.offset)
    {
      ghost var limit := arena.offset;
      ghost var inSpots := CopySide(inputs, ins, limit);
      ghost var m, middle := arena.memory[..], arena.offset;
      ghost var outSpots := CopySide(outputs, outs, limit);
      SidesTogether(m, arena.memory[..], arena.base, ins, inputs, inSpots, outs, outputs, outSpots,
                    limit, middle, arena.offset);
      l := Layout(limit, inSpots, outSpots);
    }
  }
}
