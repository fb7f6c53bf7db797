/**
 The model's names and shapes as they lie in the arena after migration: tables of pointers
 and counts, and behind them the strings and the dimension arrays.
 */
module Metadata {
  import opened Core
  import opened Memory

  /** Offsets of the three tables of one side (inputs or outputs). */
  datatype Tables = Tables(names: nat, dims: nat, counts: nat)

  datatype Node = Node(name: seq<byte>, dims: seq<int64>)

  /** Offsets of the string and of the dimensions of one node. */
  datatype Spot = Spot(name: nat, dims: nat)

  /** The tables of one side follow each other and lie below `limit`. */
  predicate TablesPlaced(t: Tables, n: nat, limit: nat) {
    t.names + 8 * n <= t.dims && t.dims + 8 * n <= t.counts && t.counts + 8 * n <= limit
  }

  predicate Holds(m: seq<byte>, o: nat, bytes: seq<byte>) {
    o + |bytes| <= |m| && m[o..o + |bytes|] == bytes
  }

  lemma HoldsKept(m: seq<byte>, r: seq<byte>, o: nat, bytes: seq<byte>)
    requires Holds(m, o, bytes) && Same(m, r, o, o + |bytes|)
    ensures Holds(r, o, bytes)
  {
    SameSlice(m, r, o, o + |bytes|, o, o + |bytes|);
  }

  lemma SpliceKeeps(m: seq<byte>, o: nat, bytes: seq<byte>, p: nat, xs: seq<byte>)
    requires Holds(m, p, xs) && o + |bytes| <= |m| && (p + |xs| <= o || o + |bytes| <= p)
    ensures Holds(Splice(m, o, bytes), p, xs)
  {
    HoldsKept(m, Splice(m, o, bytes), p, xs);
  }

  /** Entry j of the tables leads to the name and the dimensions of the node, between `limit` and `end`. */
  predicate StoredAt(m: seq<byte>, base: nat, t: Tables, j: nat, node: Node, spot: Spot, limit: nat, end: nat) {
    && limit <= spot.name && spot.name + |node.name| + 1 <= end
    && limit <= spot.dims && spot.dims + 8 * |node.dims| <= end <= |m|
    && base + end < TWO_64
    && Holds(m, t.names + 8 * j, Word(base + spot.name))
    && Holds(m, t.dims + 8 * j, Word(base + spot.dims))
    && Holds(m, t.counts + 8 * j, Word(|node.dims|))
    && Holds(m, spot.name, node.name + [0])
    && Holds(m, spot.dims, Words(node.dims))
  }

  predicate SameEntry(m: seq<byte>, r: seq<byte>, t: Tables, j: nat) {
    && Same(m, r, t.names + 8 * j, t.names + 8 * j + 8)
    && Same(m, r, t.dims + 8 * j, t.dims + 8 * j + 8)
    && Same(m, r, t.counts + 8 * j, t.counts + 8 * j + 8)
  }

  /** An entry depends on nothing but its three table slots and the area of strings and arrays. */
  lemma StoredKept(m: seq<byte>, r: seq<byte>, base: nat, t: Tables, j: nat, node: Node, spot: Spot, limit: nat,
                   end: nat, later: nat)
    requires StoredAt(m, base, t, j, node, spot, limit, end) && end <= later <= |m| && base + later < TWO_64
    requires SameEntry(m, r, t, j) && Same(m, r, limit, end)
    ensures StoredAt(r, base, t, j, node, spot, limit, later)
  {
    HoldsKept(m, r, t.names + 8 * j, Word(base + spot.name));
    HoldsKept(m, r, t.dims + 8 * j, Word(base + spot.dims));
    HoldsKept(m, r, t.counts + 8 * j, Word(|node.dims|));
    HoldsKept(m, r, spot.name, node.name + [0]);
    HoldsKept(m, r, spot.dims, Words(node.dims));
  }

  predicate Fits(m: seq<byte>, t: Tables, i: nat, node: Node, spot: Spot, limit: nat, end: nat) {
    && t.names + 8 * i + 8 <= t.dims && t.dims + 8 * i + 8 <= t.counts && t.counts + 8 * i + 8 <= limit <= spot.name
    && spot.name + |node.name| + 1 <= spot.dims && spot.dims + 8 * |node.dims| <= end <= |m|
  }

  // ----- a list of stores -----

  datatype Store = Store(at: nat, bytes: seq<byte>)

  predicate InBounds(size: nat, stores: seq<Store>) {
    forall i :: 0 <= i < |stores| ==> stores[i].at + |stores[i].bytes| <= size
  }

  predicate Apart(a: Store, b: Store) {
    a.at + |a.bytes| <= b.at || b.at + |b.bytes| <= a.at
  }

  predicate AllApart(stores: seq<Store>) {
    forall i, j :: 0 <= i < j < |stores| ==> Apart(stores[i], stores[j])
  }

  function StoreAll(m: seq<byte>, stores: seq<Store>): (r: seq<byte>)
    requires InBounds(|m|, stores)
    ensures |r| == |m|
  {
    if stores == [] then m
    else
      var last := stores[|stores| - 1];
      Splice(StoreAll(m, stores[..|stores| - 1]), last.at, last.bytes)
  }

  lemma StoreAllStep(m: seq<byte>, stores: seq<Store>, k: nat)
    requires InBounds(|m|, stores) && k < |stores|
    ensures StoreAll(m, stores[..k + 1]) == Splice(StoreAll(m, stores[..k]), stores[k].at, stores[k].bytes)
  {
    var shorter := stores[..k + 1];
    assert shorter[..|shorter| - 1] == stores[..k] && shorter[|shorter| - 1] == stores[k];
  }

  lemma {:induction false} StoreAllHolds(m: seq<byte>, stores: seq<Store>, i: nat)
    requires InBounds(|m|, stores) && AllApart(stores) && i < |stores|
    ensures Holds(StoreAll(m, stores), stores[i].at, stores[i].bytes)
  {
    var n := |stores| - 1;
    if i < n {
      StoreAllHolds(m, stores[..n], i);
      assert Apart(stores[i], stores[n]);
      SpliceKeeps(StoreAll(m, stores[..n]), stores[n].at, stores[n].bytes, stores[i].at, stores[i].bytes);
    }
  }

  predicate Untouched(stores: seq<Store>, k: nat) {
    forall i :: 0 <= i < |stores| ==> !(stores[i].at <= k < stores[i].at + |stores[i].bytes|)
  }

  lemma {:induction false} StoreAllFrame(m: seq<byte>, stores: seq<Store>, k: nat)
    requires InBounds(|m|, stores) && k < |m| && Untouched(stores, k)
    ensures StoreAll(m, stores)[k] == m[k]
  {
    if stores != [] {
      StoreAllFrame(m, stores[..|stores| - 1], k);
    }
  }

  // ----- one iteration of the migration loop -----

  /** The five stores of one iteration: the string, its pointer, the dimensions, their pointer and their count. */
  function NodeStores(base: nat, t: Tables, i: nat, node: Node, spot: Spot): (stores: seq<Store>)
    ensures |stores| == 5
  {
    [Store(spot.name, node.name + [0]), Store(t.names + 8 * i, Word(base + spot.name)),
     Store(spot.dims, Words(node.dims)), Store(t.dims + 8 * i, Word(base + spot.dims)),
     Store(t.counts + 8 * i, Word(|node.dims|))]
  }

  lemma NodeStoresApart(m: seq<byte>, base: nat, t: Tables, i: nat, node: Node, spot: Spot, limit: nat, end: nat)
    requires Fits(m, t, i, node, spot, limit, end)
    ensures InBounds(|m|, NodeStores(base, t, i, node, spot)) && AllApart(NodeStores(base, t, i, node, spot))
  {
  }

  function StoreNode(m: seq<byte>, base: nat, t: Tables, i: nat, node: Node, spot: Spot, limit: nat,
                     end: nat): (r: seq<byte>)
    requires Fits(m, t, i, node, spot, limit, end)
    ensures |r| == |m|
  {
    NodeStoresApart(m, base, t, i, node, spot, limit, end);
    StoreAll(m, NodeStores(base, t, i, node, spot))
  }

  predicate OutsideEntry(t: Tables, i: nat, k: nat) {
    && !(t.names + 8 * i <= k < t.names + 8 * i + 8)
    && !(t.dims + 8 * i <= k < t.dims + 8 * i + 8)
    && !(t.counts + 8 * i <= k < t.counts + 8 * i + 8)
  }

  lemma StoreNodeFrame(m: seq<byte>, base: nat, t: Tables, i: nat, node: Node, spot: Spot, limit: nat, end: nat, k: nat)
    requires Fits(m, t, i, node, spot, limit, end)
    requires k < |m| && OutsideEntry(t, i, k) && !(spot.name <= k < end)
    ensures StoreNode(m, base, t, i, node, spot, limit, end)[k] == m[k]
  {
    NodeStoresApart(m, base, t, i, node, spot, limit, end);
    StoreAllFrame(m, NodeStores(base, t, i, node, spot), k);
  }

  lemma StoreNodeStores(m: seq<byte>, base: nat, t: Tables, i: nat, node: Node, spot: Spot, limit: nat, end: nat)
    requires Fits(m, t, i, node, spot, limit, end) && base + end < TWO_64
    ensures StoredAt(StoreNode(m, base, t, i, node, spot, limit, end), base, t, i, node, spot, limit, end)
  {
    var stores := NodeStores(base, t, i, node, spot);
    NodeStoresApart(m, base, t, i, node, spot, limit, end);
    forall k | 0 <= k < 5 ensures Holds(StoreAll(m, stores), stores[k].at, stores[k].bytes) {
      StoreAllHolds(m, stores, k);
    }
    assert stores[0].at == spot.name && stores[1].at == t.names + 8 * i && stores[2].at == spot.dims;
    assert stores[3].at == t.dims + 8 * i && stores[4].at == t.counts + 8 * i;
  }

  predicate StoredAll(m: seq<byte>, base: nat, t: Tables, nodes: seq<Node>, spots: seq<Spot>, limit: nat, end: nat) {
    |spots| == |nodes| && forall j :: 0 <= j < |nodes| ==> StoredAt(m, base, t, j, nodes[j], spots[j], limit, end)
  }

  /** One more iteration: the entries stored so far stay, and entry i joins them. */
  lemma StoreNodeExtends(m: seq<byte>, base: nat, t: Tables, nodes: seq<Node>, spots: seq<Spot>, node: Node,
                         spot: Spot, n: nat, limit: nat, end: nat)
    requires |nodes| < n && TablesPlaced(t, n, limit)
    requires Fits(m, t, |nodes|, node, spot, limit, end) && base + end < TWO_64
    requires StoredAll(m, base, t, nodes, spots, limit, spot.name)
    ensures StoredAll(StoreNode(m, base, t, |nodes|, node, spot, limit, end), base, t,
                      nodes + [node], spots + [spot], limit, end)
  {
    var i := |nodes|;
    var r := StoreNode(m, base, t, i, node, spot, limit, end);
    StoreNodeStores(m, base, t, i, node, spot, limit, end);
    forall j | 0 <= j < i ensures StoredAt(r, base, t, j, nodes[j], spots[j], limit, end) {
      StoreNodeLeaves(m, base, t, i, node, spot, n, limit, end, j);
      StoredKept(m, r, base, t, j, nodes[j], spots[j], limit, spot.name, end);
    }
  }

  lemma StoreNodeLeaves(m: seq<byte>, base: nat, t: Tables, i: nat, node: Node, spot: Spot, n: nat, limit: nat,
                        end: nat, j: nat)
    requires j < i < n && TablesPlaced(t, n, limit) && Fits(m, t, i, node, spot, limit, end)
    ensures var r := StoreNode(m, base, t, i, node, spot, limit, end);
            SameEntry(m, r, t, j) && Same(m, r, limit, spot.name)
  {
    var r := StoreNode(m, base, t, i, node, spot, limit, end);
    forall k | 0 <= k < |m| && OutsideEntry(t, i, k) && !(spot.name <= k < end) ensures r[k] == m[k] {
      StoreNodeFrame(m, base, t, i, node, spot, limit, end, k);
    }
  }

  /** The entries of one side survive any change outside its tables and its area. */
  lemma StoredAllKept(m: seq<byte>, r: seq<byte>, base: nat, t: Tables, nodes: seq<Node>, spots: seq<Spot>,
                      limit: nat, end: nat)
    requires StoredAll(m, base, t, nodes, spots, limit, end) && |m| == |r|
    requires forall j :: 0 <= j < |nodes| ==> SameEntry(m, r, t, j)
    requires Same(m, r, limit, end)
    ensures StoredAll(r, base, t, nodes, spots, limit, end)
  {
    forall j | 0 <= j < |nodes| ensures StoredAt(r, base, t, j, nodes[j], spots[j], limit, end) {
      StoredKept(m, r, base, t, j, nodes[j], spots[j], limit, end, end);
    }
  }

  // ----- reading back -----

  /** What `run` reads through the arena for entry j: the C string and the counted array. */
  function ReadNode(m: seq<byte>, base: nat, t: Tables, j: nat): Option<Node> {
    if t.names + 8 * j + 8 <= |m| && t.dims + 8 * j + 8 <= |m| && t.counts + 8 * j + 8 <= |m| then
      var name, dims, count := ReadWord(m, t.names + 8 * j), ReadWord(m, t.dims + 8 * j), ReadWord(m, t.counts + 8 * j);
      if base <= name && base <= dims && dims - base + 8 * count <= |m|
      then Some(Node(CString(m, name - base), ReadWords(m, dims - base, count)))
      else None
    else None
  }

  /** The three words of an entry lead to the string and the array they name. */
  lemma EntryIsRead(m: seq<byte>, base: nat, t: Tables, j: nat, name: nat, dims: nat, count: nat)
    requires t.names + 8 * j + 8 <= |m| && t.dims + 8 * j + 8 <= |m| && t.counts + 8 * j + 8 <= |m|
    requires ReadWord(m, t.names + 8 * j) == base + name && ReadWord(m, t.dims + 8 * j) == base + dims
    requires ReadWord(m, t.counts + 8 * j) == count && dims + 8 * count <= |m|
    ensures ReadNode(m, base, t, j) == Some(Node(CString(m, name), ReadWords(m, dims, count)))
  {
  }

  lemma WordIsRead(m: seq<byte>, o: nat, v: nat)
    requires Holds(m, o, Word(v)) && v < TWO_64
    ensures o + 8 <= |m| && ReadWord(m, o) == v
  {
    WordRoundTrip(m, o, v);
  }

  /** Reading through the tables gives back the name and the dimensions that were migrated. */
  lemma StoredIsRead(m: seq<byte>, base: nat, t: Tables, j: nat, node: Node, spot: Spot, limit: nat, end: nat)
    requires StoredAt(m, base, t, j, node, spot, limit, end) && Printable(node.name)
    ensures ReadNode(m, base, t, j) == Some(node)
  {
    WordIsRead(m, t.names + 8 * j, base + spot.name);
    WordIsRead(m, t.dims + 8 * j, base + spot.dims);
    WordIsRead(m, t.counts + 8 * j, |node.dims|);
    EntryIsRead(m, base, t, j, spot.name, spot.dims, |node.dims|);
    CStringRoundTrip(m, spot.name, node.name);
    WordsRoundTrip(m, spot.dims, node.dims);
  }
}
