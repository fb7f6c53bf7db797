/**
 The two rings as objects used by one thread at a time. With nobody else in the ring a call
 needs no second iteration: the position it reads is current and its cell decides.
 */
module RingQueues {
  import opened Core
  import opened RingCells
  import Mpmc
  import MpmcInvariant
  import MpmcTheorems
  import SpscTheorems

  datatype Cell = Cell(sequence: nat, data: Slot)

  /** Cells of a resting MPMC ring: head .. tail - 1 are published, tail .. head + capacity - 1 are free. */
  predicate AtRest(cells: seq<Cell>, head: nat, tail: nat) {
    && |cells| >= 2 && head <= tail <= head + |cells|
    && (forall p: nat :: head <= p < tail ==> Published(cells[CellOf(p, |cells|)], p))
    && (forall p: nat :: tail <= p < head + |cells| ==> cells[CellOf(p, |cells|)] == Cell(p, Vacant))
  }

  predicate Published(cell: Cell, p: nat) {
    cell.sequence == p + 1 && cell.data.Full?
  }

  function Held(cells: seq<Cell>, head: nat, tail: nat): (held: seq<InferenceTask>)
    requires AtRest(cells, head, tail)
    ensures |held| == tail - head
  {
    seq(tail - head, i requires 0 <= i < tail - head =>
      assert Published(cells[CellOf(head + i, |cells|)], head + i); cells[CellOf(head + i, |cells|)].data.task)
  }

  function CellsOf(s: Mpmc.State): seq<Cell>
    requires Mpmc.Shaped(s)
  {
    seq(s.capacity, i requires 0 <= i < s.capacity => Cell(s.sequence[i], s.slots[i]))
  }

  /** A state of the concurrent ring with no half-done operation is a resting ring with the same tasks. */
  lemma QuietIsAtRest(s: Mpmc.State)
    requires MpmcInvariant.Inv(s) && MpmcTheorems.Quiet(s)
    ensures AtRest(CellsOf(s), s.head, s.tail)
    ensures Held(CellsOf(s), s.head, s.tail) == MpmcTheorems.Contents(s)
  {
    var cells, n := CellsOf(s), s.capacity;
    forall p: nat | s.head <= p < s.tail ensures cells[CellOf(p, n)] == Cell(p + 1, Full(s.entries[p].task)) {
      QuietCell(s, p);
    }
    forall p: nat | s.tail <= p < s.head + n ensures cells[CellOf(p, n)] == Cell(p, Vacant) {
      QuietCell(s, p);
    }
    assert AtRest(cells, s.head, s.tail);
    forall i | 0 <= i < s.tail - s.head ensures Held(cells, s.head, s.tail)[i] == MpmcTheorems.Contents(s)[i] {
      assert cells[CellOf(s.head + i, n)] == Cell(s.head + i + 1, Full(s.entries[s.head + i].task));
    }
  }

  lemma QuietCell(s: Mpmc.State, p: nat)
    requires MpmcInvariant.Inv(s) && MpmcTheorems.Quiet(s) && s.head <= p < s.head + s.capacity
    ensures var i := CellOf(p, s.capacity);
            && (p < s.tail ==> s.sequence[i] == p + 1 && s.slots[i] == Full(s.entries[p].task))
            && (p >= s.tail ==> s.sequence[i] == p && s.slots[i] == Vacant)
  {
    var n := s.capacity;
    if p < s.tail {
      MpmcTheorems.QuietPhases(s, p);
      SameCell(p, n);
      assert MpmcInvariant.EntryFits(s, p);
      assert MpmcInvariant.CellFits(s, p + n);
    } else {
      assert MpmcInvariant.CellFits(s, p);
      if p >= n { MpmcTheorems.QuietPhases(s, p - n); }
    }
  }

  lemma PublishOne(cells: seq<Cell>, head: nat, tail: nat, task: InferenceTask)
    requires AtRest(cells, head, tail) && tail < head + |cells|
    ensures var after := cells[CellOf(tail, |cells|) := Cell(tail + 1, Full(task))];
            AtRest(after, head, tail + 1) && Held(after, head, tail + 1) == Held(cells, head, tail) + [task]
  {
    var n := |cells|;
    var after := cells[CellOf(tail, n) := Cell(tail + 1, Full(task))];
    forall p: nat | head <= p < head + n && p != tail ensures after[CellOf(p, n)] == cells[CellOf(p, n)] {
      if p < tail { CellsApart(p, tail, n); } else { CellsApart(tail, p, n); }
    }
  }

  lemma ReleaseOne(cells: seq<Cell>, head: nat, tail: nat)
    requires AtRest(cells, head, tail) && head < tail
    ensures var after := cells[CellOf(head, |cells|) := Cell(head + |cells|, Vacant)];
            AtRest(after, head + 1, tail) && Held(after, head + 1, tail) == Held(cells, head, tail)[1..]
  {
    var n := |cells|;
    var after := cells[CellOf(head, n) := Cell(head + n, Vacant)];
    SameCell(head, n);
    forall p: nat | head < p < head + n ensures after[CellOf(p, n)] == cells[CellOf(p, n)] {
      CellsApart(head, p, n);
    }
  }

  /** One more pop of pop_batch. */
  lemma BatchStep(batch: seq<InferenceTask>, all: seq<InferenceTask>, count: nat, task: InferenceTask,
                  rest: seq<InferenceTask>)
    requires count <= |all| && all[count..] == [task] + rest
    ensures count < |all| && batch + all[..count] + [task] == batch + all[..count + 1] && rest == all[count + 1..]
  {
    assert all[count] == all[count..][0] == task;
    assert all[..count + 1] == all[..count] + [task];
    assert rest == all[count..][1..];
  }

  class MPMCTaskQueue {
    const buffer: array<Cell>
    var head: nat
    var tail: nat
    var stopFlag: bool

    ghost predicate Valid()
      reads this, buffer
    {
      AtRest(buffer[..], head, tail)
    }

    ghost function Contents(): seq<InferenceTask>
      reads this, buffer
      requires Valid()
    {
      Held(buffer[..], head, tail)
    }

    constructor (capacity: nat)
      requires capacity >= 2
      ensures Valid() && fresh(buffer) && buffer.Length == capacity && Contents() == [] && !stopFlag
    {
      buffer := new Cell[capacity](_ => Cell(0, Vacant));
      head, tail, stopFlag := 0, 0, false;
      new;
      for i := 0 to capacity
        invariant forall j :: 0 <= j < i ==> buffer[j] == Cell(j, Vacant)
        invariant forall j :: i <= j < capacity ==> buffer[j] == Cell(0, Vacant)
        invariant head == tail == 0 && !stopFlag
      {
        buffer[i] := Cell(i, buffer[i].data);
      }
      forall p: nat | 0 <= p < capacity ensures buffer[..][CellOf(p, capacity)] == Cell(p, Vacant) {
        SmallCell(p, capacity);
      }
    }

    /** Refused exactly when stopped or full. */
    method Push(task: InferenceTask) returns (accepted: bool)
      requires Valid()
      modifies this`tail, buffer
      ensures Valid()
      ensures accepted <==> !stopFlag && |old(Contents())| < buffer.Length
      ensures Contents() == old(Contents()) + (if accepted then [task] else [])
    {
      if stopFlag { return false; }
      var t := tail;
      var i := CellOf(t, buffer.Length);
      if t == head + buffer.Length { SameCell(head, buffer.Length); }
      ghost var before := buffer[..];
      assert before[i].sequence <= t;
      accepted := buffer[i].sequence == t;
      if accepted {
        PublishOne(before, head, t, task);
        tail := t + 1;
        buffer[i] := Cell(t + 1, Full(task));
        assert buffer[..] == before[i := Cell(t + 1, Full(task))];
      }
    }

    /** Empty-handed exactly when the ring is empty; otherwise the oldest task. */
    method Pop() returns (r: Option<InferenceTask>)
      requires Valid()
      modifies this`head, buffer
      ensures Valid()
      ensures r.None? <==> old(Contents()) == []
      ensures old(Contents()) == (if r.Some? then [r.value] else []) + Contents()
    {
      var h := head;
      var i := CellOf(h, buffer.Length);
      ghost var before := buffer[..];
      assert before[i].sequence <= h + 1;
      if buffer[i].sequence == h + 1 {
        ReleaseOne(before, h, tail);
        head := h + 1;
        r := Some(buffer[i].data.task);
        buffer[i] := Cell(h + buffer.Length, Vacant);
        assert buffer[..] == before[i := Cell(h + buffer.Length, Vacant)];
      } else {
        r := None;
      }
    }

    /** Up to `max` of the oldest tasks, in order. */
    method PopBatch(batch: seq<InferenceTask>, max: nat) returns (taken: seq<InferenceTask>, count: nat)
      requires Valid()
      modifies this`head, buffer
      ensures Valid()
      ensures count == (if max < |old(Contents())| then max else |old(Contents())|)
      ensures taken == batch + old(Contents())[..count] && Contents() == old(Contents())[count..]
    {
      taken, count := batch, 0;
      ghost var all := Contents();
      while count < max
        invariant Valid() && count <= max && count <= |all|
        invariant taken == batch + all[..count] && Contents() == all[count..]
      {
        var task := Pop();
        if task.None? { break; }
        BatchStep(batch, all, count, task.value, Contents());
        taken := taken + [task.value];
        count := count + 1;
      }
    }

    method Size() returns (size: nat)
      requires Valid()
      ensures size == |Contents()|
    {
      size := if tail > head then tail - head else 0;
    }

    method Shutdown()
      modifies this`stopFlag
      ensures stopFlag
    {
      stopFlag := true;
    }
  }

  // ----- the SPSC ring -----

  /** Slots of a resting SPSC ring: the unread positions hold tasks, and at least one slot is unused. */
  predicate Unread(slots: seq<Slot>, head: nat, tail: nat) {
    && |slots| >= 2 && head <= tail < head + |slots|
    && forall p: nat :: head <= p < tail ==> slots[CellOf(p, |slots|)].Full?
  }

  function Stored(slots: seq<Slot>, head: nat, tail: nat): (held: seq<InferenceTask>)
    requires Unread(slots, head, tail)
    ensures |held| == tail - head
  {
    seq(tail - head, i requires 0 <= i < tail - head =>
      assert slots[CellOf(head + i, |slots|)].Full?; slots[CellOf(head + i, |slots|)].task)
  }

  lemma StoreOne(slots: seq<Slot>, head: nat, tail: nat, task: InferenceTask)
    requires Unread(slots, head, tail) && tail + 1 < head + |slots|
    ensures var after := slots[CellOf(tail, |slots|) := Full(task)];
            Unread(after, head, tail + 1) && Stored(after, head, tail + 1) == Stored(slots, head, tail) + [task]
  {
    var after := slots[CellOf(tail, |slots|) := Full(task)];
    forall p: nat | head <= p < tail ensures after[CellOf(p, |slots|)] == slots[CellOf(p, |slots|)] {
      CellsApart(p, tail, |slots|);
    }
  }

  lemma MoveOne(slots: seq<Slot>, head: nat, tail: nat)
    requires Unread(slots, head, tail) && head < tail
    ensures var after := slots[CellOf(head, |slots|) := Vacant];
            Unread(after, head + 1, tail) && Stored(after, head + 1, tail) == Stored(slots, head, tail)[1..]
  {
    var after := slots[CellOf(head, |slots|) := Vacant];
    forall p: nat | head < p < tail ensures after[CellOf(p, |slots|)] == slots[CellOf(p, |slots|)] {
      CellsApart(head, p, |slots|);
    }
  }

  class SPSCTaskQueue {
    const buffer: array<Slot>
    var head: nat
    var tail: nat
    var stopFlag: bool

    ghost predicate Valid()
      reads this, buffer
    {
      Unread(buffer[..], head, tail)
    }

    ghost function Contents(): seq<InferenceTask>
      reads this, buffer
      requires Valid()
    {
      Stored(buffer[..], head, tail)
    }

    constructor (capacity: nat)
      requires capacity >= 2
      ensures Valid() && fresh(buffer) && buffer.Length == capacity && Contents() == [] && !stopFlag
    {
      buffer := new Slot[capacity](_ => Vacant);
      head, tail, stopFlag := 0, 0, false;
    }

    /** Refused exactly when stopped or one short of the number of slots. */
    method Push(task: InferenceTask) returns (accepted: bool)
      requires Valid()
      modifies this`tail, buffer
      ensures Valid()
      ensures accepted <==> !stopFlag && |old(Contents())| < buffer.Length - 1
      ensures Contents() == old(Contents()) + (if accepted then [task] else [])
    {
      if stopFlag { return false; }
      var t, h, n := tail, head, buffer.Length;
      SpscTheorems.FullTest(h, t, n);
      if CellOf(t + 1, n) == CellOf(h, n) { return false; }
      ghost var before := buffer[..];
      StoreOne(before, h, t, task);
      buffer[CellOf(t, n)] := Full(task);
      tail := t + 1;
      assert buffer[..] == before[CellOf(t, n) := Full(task)];
      accepted := true;
    }

    method Pop() returns (r: Option<InferenceTask>)
      requires Valid()
      modifies this`head, buffer
      ensures Valid()
      ensures r.None? <==> old(Contents()) == []
      ensures old(Contents()) == (if r.Some? then [r.value] else []) + Contents()
    {
      var h, i := head, CellOf(head, buffer.Length);
      if h == tail { return None; }
      ghost var before := buffer[..];
      MoveOne(before, h, tail);
      r := Some(buffer[i].task);
      buffer[i] := Vacant;
      head := h + 1;
      assert buffer[..] == before[i := Vacant];
    }

    method PopBatch(batch: seq<InferenceTask>, max: nat) returns (taken: seq<InferenceTask>, count: nat)
      requires Valid()
      modifies this`head, buffer
      ensures Valid()
      ensures count == (if max < |old(Contents())| then max else |old(Contents())|)
      ensures taken == batch + old(Contents())[..count] && Contents() == old(Contents())[count..]
    {
      taken, count := batch, 0;
      ghost var all := Contents();
      while count < max
        invariant Valid() && count <= max && count <= |all|
        invariant taken == batch + all[..count] && Contents() == all[count..]
      {
        var task := Pop();
        if task.None? { break; }
        BatchStep(batch, all, count, task.value, Contents());
        taken := taken + [task.value];
        count := count + 1;
      }
    }

    method Shutdown()
      modifies this`stopFlag
      ensures stopFlag
    {
      stopFlag := true;
    }
  }
}
