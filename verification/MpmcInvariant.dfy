/**
 The invariant of the MPMC ring and the proof that every step keeps it.

 The cell that position q will use next was last used by position q - capacity. Its
 sequence number tells how far that earlier position has come, and nothing else does.
 */
module MpmcInvariant {
  import opened Core
  import opened RingCells
  import opened Mpmc

  predicate HoldingForWrite(pc: Pc) {
    pc.PushWrite? || pc.PushWriting? || pc.PushPublish?
  }

  predicate HoldingForRead(pc: Pc) {
    pc.PopMove? || pc.PopMoving? || pc.PopRelease?
  }

  /** Between a successful compare-exchange and the matching sequence store. */
  predicate Holding(pc: Pc) {
    HoldingForWrite(pc) || HoldingForRead(pc)
  }

  function HeldPosition(pc: Pc): nat
    requires Holding(pc)
  {
    if HoldingForWrite(pc) then pc.t else pc.h
  }

  /** The sequence number of the cell that position q uses next. */
  function Stamp(s: State, q: nat): nat
    requires |s.entries| == s.tail && q < s.tail + s.capacity
  {
    if q < s.capacity then q
    else match s.entries[q - s.capacity].phase
      case Claimed(_) => q - s.capacity
      case Published => q - s.capacity + 1
      case Taking(_) => q - s.capacity + 1
      case Released(_) => q
  }

  predicate HolderKnown(s: State, phase: Phase, p: nat) {
    match phase
    case Claimed(tid) => tid in s.threads && HoldingForWrite(s.threads[tid]) && s.threads[tid].t == p
    case Taking(tid) => tid in s.threads && HoldingForRead(s.threads[tid]) && s.threads[tid].h == p
    case _ => true
  }

  /** The data of the cell of position p, by the phase of p and its holder's program counter. */
  predicate SlotFits(s: State, e: Entry, p: nat, slot: Slot) {
    HolderKnown(s, e.phase, p) &&
    match e.phase
    case Claimed(tid) =>
      (match s.threads[tid]
       case PushWrite(_, _) => slot == Vacant
       case PushWriting(_, _) => slot == Torn
       case _ => slot == Full(e.task))
    case Published => slot == Full(e.task)
    case Taking(tid) =>
      (match s.threads[tid]
       case PopMove(_) => slot == Full(e.task)
       case PopMoving(_, _) => slot == Torn
       case _ => slot == Vacant)
    case Released(got) => slot == Vacant
  }

  predicate CellFits(s: State, q: nat)
    requires Shaped(s) && |s.entries| == s.tail && q < s.tail + s.capacity
  {
    var i := CellOf(q, s.capacity);
    && s.sequence[i] == Stamp(s, q)
    && if q < s.capacity then s.slots[i] == Vacant
       else SlotFits(s, s.entries[q - s.capacity], q - s.capacity, s.slots[i])
  }

  /** Every cell, named by the position that uses it next. */
  predicate Cells(s: State)
    requires Shaped(s) && |s.entries| == s.tail
  {
    forall q: nat :: s.tail <= q < s.tail + s.capacity ==> CellFits(s, q)
  }

  predicate EntryFits(s: State, p: nat)
    requires p < |s.entries|
  {
    var e := s.entries[p];
    && HolderKnown(s, e.phase, p)
    && (p < s.head <==> e.phase.Taking? || e.phase.Released?)
    && (p + s.capacity < s.tail ==> e.phase.Released?)
    && (e.phase.Released? ==> e.phase.got == Full(e.task))
  }

  predicate Entries(s: State) {
    forall p: nat :: p < |s.entries| ==> EntryFits(s, p)
  }

  predicate ThreadFits(s: State, tid: nat)
    requires Shaped(s) && |s.entries| == s.tail && tid in s.threads
  {
    match s.threads[tid]
    case PushLoadSequence(_, t) => t <= s.tail
    case PushCas(_, t) => t <= s.tail && (t == s.tail ==> s.sequence[CellOf(t, s.capacity)] == t)
    case PushWrite(task, t) => t < s.tail && s.entries[t] == Entry(task, Claimed(tid))
    case PushWriting(task, t) => t < s.tail && s.entries[t] == Entry(task, Claimed(tid))
    case PushPublish(task, t) => t < s.tail && s.entries[t] == Entry(task, Claimed(tid))
    case PopLoadSequence(h) => h <= s.head
    case PopCas(h) => h <= s.head && (h == s.head ==> s.sequence[CellOf(h, s.capacity)] == h + 1)
    case PopMove(h) => h < s.tail && s.entries[h].phase == Taking(tid)
    case PopMoving(h, got) => h < s.tail && s.entries[h].phase == Taking(tid) && got == Full(s.entries[h].task)
    case PopRelease(h, got) => h < s.tail && s.entries[h].phase == Taking(tid) && got == Full(s.entries[h].task)
    case _ => true
  }

  predicate Threads(s: State)
    requires Shaped(s) && |s.entries| == s.tail
  {
    forall tid :: tid in s.threads ==> ThreadFits(s, tid)
  }

  predicate Inv(s: State) {
    && Shaped(s)
    && |s.entries| == s.tail
    && s.head <= s.tail <= s.head + s.capacity
    && Cells(s)
    && Entries(s)
    && Threads(s)
  }

  // ----- the cell of a position -----

  /** The next user, at or after `tail`, of the cell of position t. */
  lemma {:induction false} NextUser(t: nat, tail: nat, n: nat) returns (q: nat)
    requires n > 0 && t <= tail
    ensures tail <= q < tail + n && CellOf(q, n) == CellOf(t, n)
    ensures t == tail ==> q == t
    ensures t < tail ==> q >= t + n
    decreases tail - t
  {
    if t == tail {
      q := t;
    } else if t + n >= tail {
      SameCell(t, n);
      q := t + n;
    } else {
      SameCell(t, n);
      q := NextUser(t + n, tail, n);
    }
  }

  // ----- every step keeps the invariant -----

  lemma InitInv(n: nat)
    requires n >= 2
    ensures Inv(Init(n))
  {
    var s := Init(n);
    forall q: nat | s.tail <= q < s.tail + s.capacity ensures CellFits(s, q) {
      SmallCell(q, n);
    }
  }

  /** A step that only moves one thread between program points that hold no position. */
  lemma LocalStep(s: State, tid: nat, pc: Pc)
    requires Inv(s)
    requires tid in s.threads ==> !Holding(s.threads[tid])
    requires !Holding(pc)
    requires ThreadFits(Goto(s, tid, pc), tid)
    ensures Inv(Goto(s, tid, pc))
  {
    var r := Goto(s, tid, pc);
    forall p: nat | p < |s.entries| ensures EntryFits(r, p) {
      assert EntryFits(s, p);
    }
    forall q: nat | r.tail <= q < r.tail + r.capacity ensures CellFits(r, q) {
      assert CellFits(s, q);
    }
    forall other | other in r.threads ensures ThreadFits(r, other) {
      if other != tid { assert ThreadFits(s, other); }
    }
  }

  lemma CasPush(s: State, tid: nat)
    requires Inv(s) && tid in s.threads && s.threads[tid].PushCas? && s.threads[tid].t == s.tail
    ensures Inv(AdvancePush(s, tid, false))
  {
    var r, t, n := AdvancePush(s, tid, false), s.tail, s.capacity;
    assert ThreadFits(s, tid);
    assert CellFits(s, t);
    CasPushEntries(s, tid);
    forall q: nat | r.tail <= q < r.tail + n ensures CellFits(r, q) {
      CasPushCell(s, tid, q);
    }
    forall other | other in r.threads ensures ThreadFits(r, other) {
      CasPushThread(s, tid, other);
    }
  }

  lemma CasPushEntries(s: State, tid: nat)
    requires Inv(s) && tid in s.threads && s.threads[tid].PushCas? && s.threads[tid].t == s.tail
    ensures Entries(AdvancePush(s, tid, false)) && s.tail + 1 <= s.head + s.capacity
  {
    var r, t, n := AdvancePush(s, tid, false), s.tail, s.capacity;
    assert ThreadFits(s, tid);
    assert CellFits(s, t);
    forall p: nat | p < |r.entries| ensures EntryFits(r, p) {
      if p < t { assert EntryFits(s, p); }
    }
    if t >= n { assert EntryFits(s, t - n); }
  }

  lemma CasPushCell(s: State, tid: nat, q: nat)
    requires Inv(s) && tid in s.threads && s.threads[tid].PushCas? && s.threads[tid].t == s.tail
    requires s.tail + 1 <= q < s.tail + 1 + s.capacity
    ensures CellFits(AdvancePush(s, tid, false), q)
  {
    if q == s.tail + s.capacity {
      CasPushOwnCell(s, tid);
    } else {
      assert CellFits(s, q);
    }
  }

  lemma CasPushOwnCell(s: State, tid: nat)
    requires Inv(s) && tid in s.threads && s.threads[tid].PushCas? && s.threads[tid].t == s.tail
    ensures CellFits(AdvancePush(s, tid, false), s.tail + s.capacity)
  {
    assert ThreadFits(s, tid);
    SameCell(s.tail, s.capacity);
    assert CellFits(s, s.tail);
    if s.tail >= s.capacity { assert EntryFits(s, s.tail - s.capacity); }
  }

  lemma CasPushThread(s: State, tid: nat, other: nat)
    requires Inv(s) && tid in s.threads && s.threads[tid].PushCas? && s.threads[tid].t == s.tail
    requires other in s.threads
    ensures ThreadFits(AdvancePush(s, tid, false), other)
  {
    assert ThreadFits(s, other);
  }

  /** A held position lies in the last lap, so two held positions never share a cell. */
  lemma HeldCellsApart(s: State, p: nat, q: nat)
    requires Inv(s) && p < s.tail && !s.entries[p].phase.Released?
    requires s.tail <= q < s.tail + s.capacity && q != p + s.capacity
    ensures p + s.capacity >= s.tail
    ensures CellOf(q, s.capacity) != CellOf(p, s.capacity)
  {
    var n := s.capacity;
    assert EntryFits(s, p);
    SameCell(p, n);
    if q < p + n {
      CellsApart(q, p + n, n);
    } else {
      CellsApart(p + n, q, n);
    }
  }

  function TouchSlot(s: State, tid: nat, pc: Pc, slot: Slot): State
    requires Shaped(s) && Holding(pc)
  {
    Goto(s.(slots := s.slots[CellOf(HeldPosition(pc), s.capacity) := slot]), tid, pc)
  }

  predicate CanTouch(s: State, tid: nat, pc: Pc, slot: Slot) {
    && Inv(s) && tid in s.threads && Holding(s.threads[tid]) && Holding(pc)
    && HeldPosition(pc) == HeldPosition(s.threads[tid]) < s.tail
    && (HoldingForWrite(pc) <==> HoldingForWrite(s.threads[tid]))
    && SlotFits(TouchSlot(s, tid, pc, slot), s.entries[HeldPosition(pc)], HeldPosition(pc), slot)
    && ThreadFits(TouchSlot(s, tid, pc, slot), tid)
  }

  /** The holder of a position works on the data of its cell. */
  lemma HolderStep(s: State, tid: nat, pc: Pc, slot: Slot)
    requires CanTouch(s, tid, pc, slot)
    ensures Inv(TouchSlot(s, tid, pc, slot))
  {
    var r := TouchSlot(s, tid, pc, slot);
    forall q: nat | r.tail <= q < r.tail + r.capacity ensures CellFits(r, q) {
      HolderCell(s, tid, pc, slot, q);
    }
    forall q: nat | q < |r.entries| ensures EntryFits(r, q) {
      assert EntryFits(s, q);
    }
    forall other | other in r.threads ensures ThreadFits(r, other) {
      assert ThreadFits(s, other);
    }
  }

  lemma HolderCell(s: State, tid: nat, pc: Pc, slot: Slot, q: nat)
    requires CanTouch(s, tid, pc, slot) && s.tail <= q < s.tail + s.capacity
    ensures CellFits(TouchSlot(s, tid, pc, slot), q)
  {
    var p, n := HeldPosition(pc), s.capacity;
    assert ThreadFits(s, tid);
    assert CellFits(s, q);
    if q == p + n {
      SameCell(p, n);
    } else {
      HeldCellsApart(s, p, q);
    }
  }

  lemma Publish(s: State, tid: nat)
    requires Inv(s) && tid in s.threads && s.threads[tid].PushPublish?
    ensures Inv(AdvancePush(s, tid, false))
  {
    var r := AdvancePush(s, tid, false);
    assert ThreadFits(s, tid);
    forall q: nat | r.tail <= q < r.tail + r.capacity ensures CellFits(r, q) {
      PublishCell(s, tid, q);
    }
    forall q: nat | q < |r.entries| ensures EntryFits(r, q) {
      assert EntryFits(s, q);
    }
    forall other | other in r.threads ensures ThreadFits(r, other) {
      if other != tid { PublishOther(s, tid, other); }
    }
  }

  lemma PublishCell(s: State, tid: nat, q: nat)
    requires Inv(s) && tid in s.threads && s.threads[tid].PushPublish?
    requires s.tail <= q < s.tail + s.capacity
    ensures CellFits(AdvancePush(s, tid, false), q)
  {
    var p, n := s.threads[tid].t, s.capacity;
    assert ThreadFits(s, tid);
    assert CellFits(s, q);
    if q == p + n {
      SameCell(p, n);
    } else {
      HeldCellsApart(s, p, q);
    }
  }

  lemma PublishOther(s: State, tid: nat, other: nat)
    requires Inv(s) && tid in s.threads && s.threads[tid].PushPublish?
    requires other in s.threads && other != tid
    ensures ThreadFits(AdvancePush(s, tid, false), other)
  {
    var p, n := s.threads[tid].t, s.capacity;
    assert ThreadFits(s, tid);
    assert ThreadFits(s, other);
    SameCell(p, n);
    assert EntryFits(s, p);
    assert CellFits(s, p + n);
    if s.threads[other].PopCas? && CellOf(s.head, n) == CellOf(p, n) {
      CellsApart(s.head, s.head + 1, n);
    }
  }

  lemma CasPop(s: State, tid: nat)
    requires Inv(s) && tid in s.threads && s.threads[tid].PopCas? && s.threads[tid].h == s.head
    ensures Inv(AdvancePop(s, tid, false))
  {
    var r, h, n := AdvancePop(s, tid, false), s.head, s.capacity;
    assert ThreadFits(s, tid);
    HeadPublished(s);
    forall q: nat | r.tail <= q < r.tail + n ensures CellFits(r, q) {
      CasPopCell(s, tid, q);
    }
    forall q: nat | q < |r.entries| ensures EntryFits(r, q) {
      assert EntryFits(s, q);
    }
    forall other | other in r.threads ensures ThreadFits(r, other) {
      CasPopThread(s, tid, other);
    }
  }

  lemma CasPopCell(s: State, tid: nat, q: nat)
    requires Inv(s) && tid in s.threads && s.threads[tid].PopCas? && s.threads[tid].h == s.head
    requires s.tail <= q < s.tail + s.capacity
    ensures CellFits(AdvancePop(s, tid, false), q)
  {
    assert ThreadFits(s, tid);
    HeadPublished(s);
    assert CellFits(s, q);
  }

  lemma CasPopThread(s: State, tid: nat, other: nat)
    requires Inv(s) && tid in s.threads && s.threads[tid].PopCas? && s.threads[tid].h == s.head
    requires other in s.threads
    ensures ThreadFits(AdvancePop(s, tid, false), other)
  {
    assert ThreadFits(s, tid);
    HeadPublished(s);
    assert ThreadFits(s, other);
  }

  /** Position head is published exactly when its cell carries head + 1. */
  lemma HeadPublished(s: State)
    requires Inv(s)
    ensures s.sequence[CellOf(s.head, s.capacity)] <= s.head + 1
    ensures s.sequence[CellOf(s.head, s.capacity)] == s.head + 1
       <==> s.head < s.tail && s.entries[s.head].phase.Published?
  {
    var h, n := s.head, s.capacity;
    if h < s.tail {
      assert EntryFits(s, h);
      SameCell(h, n);
      assert CellFits(s, h + n);
    } else {
      assert CellFits(s, h);
    }
  }

  lemma Release(s: State, tid: nat)
    requires Inv(s) && tid in s.threads && s.threads[tid].PopRelease?
    ensures Inv(AdvancePop(s, tid, false))
  {
    var r := AdvancePop(s, tid, false);
    assert ThreadFits(s, tid);
    forall q: nat | r.tail <= q < r.tail + r.capacity ensures CellFits(r, q) {
      ReleaseCell(s, tid, q);
    }
    forall q: nat | q < |r.entries| ensures EntryFits(r, q) {
      assert EntryFits(s, q);
    }
    forall other | other in r.threads ensures ThreadFits(r, other) {
      if other != tid { ReleaseOther(s, tid, other); }
    }
  }

  lemma ReleaseCell(s: State, tid: nat, q: nat)
    requires Inv(s) && tid in s.threads && s.threads[tid].PopRelease?
    requires s.tail <= q < s.tail + s.capacity
    ensures CellFits(AdvancePop(s, tid, false), q)
  {
    var p, n := s.threads[tid].h, s.capacity;
    assert ThreadFits(s, tid);
    assert CellFits(s, q);
    if q == p + n {
      SameCell(p, n);
    } else {
      HeldCellsApart(s, p, q);
    }
  }

  lemma ReleaseOther(s: State, tid: nat, other: nat)
    requires Inv(s) && tid in s.threads && s.threads[tid].PopRelease?
    requires other in s.threads && other != tid
    ensures ThreadFits(AdvancePop(s, tid, false), other)
  {
    var p, n := s.threads[tid].h, s.capacity;
    assert ThreadFits(s, tid);
    assert ThreadFits(s, other);
    SameCell(p, n);
    assert EntryFits(s, p);
    assert CellFits(s, p + n);
    if s.threads[other].PushCas? && CellOf(s.tail, n) == CellOf(p, n) {
      CellsApart(p, p + 1, n);
    }
  }

  lemma PushStep(s: State, tid: nat, spurious: bool)
    requires Inv(s) && tid in s.threads && InPush(s.threads[tid])
    ensures Inv(AdvancePush(s, tid, spurious))
  {
    assert ThreadFits(s, tid);
    var pc := s.threads[tid];
    if pc.PushWrite? {
      HolderStep(s, tid, PushWriting(pc.task, pc.t), Torn);
    } else if pc.PushWriting? {
      HolderStep(s, tid, PushPublish(pc.task, pc.t), Full(pc.task));
    } else if pc.PushPublish? {
      Publish(s, tid);
    } else if pc.PushCas? && pc.t == s.tail && !spurious {
      CasPush(s, tid);
    } else {
      LocalStep(s, tid, AdvancePush(s, tid, spurious).threads[tid]);
    }
  }

  lemma PopStep(s: State, tid: nat, spurious: bool)
    requires Inv(s) && !Free(s, tid) && !InPush(s.threads[tid])
    ensures Inv(AdvancePop(s, tid, spurious))
  {
    assert ThreadFits(s, tid);
    var pc := s.threads[tid];
    if pc.PopMove? {
      MoveStep(s, tid);
    } else if pc.PopMoving? {
      HolderStep(s, tid, PopRelease(pc.h, pc.got), Vacant);
    } else if pc.PopRelease? {
      Release(s, tid);
    } else if pc.PopCas? && pc.h == s.head && !spurious {
      CasPop(s, tid);
    } else {
      LocalStep(s, tid, AdvancePop(s, tid, spurious).threads[tid]);
    }
  }

  lemma MoveStep(s: State, tid: nat)
    requires Inv(s) && tid in s.threads && s.threads[tid].PopMove?
    ensures s.slots[CellOf(s.threads[tid].h, s.capacity)] == Full(s.entries[s.threads[tid].h].task)
    ensures Inv(AdvancePop(s, tid, false))
  {
    var h := s.threads[tid].h;
    assert ThreadFits(s, tid);
    assert EntryFits(s, h);
    SameCell(h, s.capacity);
    assert CellFits(s, h + s.capacity);
    HolderStep(s, tid, PopMoving(h, s.slots[CellOf(h, s.capacity)]), Torn);
  }

  /** Every step of every thread keeps the invariant. */
  lemma StepKeepsInv(s: State, a: Action)
    requires Inv(s) && Enabled(s, a)
    ensures Inv(Apply(s, a))
  {
    match a
    case BeginPush(tid, task) => LocalStep(s, tid, PushCheckStop(task));
    case BeginPop(tid) => LocalStep(s, tid, PopLoadHead);
    case Step(tid, spurious) =>
      if InPush(s.threads[tid]) { PushStep(s, tid, spurious); } else { PopStep(s, tid, spurious); }
    case Shutdown =>
      var r := s.(stopped := true);
      forall q: nat | r.tail <= q < r.tail + r.capacity ensures CellFits(r, q) {
        assert CellFits(s, q);
      }
      forall p: nat | p < |r.entries| ensures EntryFits(r, p) {
        assert EntryFits(s, p);
      }
      forall tid | tid in r.threads ensures ThreadFits(r, tid) {
        assert ThreadFits(s, tid);
      }
  }

  /** So it holds after every run, whatever the interleaving. */
  lemma {:induction false} RunKeepsInv(s: State, actions: seq<Action>)
    requires Inv(s) && Run(s, actions).Some?
    ensures Inv(Run(s, actions).value)
  {
    if actions != [] {
      RunKeepsInv(s, actions[..|actions| - 1]);
      StepKeepsInv(Run(s, actions[..|actions| - 1]).value, actions[|actions| - 1]);
    }
  }
}
