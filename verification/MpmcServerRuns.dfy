/**
 Building runs of the server with the MPMC ring: one thread runs its call alone while the
 others stand still, and what that does to the coarse system.
 */
module MpmcServerRuns {
  import opened Core
  import opened Session
  import opened Server
  import opened QueueUse
  import opened MpmcServer
  import RingCells
  import Mpmc
  import MpmcInvariant
  import MpmcTheorems
  import MpmcSolo
  import System

  /** Results carry what the engine answers to their request. */
  predicate StepAnswers(j: Joint, a: Action, answer: nat -> seq<byte>) {
    a.Worker? && a.act.RunTask? ==>
      && a.act.w < |j.system.workers|
      && var worker := j.system.workers[a.act.w];
         worker.next < |worker.batch| && a.act.response == answer(worker.batch[worker.next].requestId)
  }

  predicate Answering(j: Joint, actions: seq<Action>, answer: nat -> seq<byte>) {
    actions != [] ==>
      var before := actions[..|actions| - 1];
      && Answering(j, before, answer)
      && (Run(j, before).Some? ==> StepAnswers(Run(j, before).value, actions[|actions| - 1], answer))
  }

  /** The run leads from `start` to j, and the engine answers as given. */
  predicate Leads(start: Joint, actions: seq<Action>, j: Joint, answer: nat -> seq<byte>) {
    Run(start, actions) == Some(j) && Answering(start, actions, answer)
  }

  lemma Extend(start: Joint, actions: seq<Action>, j: Joint, a: Action, answer: nat -> seq<byte>)
    returns (longer: seq<Action>)
    requires Leads(start, actions, j, answer) && Enabled(j, a) && StepAnswers(j, a, answer)
    ensures Leads(start, longer, Apply(j, a), answer)
  {
    longer := actions + [a];
    assert longer[..|longer| - 1] == actions;
  }

  /** Thread `tid` makes one step, or none when it is in no call. */
  function Alone(j: Joint, tid: nat): Joint {
    if Enabled(j, StepRing(tid, false)) then Apply(j, StepRing(tid, false)) else j
  }

  lemma AloneLinked(j: Joint, tid: nat)
    requires Linked(j) && tid in j.ring.threads
    ensures var r := Alone(j, tid);
            && Linked(r) && tid in r.ring.threads && MpmcSolo.Framed(j.ring, r.ring, tid)
            && r.ring == (if Mpmc.Free(j.ring, tid) then j.ring else Mpmc.Apply(j.ring, Mpmc.Step(tid, false)))
  {
    var ring := MpmcSolo.StepFramed(j.ring, tid);
    if !Mpmc.Free(j.ring, tid) {
      StepKeepsLink(j, StepRing(tid, false));
    }
  }

  lemma ExtendOne(start: Joint, actions: seq<Action>, j: Joint, tid: nat, answer: nat -> seq<byte>)
    returns (longer: seq<Action>)
    requires Leads(start, actions, j, answer)
    ensures Leads(start, longer, Alone(j, tid), answer)
  {
    longer := actions;
    if Enabled(j, StepRing(tid, false)) {
      longer := Extend(start, actions, j, StepRing(tid, false), answer);
    }
  }

  /** One step of a solo run, on both sides. */
  lemma StepAlone(start: Joint, actions: seq<Action>, j: Joint, s: Mpmc.State, tid: nat, k: nat,
                  answer: nat -> seq<byte>)
    returns (longer: seq<Action>, r: Joint)
    requires Leads(start, actions, j, answer) && Linked(j) && tid in j.ring.threads
    requires Mpmc.Shaped(s) && tid in s.threads && j.ring == MpmcTheorems.Solo(s, tid, k)
    ensures Leads(start, longer, r, answer) && Linked(r) && tid in r.ring.threads && r == Alone(j, tid)
    ensures r.ring == MpmcTheorems.Solo(s, tid, k + 1)
  {
    AloneLinked(j, tid);
    longer := ExtendOne(start, actions, j, tid, answer);
    r := Alone(j, tid);
  }

  // ----- a push that runs alone -----

  /** From j, where push has begun, to r: nothing yet, or the visit with the answer of push. */
  predicate PushCourse(j: Joint, r: Joint) {
    && j.pushing.Some? && 0 in r.ring.threads
    && var pc := r.ring.threads[0];
       if r.pushing.Some? then r.pushing == j.pushing && r.system == j.system && Trying(pc)
       else
         var act := System.Visit(j.pushing.value, pc != Mpmc.PushDone(false));
         && (MpmcInvariant.HoldingForWrite(pc) || pc.PushDone?)
         && System.Enabled(j.system, act) && r.system == System.Apply(j.system, act)
  }

  predicate PushPcMoves(pc: Mpmc.Pc, next: Mpmc.Pc) {
    if Trying(pc) then Trying(next) || next.PushWrite? || next == Mpmc.PushDone(false)
    else MpmcInvariant.HoldingForWrite(pc) && (MpmcInvariant.HoldingForWrite(next) || next == Mpmc.PushDone(true))
  }

  lemma PushStepFacts(j: Joint)
    requires Linked(j) && 0 in j.ring.threads && !Mpmc.Free(j.ring, 0)
    ensures var r := Alone(j, 0);
            && 0 in r.ring.threads && PushPcMoves(j.ring.threads[0], r.ring.threads[0])
            && var did := RingLabel(j.pushing, 0, r.ring.threads[0]);
               && (did.Some? ==> System.Enabled(j.system, did.value)) && r.system == Perform(j.system, did)
               && r.pushing == (if did.Some? then None else j.pushing)
  {
    StepPushes(j.ring, false);
    PushKeepsLink(j, false);
  }

  lemma PushCourseStep(j: Joint, r: Joint)
    requires PushCourse(j, r) && Linked(r)
    ensures PushCourse(j, Alone(r, 0))
  {
    if !Mpmc.Free(r.ring, 0) {
      PushStepFacts(r);
    }
  }

  /** After k steps of the network thread inside push. */
  ghost predicate PushRuns(start: Joint, actions: seq<Action>, j: Joint, r: Joint, k: nat, answer: nat -> seq<byte>) {
    && Leads(start, actions, r, answer) && Linked(r) && PushCourse(j, r)
    && Mpmc.Shaped(j.ring) && 0 in j.ring.threads && r.ring == MpmcTheorems.Solo(j.ring, 0, k)
  }

  lemma PushRunStep(start: Joint, actions: seq<Action>, j: Joint, r: Joint, k: nat, answer: nat -> seq<byte>)
    returns (longer: seq<Action>, next: Joint)
    requires PushRuns(start, actions, j, r, k, answer)
    ensures PushRuns(start, longer, j, next, k + 1, answer)
  {
    PushCourseStep(j, r);
    longer, next := StepAlone(start, actions, r, j.ring, 0, k, answer);
  }

  lemma PushRunBegins(start: Joint, actions: seq<Action>, j: Joint, answer: nat -> seq<byte>)
    requires Leads(start, actions, j, answer) && Linked(j) && j.pushing.Some?
    ensures PushRuns(start, actions, j, j, 0, answer)
  {
  }

  lemma RunPush(start: Joint, actions: seq<Action>, j: Joint, k: nat, answer: nat -> seq<byte>)
    returns (longer: seq<Action>, r: Joint)
    requires PushRuns(start, actions, j, j, 0, answer)
    ensures PushRuns(start, longer, j, r, k, answer)
  {
    longer, r := actions, j;
    for i := 0 to k
      invariant PushRuns(start, longer, j, r, i, answer)
    {
      longer, r := PushRunStep(start, longer, j, r, i, answer);
    }
  }

  // ----- a pop that runs alone -----

  /** From j, where pop has begun, to r: nothing yet, a task in the batch, or the end of the batch. */
  predicate PopCourse(j: Joint, r: Joint, w: nat) {
    && w + 1 in r.ring.threads && r.pushing == j.pushing
    && var pc := r.ring.threads[w + 1];
       if Seeking(pc) then r.system == j.system
       else
         var act := if pc.PopEmpty? then System.EndBatch(w) else System.PopTask(w);
         && (MpmcInvariant.HoldingForRead(pc) || pc.PopDone? || pc.PopEmpty?)
         && System.Enabled(j.system, act) && r.system == System.Apply(j.system, act)
  }

  predicate PopPcMoves(pc: Mpmc.Pc, next: Mpmc.Pc) {
    if Seeking(pc) then Seeking(next) || next.PopMove? || next.PopEmpty?
    else MpmcInvariant.HoldingForRead(pc)
         && (next.PopDone? || (MpmcInvariant.HoldingForRead(next) && !next.PopMove?))
  }

  lemma PopStepFacts(j: Joint, w: nat)
    requires Linked(j) && w + 1 in j.ring.threads && !Mpmc.Free(j.ring, w + 1)
    ensures var r := Alone(j, w + 1);
            && w + 1 in r.ring.threads && r.pushing == j.pushing
            && PopPcMoves(j.ring.threads[w + 1], r.ring.threads[w + 1])
            && var did := RingLabel(None, w + 1, r.ring.threads[w + 1]);
               (did.Some? ==> System.Enabled(j.system, did.value)) && r.system == Perform(j.system, did)
  {
    assert PopRole(j.system, j.ring, w);
    StepPops(j.ring, w + 1, false);
    PopKeepsLink(j, w + 1, false);
  }

  lemma PopCourseStep(j: Joint, r: Joint, w: nat)
    requires PopCourse(j, r, w) && Linked(r)
    ensures PopCourse(j, Alone(r, w + 1), w)
  {
    if !Mpmc.Free(r.ring, w + 1) {
      PopStepFacts(r, w);
    }
  }

  /** After k steps of worker w inside pop. */
  ghost predicate PopRuns(start: Joint, actions: seq<Action>, j: Joint, r: Joint, w: nat, k: nat,
                          answer: nat -> seq<byte>) {
    && Leads(start, actions, r, answer) && Linked(r) && PopCourse(j, r, w)
    && Mpmc.Shaped(j.ring) && w + 1 in j.ring.threads && r.ring == MpmcTheorems.Solo(j.ring, w + 1, k)
  }

  lemma PopRunStep(start: Joint, actions: seq<Action>, j: Joint, r: Joint, w: nat, k: nat, answer: nat -> seq<byte>)
    returns (longer: seq<Action>, next: Joint)
    requires PopRuns(start, actions, j, r, w, k, answer)
    ensures PopRuns(start, longer, j, next, w, k + 1, answer)
  {
    PopCourseStep(j, r, w);
    longer, next := StepAlone(start, actions, r, j.ring, w + 1, k, answer);
  }

  lemma PopRunBegins(start: Joint, actions: seq<Action>, j: Joint, w: nat, answer: nat -> seq<byte>)
    requires Leads(start, actions, j, answer) && Linked(j)
    requires w + 1 in j.ring.threads && Seeking(j.ring.threads[w + 1])
    ensures PopRuns(start, actions, j, j, w, 0, answer)
  {
  }

  lemma RunPop(start: Joint, actions: seq<Action>, j: Joint, w: nat, k: nat, answer: nat -> seq<byte>)
    returns (longer: seq<Action>, r: Joint)
    requires PopRuns(start, actions, j, j, w, 0, answer)
    ensures PopRuns(start, longer, j, r, w, k, answer)
  {
    longer, r := actions, j;
    for i := 0 to k
      invariant PopRuns(start, longer, j, r, w, i, answer)
    {
      longer, r := PopRunStep(start, longer, j, r, w, i, answer);
    }
  }

  // ----- whole calls, with nobody else inside one -----

  /** No thread is inside push or pop. */
  ghost predicate AllFree(ring: Mpmc.State) {
    forall tid :: tid in ring.threads ==> Mpmc.Free(ring, tid)
  }

  lemma FramedFree(s: Mpmc.State, r: Mpmc.State, tid: nat)
    requires AllFree(s) && MpmcSolo.Framed(s, r, tid) && Mpmc.Free(r, tid)
    ensures AllFree(r)
  {
    forall other | other in r.threads ensures Mpmc.Free(r, other) {
      if other != tid { assert Mpmc.Free(s, other); }
    }
  }

  lemma BeginPopFacts(j: Joint, w: nat)
    requires Linked(j) && AllFree(j.ring) && WantsTask(j.system, w)
    ensures Enabled(j, BeginPop(w))
    ensures var r := Apply(j, BeginPop(w));
            && Linked(r) && r.system == j.system && r.pushing == j.pushing
            && r.ring == Mpmc.Goto(j.ring, w + 1, Mpmc.PopLoadHead)
            && (MpmcTheorems.Unready(r.ring) <==> Waiting(j.system) == [])
  {
    if w + 1 in j.ring.threads { assert Mpmc.Free(j.ring, w + 1); }
    StepKeepsLink(j, BeginPop(w));
    var ring := Apply(j, BeginPop(w)).ring;
    assert |Waiting(j.system)| == ring.tail - ring.head;
    if ring.head < ring.tail {
      forall tid | tid in ring.threads ensures !MpmcInvariant.HoldingForWrite(ring.threads[tid]) {
        if tid != w + 1 { assert Mpmc.Free(j.ring, tid); }
      }
      MpmcSolo.NobodyWriting(ring);
    }
  }

  lemma SoloFree(s: Mpmc.State, t: Mpmc.State, tid: nat, k: nat)
    requires AllFree(s) && MpmcInvariant.Inv(t) && tid in t.threads && t == Mpmc.Goto(s, tid, t.threads[tid])
    requires Mpmc.Free(MpmcTheorems.Solo(t, tid, k), tid)
    ensures AllFree(MpmcTheorems.Solo(t, tid, k))
  {
    MpmcSolo.SoloFramed(t, tid, k);
    var r := MpmcTheorems.Solo(t, tid, k);
    forall other | other in r.threads ensures Mpmc.Free(r, other) {
      if other != tid { assert Mpmc.Free(s, other); }
    }
  }

  /** What is left when a pop of worker w has run to its end. */
  lemma PopEnds(j: Joint, begun: Joint, r: Joint, w: nat, k: nat)
    requires AllFree(j.ring) && Linked(begun) && begun.system == j.system && begun.pushing == j.pushing
    requires begun.ring == Mpmc.Goto(j.ring, w + 1, Mpmc.PopLoadHead) && PopCourse(begun, r, w)
    requires r.ring == MpmcTheorems.Solo(begun.ring, w + 1, k)
    requires var pc := r.ring.threads[w + 1]; pc.PopEmpty? || pc.PopDone?
    ensures AllFree(r.ring) && r.pushing == j.pushing
    ensures var act := if r.ring.threads[w + 1].PopEmpty? then System.EndBatch(w) else System.PopTask(w);
            System.Enabled(j.system, act) && r.system == System.Apply(j.system, act)
  {
    SoloFree(j.ring, begun.ring, w + 1, k);
  }

  /**
   A pop of worker w from beginning to end: the oldest task, or the end of the batch exactly
   when the queue is empty.
   */
  lemma WholePop(start: Joint, actions: seq<Action>, j: Joint, w: nat, answer: nat -> seq<byte>)
    returns (longer: seq<Action>, r: Joint)
    requires Leads(start, actions, j, answer) && Linked(j) && AllFree(j.ring) && WantsTask(j.system, w)
    ensures Leads(start, longer, r, answer) && Linked(r) && AllFree(r.ring) && r.pushing == j.pushing
    ensures var act := if Waiting(j.system) == [] then System.EndBatch(w) else System.PopTask(w);
            System.Enabled(j.system, act) && r.system == System.Apply(j.system, act)
  {
    BeginPopFacts(j, w);
    var begun := Apply(j, BeginPop(w));
    longer := Extend(start, actions, j, BeginPop(w), answer);
    PopRunBegins(start, longer, begun, w, answer);
    var k := MpmcTheorems.PopAlone(begun.ring, w + 1);
    longer, r := RunPop(start, longer, begun, w, k, answer);
    PopEnds(j, begun, r, w, k);
  }

  /** A step of the network thread outside push. */
  lemma NetworkStep(start: Joint, actions: seq<Action>, j: Joint, act: System.Action, answer: nat -> seq<byte>)
    returns (longer: seq<Action>, r: Joint)
    requires Leads(start, actions, j, answer) && Linked(j) && j.pushing.None? && Mpmc.Free(j.ring, 0)
    requires OutsidePush(j.system, act)
    ensures Leads(start, longer, r, answer) && Linked(r) && r.pushing.None? && r.ring == j.ring
    ensures r.system == System.Apply(j.system, act)
  {
    StepKeepsLink(j, Network(act));
    longer := Extend(start, actions, j, Network(act), answer);
    r := Apply(j, Network(act));
  }

  lemma BeginPushFacts(j: Joint, reply: Reply)
    requires Linked(j) && j.pushing.None? && Mpmc.Free(j.ring, 0) && Submission(j.system, reply).Some?
    ensures Enabled(j, BeginPush(reply))
    ensures var r := Apply(j, BeginPush(reply));
            && Linked(r) && r.system == j.system && r.pushing == Some(reply)
            && r.ring == Mpmc.Goto(j.ring, 0, Mpmc.PushCheckStop(Submission(j.system, reply).value))
  {
    StepKeepsLink(j, BeginPush(reply));
  }

  lemma StopCheckFacts(j: Joint, ring: Mpmc.State, task: InferenceTask)
    requires Linked(j) && j.pushing.Some? && !ring.stopped && j.ring == Mpmc.Goto(ring, 0, Mpmc.PushCheckStop(task))
    ensures var r := Alone(j, 0);
            && Linked(r) && r.system == j.system && r.pushing == j.pushing
            && r.ring == Mpmc.Goto(ring, 0, Mpmc.PushLoadTail(task))
  {
    AloneLinked(j, 0);
    MpmcTheorems.GotoTwice(ring, 0, Mpmc.PushCheckStop(task), Mpmc.PushLoadTail(task));
  }

  /** The network thread enters push and passes the stop check. */
  lemma EnterPush(start: Joint, actions: seq<Action>, j: Joint, reply: Reply, answer: nat -> seq<byte>)
    returns (longer: seq<Action>, r: Joint)
    requires Leads(start, actions, j, answer) && Linked(j) && j.pushing.None? && Mpmc.Free(j.ring, 0)
    requires !j.ring.stopped && Submission(j.system, reply).Some?
    ensures Leads(start, longer, r, answer) && Linked(r) && r.pushing == Some(reply) && r.system == j.system
    ensures r.ring == Mpmc.Goto(j.ring, 0, Mpmc.PushLoadTail(Submission(j.system, reply).value))
  {
    BeginPushFacts(j, reply);
    longer := Extend(start, actions, j, BeginPush(reply), answer);
    var begun := Apply(j, BeginPush(reply));
    StopCheckFacts(begun, j.ring, Submission(j.system, reply).value);
    longer := ExtendOne(start, longer, begun, 0, answer);
    r := Alone(begun, 0);
  }

  /** A push from beginning to end: refused exactly when the next cell is still in use one lap back. */
  lemma WholePush(start: Joint, actions: seq<Action>, j: Joint, reply: Reply, answer: nat -> seq<byte>)
    returns (longer: seq<Action>, r: Joint)
    requires Leads(start, actions, j, answer) && Linked(j) && j.pushing.None? && Mpmc.Free(j.ring, 0)
    requires !j.ring.stopped && Submission(j.system, reply).Some?
    ensures Leads(start, longer, r, answer) && Linked(r) && r.pushing.None?
    ensures var act := System.Visit(reply, !MpmcTheorems.Blocked(j.ring));
            System.Enabled(j.system, act) && r.system == System.Apply(j.system, act)
    ensures r.ring.threads == j.ring.threads[0 := Mpmc.PushDone(!MpmcTheorems.Blocked(j.ring))]
    ensures r.ring.capacity == j.ring.capacity && !r.ring.stopped && r.ring.head == j.ring.head
  {
    var entered;
    longer, entered := EnterPush(start, actions, j, reply, answer);
    var k := MpmcSolo.PushToEnd(j.ring, 0, Submission(j.system, reply).value);
    PushRunBegins(start, longer, entered, answer);
    longer, r := RunPush(start, longer, entered, k, answer);
  }
}
