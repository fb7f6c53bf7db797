/**
 What can still happen to a request. Before the pool is stopped, every request that was not
 refused can be answered from wherever it is: some run of the threads delivers its result.
 A refused one never gets an answer.
 */
module Progress {
  import opened Core
  import opened Session
  import opened Server
  import opened System
  import opened SystemInvariant
  import SystemTheorems

  // ----- workers exit only after stop -----

  predicate Alive(s: State) {
    !s.stop ==> forall w :: 0 <= w < |s.workers| ==> !s.workers[w].pc.Exited?
  }

  lemma StepKeepsAlive(s: State, a: Action)
    requires Alive(s) && Enabled(s, a)
    ensures Alive(Apply(s, a)) && (!a.StopPool? ==> Apply(s, a).stop == s.stop)
  {
  }

  lemma {:induction false} RunsKeepAlive(s: State, actions: seq<Action>)
    requires Alive(s) && Run(s, actions).Some?
    ensures Alive(Run(s, actions).value)
  {
    if actions != [] {
      RunsKeepAlive(s, actions[..|actions| - 1]);
      StepKeepsAlive(Run(s, actions[..|actions| - 1]).value, actions[|actions| - 1]);
    }
  }

  // ----- one helpful step -----

  predicate HasRoom(s: State, w: nat) {
    w < |s.workers| && |s.workers[w].batch| < s.batchSize
  }

  /**
   The next step of worker w through its batch and back to the queue, as worker_loop makes it:
   pop_batch goes on while there is room and a task, and the engine answers `answer(id)`.
   */
  function WorkerMove(s: State, w: nat, answer: nat -> seq<byte>): Action
    requires w < |s.workers|
  {
    var worker := s.workers[w];
    match worker.pc
    case Top => CheckStop(w)
    case Popping => if HasRoom(s, w) && s.taskHead < |s.tasks| then PopTask(w) else EndBatch(w)
    case Running =>
      if worker.next < |worker.batch| then RunTask(w, answer(worker.batch[worker.next].requestId)) else NextBatch(w)
    case Exited => StopPool
  }

  /** A step that brings request `id` closer to its answer. */
  function HelpfulMove(s: State, id: nat, answer: nat -> seq<byte>): Action
    requires id < |s.places| && |s.workers| >= 1
  {
    match s.places[id]
    case Queued(_) => WorkerMove(s, 0, answer)
    case InBatch(w, _) => if w < |s.workers| then WorkerMove(s, w, answer) else StopPool
    case InResults(_) => if s.pass.i < s.pass.size then Visit(NOTHING, true) else HandleResponse
    case _ => StopPool
  }

  /** A batch ends only full or with the queue empty, and results carry the engine's answer. */
  predicate CodeLike(s: State, a: Action, answer: nat -> seq<byte>) {
    && (a.EndBatch? ==> !HasRoom(s, a.w) || s.taskHead >= |s.tasks|)
    && (a.RunTask? ==>
          && a.w < |s.workers| && s.workers[a.w].next < |s.workers[a.w].batch|
          && a.response == answer(s.workers[a.w].batch[s.workers[a.w].next].requestId))
    && !a.StopPool?
  }

  /** Every step of the run is like the code's. */
  predicate Plausible(s: State, actions: seq<Action>, answer: nat -> seq<byte>) {
    actions != [] ==>
      var before := actions[..|actions| - 1];
      && Plausible(s, before, answer)
      && (Run(s, before).Some? ==> CodeLike(Run(s, before).value, actions[|actions| - 1], answer))
  }

  function Stage(place: Place): nat {
    match place
    case Queued(_) => 3
    case InBatch(_, _) => 2
    case InResults(_) => 1
    case _ => 0
  }

  /** How many requests are served before this one. */
  function Ahead(s: State, place: Place): int {
    match place
    case Queued(p) => p - s.taskHead
    case InResults(p) => p - s.resultHead
    case _ => 0
  }

  /** Steps a worker needs to fill and finish its batch, and to be ready to pop again. */
  function BatchEffort(worker: Worker, batchSize: nat): int {
    match worker.pc
    case Top => 1
    case Running => 2 + |worker.batch| - worker.next
    case _ => 3 + 2 * batchSize - |worker.batch|
  }

  /** Steps before the thread that holds the request can move it. */
  function Effort(s: State, place: Place): int {
    match place
    case Queued(_) =>
      if |s.workers| == 0 || (s.workers[0].pc.Popping? && HasRoom(s, 0)) then 0
      else BatchEffort(s.workers[0], s.batchSize)
    case InBatch(w, _) => if w < |s.workers| then BatchEffort(s.workers[w], s.batchSize) else 0
    case InResults(_) => s.pass.size - s.pass.i
    case _ => 0
  }

  predicate Lower(s: State, r: State, id: nat)
    requires id < |s.places| && id < |r.places|
  {
    var p, q := s.places[id], r.places[id];
    || Stage(q) < Stage(p)
    || (Stage(q) == Stage(p) && Ahead(r, q) < Ahead(s, p))
    || (q == p && Ahead(r, q) == Ahead(s, p) && Effort(r, q) < Effort(s, p))
  }

  predicate Ready(s: State) {
    !s.stop && |s.workers| >= 1 && s.batchSize >= 1 && Alive(s)
  }

  predicate Answerable(place: Place) {
    place.Queued? || place.InBatch? || place.InResults?
  }

  /** The helpful step is possible, is like the code's, and brings the request closer. */
  predicate Helps(s: State, a: Action, id: nat, answer: nat -> seq<byte>)
    requires id < |s.places|
  {
    && Enabled(s, a) && CodeLike(s, a, answer)
    && id < |Apply(s, a).places| && !Apply(s, a).places[id].Refused? && Lower(s, Apply(s, a), id)
  }

  lemma QueuedMoves(s: State, id: nat, answer: nat -> seq<byte>)
    requires Inv(s) && Ready(s) && id < |s.places| && s.places[id].Queued?
    ensures Helps(s, HelpfulMove(s, id, answer), id, answer)
  {
    assert HeldAt(s, id, s.places[id]);
    assert WorkerFits(s, 0);
    var a := HelpfulMove(s, id, answer);
    if a.PopTask? {
      PopMoves(s, 0);
    } else if a.RunTask? {
      RunMoves(s, 0, a.response);
    }
  }

  lemma BatchMoves(s: State, id: nat, answer: nat -> seq<byte>)
    requires Inv(s) && Ready(s) && id < |s.places| && s.places[id].InBatch?
    ensures Helps(s, HelpfulMove(s, id, answer), id, answer)
  {
    assert HeldAt(s, id, s.places[id]);
    var w := s.places[id].worker;
    assert WorkerFits(s, w);
    var a := HelpfulMove(s, id, answer);
    if a.PopTask? {
      PopMoves(s, w);
    } else if a.RunTask? {
      RunMoves(s, w, a.response);
    }
  }

  lemma ResultMoves(s: State, id: nat, answer: nat -> seq<byte>)
    requires Inv(s) && Ready(s) && id < |s.places| && s.places[id].InResults?
    ensures Helps(s, HelpfulMove(s, id, answer), id, answer)
  {
    assert HeldAt(s, id, s.places[id]);
    if s.pass.i < s.pass.size {
      VisitMoves(s, id, answer);
    } else {
      assert ResultFits(s, s.resultHead);
    }
  }

  lemma VisitMoves(s: State, id: nat, answer: nat -> seq<byte>)
    requires Inv(s) && id < |s.places| && s.places[id].InResults? && s.pass.i < s.pass.size
    ensures Helps(s, Visit(NOTHING, true), id, answer)
  {
    VisitKeepsFit(s.pass, NOTHING);
  }

  lemma Moves(s: State, id: nat, answer: nat -> seq<byte>)
    requires Inv(s) && Ready(s) && id < |s.places| && Answerable(s.places[id])
    ensures Helps(s, HelpfulMove(s, id, answer), id, answer)
  {
    if s.places[id].Queued? {
      QueuedMoves(s, id, answer);
    } else if s.places[id].InBatch? {
      BatchMoves(s, id, answer);
    } else {
      ResultMoves(s, id, answer);
    }
  }

  // ----- a run that delivers -----

  lemma {:induction false} RunFrom(s: State, a: Action, rest: seq<Action>, answer: nat -> seq<byte>)
    requires Enabled(s, a)
    ensures Run(s, [a] + rest) == Run(Apply(s, a), rest)
    ensures CodeLike(s, a, answer) && Plausible(Apply(s, a), rest, answer) ==> Plausible(s, [a] + rest, answer)
  {
    var all := [a] + rest;
    if rest == [] {
      assert all[..|all| - 1] == [];
    } else {
      RunFrom(s, a, rest[..|rest| - 1], answer);
      assert all[..|all| - 1] == [a] + rest[..|rest| - 1];
      assert all[|all| - 1] == rest[|rest| - 1];
    }
  }

  /** The results that came after s carry what the engine answers to their requests. */
  predicate NewAnswers(s: State, r: State, answer: nat -> seq<byte>) {
    && s.results <= r.results
    && forall p :: |s.results| <= p < |r.results| ==> r.results[p].response == answer(r.results[p].requestId)
  }

  /** A request without a result in s has been delivered in r, with the engine's answer. */
  predicate Answered(s: State, r: State, id: nat, answer: nat -> seq<byte>) {
    && id < |s.places| && id < |r.places| && r.places[id].Delivered?
    && (s.places[id].Queued? || s.places[id].InBatch? ==>
          && r.places[id].pos < |r.results|
          && r.results[r.places[id].pos].requestId == id && r.results[r.places[id].pos].response == answer(id))
  }

  /** `later`, made of steps like the code's, hands the engine's answer to the session of request `id`. */
  predicate Delivers(s: State, later: seq<Action>, id: nat, answer: nat -> seq<byte>) {
    Run(s, later).Some? && Plausible(s, later, answer) && Answered(s, Run(s, later).value, id, answer)
  }

  predicate ReachesSession(s: State, later: seq<Action>, id: nat, answer: nat -> seq<byte>) {
    && Run(s, later).Some? && Plausible(s, later, answer)
    && id < |Run(s, later).value.places| && Run(s, later).value.places[id].Delivered?
  }

  lemma StepResults(s: State, a: Action)
    requires Enabled(s, a)
    ensures !a.RunTask? ==> Apply(s, a).results == s.results
    ensures a.RunTask? ==>
              var r, task := Apply(s, a).results, s.workers[a.w].batch[s.workers[a.w].next];
              && |r| == |s.results| + 1 && s.results <= r
              && r[|s.results|].requestId == task.requestId && r[|s.results|].response == a.response
  {
  }

  lemma {:induction false} PlausibleAnswers(s: State, later: seq<Action>, answer: nat -> seq<byte>)
    requires Run(s, later).Some? && Plausible(s, later, answer)
    ensures NewAnswers(s, Run(s, later).value, answer)
  {
    if later != [] {
      var before, a := later[..|later| - 1], later[|later| - 1];
      PlausibleAnswers(s, before, answer);
      StepResults(Run(s, before).value, a);
    }
  }

  lemma DeliveredIsAnswered(s: State, r: State, id: nat, answer: nat -> seq<byte>)
    requires Inv(s) && Inv(r) && NewAnswers(s, r, answer)
    requires id < |s.places| && id < |r.places| && r.places[id].Delivered?
    ensures Answered(s, r, id, answer)
  {
    var p := r.places[id].pos;
    assert HeldAt(r, id, r.places[id]);
    if p < |s.results| { assert ResultFits(s, p); }
  }

  lemma Bounded(s: State, id: nat)
    requires Inv(s) && id < |s.places|
    ensures Ahead(s, s.places[id]) >= 0 && Effort(s, s.places[id]) >= 0
  {
    assert HeldAt(s, id, s.places[id]);
    if |s.workers| > 0 { assert WorkerFits(s, 0); }
    if s.places[id].InBatch? { assert WorkerFits(s, s.places[id].worker); }
  }

  /** The helpful steps, one after the other, end in the delivery. */
  lemma {:induction false} Deliver(s: State, id: nat, answer: nat -> seq<byte>) returns (later: seq<Action>)
    requires Inv(s) && Ready(s) && id < |s.places| && !s.places[id].Refused?
    ensures ReachesSession(s, later, id, answer)
    decreases Stage(s.places[id]), Ahead(s, s.places[id]), Effort(s, s.places[id])
  {
    if s.places[id].Delivered? {
      later := [];
    } else {
      var a := HelpfulMove(s, id, answer);
      Bounded(s, id);
      Moves(s, id, answer);
      var r := Apply(s, a);
      StepKeepsInv(s, a);
      StepKeepsAlive(s, a);
      Bounded(r, id);
      var rest := Deliver(r, id, answer);
      RunFrom(s, a, rest, answer);
      later := [a] + rest;
    }
  }

  /**
   In every state reached before the pool is stopped, with at least one worker and a batch
   size of at least one, and whatever the engine answers, a request can still be answered
   exactly when it was not refused.
   */
  lemma AnsweredExactlyUnlessRefused(listener: int, workers: nat, batchSize: nat, actions: seq<Action>, id: nat,
                                     answer: nat -> seq<byte>)
    requires workers >= 1 && batchSize >= 1 && Run(Start(listener, workers, batchSize), actions).Some?
    requires var s := Run(Start(listener, workers, batchSize), actions).value; !s.stop && id < |s.places|
    ensures var s := Run(Start(listener, workers, batchSize), actions).value;
            (exists later :: Delivers(s, later, id, answer)) <==> !s.places[id].Refused?
  {
    var start := Start(listener, workers, batchSize);
    var s := Run(start, actions).value;
    StartInv(listener, workers, batchSize);
    RunsKeepInv(start, actions);
    RunsKeepAlive(start, actions);
    if s.places[id].Refused? {
      forall later | Run(s, later).Some? ensures !Delivers(s, later, id, answer) {
        SystemTheorems.RefusedHangs(s, later, id);
      }
    } else {
      var later := Deliver(s, id, answer);
      RunsKeepInv(s, later);
      PlausibleAnswers(s, later, answer);
      DeliveredIsAnswered(s, Run(s, later).value, id, answer);
      assert Delivers(s, later, id, answer);
    }
  }
}
