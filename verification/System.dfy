/**
 The whole server as a transition system: the network thread with its poll loop, the task
 queue, any number of workers with their batches, and the result queue. Steps of the
 threads interleave. Each queue operation takes effect in one step; the modules
 that join the rings to this system prove that their runs are runs of it.
 */
module System {
  import opened Core
  import opened Session
  import opened Server

  datatype WorkerPc = Top | Popping | Running | Exited

  /** A worker of the pool: its batch buffer and the index of its loop over the batch. */
  datatype Worker = Worker(pc: WorkerPc, batch: seq<InferenceTask>, next: nat)

  /** Where a request is; the position names the element of the container that holds it. */
  datatype Place =
    | Refused(pos: nat)
    | Queued(pos: nat)
    | InBatch(worker: nat, index: nat)
    | InResults(pos: nat)
    | Delivered(pos: nat)

  /** The connection a request came from; descriptors are reused, connection numbers are not. */
  datatype Origin = Origin(fd: int, connection: nat)

  /**
   `tasks[taskHead..]` is the task queue and `results[resultHead..]` the result queue.
   The fields from `connections` on are history, among them the tasks that push refused.
   The network thread is inside a pass while pass.i < pass.size.
   */
  datatype State = State(
    pass: Pass,
    tasks: seq<InferenceTask>,
    taskHead: nat,
    workers: seq<Worker>,
    batchSize: nat,
    results: seq<InferenceResult>,
    resultHead: nat,
    stop: bool,
    connections: map<int, nat>,
    nextConnection: nat,
    awaiting: map<int, nat>,
    origins: seq<Origin>,
    places: seq<Place>,
    deliveredTo: seq<Option<nat>>,
    refused: seq<InferenceTask>)

  datatype Action =
    | Poll(ready: nat -> Ready)
    | Visit(reply: Reply, pushAccepted: bool)
    | HandleResponse
    | CheckStop(w: nat)
    | PopTask(w: nat)
    | EndBatch(w: nat)
    | RunTask(w: nat, response: seq<byte>)
    | NextBatch(w: nat)
    | StopPool

  function Start(listener: int, workers: nat, batchSize: nat): State {
    State(Pass(StartServer(listener), 0, 0, [], 0), [], 0, seq(workers, _ => Worker(Top, [], 0)), batchSize,
          [], 0, false, map[], 0, map[], [], [], [], [])
  }

  predicate BetweenPasses(s: State) {
    s.pass.i == s.pass.size
  }

  predicate PollSetKnown(sv: ServerState) {
    forall i :: 1 <= i < |sv.polls| ==> sv.polls[i].fd in sv.sessions
  }

  predicate AtPc(s: State, w: nat, pc: WorkerPc) {
    w < |s.workers| && s.workers[w].pc == pc
  }

  predicate Enabled(s: State, a: Action) {
    match a
    case Poll(_) => BetweenPasses(s) && PollSetKnown(s.pass.server)
    case Visit(_, _) => s.pass.i < s.pass.size && Visitable(s.pass)
    case HandleResponse => BetweenPasses(s) && s.resultHead < |s.results|
    case CheckStop(w) => AtPc(s, w, Top)
    case PopTask(w) => AtPc(s, w, Popping) && |s.workers[w].batch| < s.batchSize && s.taskHead < |s.tasks|
    case EndBatch(w) => AtPc(s, w, Popping)
    case RunTask(w, _) => AtPc(s, w, Running) && s.workers[w].next < |s.workers[w].batch|
    case NextBatch(w) => AtPc(s, w, Running) && s.workers[w].next == |s.workers[w].batch|
    case StopPool => true
  }

  function SetPlace(places: seq<Place>, id: nat, place: Place): (r: seq<Place>)
    ensures |r| == |places|
  {
    if id < |places| then places[id := place] else places
  }

  /** finalize_request: the task is pushed, and the answer of push is ignored by the session. */
  function Submit(s: State, task: InferenceTask, pushAccepted: bool): State {
    var connection := if task.clientFd in s.connections then s.connections[task.clientFd] else 0;
    s.(tasks := if pushAccepted then s.tasks + [task] else s.tasks,
       refused := if pushAccepted then s.refused else s.refused + [task],
       places := s.places + [if pushAccepted then Queued(|s.tasks|) else Refused(|s.refused|)],
       origins := s.origins + [Origin(task.clientFd, connection)],
       awaiting := s.awaiting[task.clientFd := task.requestId])
  }

  function VisitStep(s: State, reply: Reply, pushAccepted: bool): State
    requires Visitable(s.pass)
  {
    var v := Server.Visit(s.pass, reply);
    var r := s.(pass := v.pass);
    if v.task.Some? then Submit(r, v.task.value, pushAccepted)
    else if v.pass.accepted != s.pass.accepted then
      r.(connections := s.connections[reply.accepted := s.nextConnection], nextConnection := s.nextConnection + 1)
    else r
  }

  /** handle_responses pops one result and hands it to the session that has its descriptor now. */
  function ResponseStep(s: State): State
    requires s.resultHead < |s.results|
  {
    var result := s.results[s.resultHead];
    var fd, sv := result.clientFd, s.pass.server;
    var known := fd in sv.sessions;
    s.(resultHead := s.resultHead + 1,
       places := SetPlace(s.places, result.requestId, Delivered(s.resultHead)),
       deliveredTo := s.deliveredTo + [if known && fd in s.connections then Some(s.connections[fd]) else None],
       pass := if known
               then s.pass.(server := sv.(sessions := sv.sessions[fd := Respond(sv.sessions[fd], result.response)]))
               else s.pass)
  }

  function PopStep(s: State, w: nat): State
    requires w < |s.workers| && s.taskHead < |s.tasks|
  {
    var task, worker := s.tasks[s.taskHead], s.workers[w];
    s.(taskHead := s.taskHead + 1,
       workers := s.workers[w := worker.(batch := worker.batch + [task])],
       places := SetPlace(s.places, task.requestId, InBatch(w, |worker.batch|)))
  }

  /** The engine answers with the descriptor of the task, whatever it computes. */
  function RunStep(s: State, w: nat, response: seq<byte>): State
    requires w < |s.workers| && s.workers[w].next < |s.workers[w].batch|
  {
    var worker := s.workers[w];
    var task := worker.batch[worker.next];
    s.(workers := s.workers[w := worker.(next := worker.next + 1)],
       results := s.results + [InferenceResult(task.clientFd, response, task.requestId)],
       places := SetPlace(s.places, task.requestId, InResults(|s.results|)))
  }

  function Apply(s: State, a: Action): (r: State)
    requires Enabled(s, a)
    ensures |r.workers| == |s.workers| && r.batchSize == s.batchSize
  {
    match a
    case Poll(ready) => s.(pass := BeginPass(s.pass.server, ready))
    case Visit(reply, pushAccepted) => VisitStep(s, reply, pushAccepted)
    case HandleResponse => ResponseStep(s)
    case CheckStop(w) =>
      s.(workers := s.workers[w := if s.stop then s.workers[w].(pc := Exited) else Worker(Popping, [], 0)])
    case PopTask(w) => PopStep(s, w)
    case EndBatch(w) =>
      s.(workers := s.workers[w := s.workers[w].(pc := if s.workers[w].batch == [] then Top else Running)])
    case RunTask(w, response) => RunStep(s, w, response)
    case NextBatch(w) => s.(workers := s.workers[w := s.workers[w].(pc := Top)])
    case StopPool => s.(stop := true)
  }

  function Run(s: State, actions: seq<Action>): (r: Option<State>)
    ensures r.Some? ==> |r.value.workers| == |s.workers| && r.value.batchSize == s.batchSize
  {
    if actions == [] then Some(s)
    else
      var before := Run(s, actions[..|actions| - 1]);
      var a := actions[|actions| - 1];
      if before.Some? && Enabled(before.value, a) then Some(Apply(before.value, a)) else None
  }

  /** One more action, after a run that may have failed already. */
  function Next(s: Option<State>, a: Action): Option<State> {
    if s.Some? && Enabled(s.value, a) then Some(Apply(s.value, a)) else None
  }

  lemma RunAppends(start: State, actions: seq<Action>, a: Action)
    ensures Run(start, actions + [a]) == Next(Run(start, actions), a)
  {
    assert (actions + [a])[..|actions|] == actions;
  }
}

/** The invariant that ties sessions, queues and batches together. */
module SystemInvariant {
  import opened Core
  import opened Session
  import opened Server
  import opened System

  /** The container named by the place holds the request there. */
  predicate HeldAt(s: State, id: nat, place: Place) {
    match place
    case Refused(p) => p < |s.refused| && s.refused[p].requestId == id
    case Queued(p) => s.taskHead <= p < |s.tasks| && s.tasks[p].requestId == id
    case InBatch(w, j) =>
      w < |s.workers| && s.workers[w].next <= j < |s.workers[w].batch| && s.workers[w].batch[j].requestId == id
    case InResults(p) => s.resultHead <= p < |s.results| && s.results[p].requestId == id
    case Delivered(p) => p < s.resultHead && p < |s.results| && s.results[p].requestId == id
  }

  predicate Known(s: State, id: nat, fd: int, place: Place) {
    id < |s.places| == |s.origins| && s.places[id] == place && s.origins[id].fd == fd
  }

  predicate QueueFits(s: State) {
    && s.taskHead <= |s.tasks|
    && (forall p :: s.taskHead <= p < |s.tasks| ==> Known(s, s.tasks[p].requestId, s.tasks[p].clientFd, Queued(p)))
    && (forall p :: 0 <= p < |s.refused| ==> Known(s, s.refused[p].requestId, s.refused[p].clientFd, Refused(p)))
  }

  predicate WorkerFits(s: State, w: nat)
    requires w < |s.workers|
  {
    var worker := s.workers[w];
    && worker.next <= |worker.batch| <= s.batchSize
    && (worker.pc.Top? || worker.pc.Exited? ==> worker.next == |worker.batch|)
    && (worker.pc.Popping? ==> worker.next == 0)
    && forall j :: worker.next <= j < |worker.batch| ==>
         Known(s, worker.batch[j].requestId, worker.batch[j].clientFd, InBatch(w, j))
  }

  predicate ResultFits(s: State, p: nat)
    requires p < |s.results|
  {
    Known(s, s.results[p].requestId, s.results[p].clientFd, if p < s.resultHead then Delivered(p) else InResults(p))
  }

  /** Not yet answered, or refused and never to be answered. */
  predicate Outstanding(place: Place) {
    !place.Delivered?
  }

  /** An outstanding request belongs to an open, waiting session of the very connection it came from. */
  predicate RequestFits(s: State, id: nat)
    requires id < |s.places| == |s.origins|
  {
    Outstanding(s.places[id]) ==>
      var fd := s.origins[id].fd;
      && Pending(s.pass.server, fd)
      && fd in s.connections && s.connections[fd] == s.origins[id].connection
      && fd in s.awaiting && s.awaiting[fd] == id
  }

  predicate DeliveryFits(s: State, p: nat)
    requires p < |s.results| && p < |s.deliveredTo|
  {
    var id := s.results[p].requestId;
    id < |s.origins| && s.deliveredTo[p] == Some(s.origins[id].connection)
  }

  predicate Counters(s: State) {
    && |s.places| == |s.origins| == s.pass.server.nextTraceId
    && s.resultHead == |s.deliveredTo| <= |s.results|
    && (forall fd :: fd in s.pass.server.sessions ==> fd in s.connections)
  }

  ghost predicate Inv(s: State) {
    && PassFits(s.pass)
    && Counters(s)
    && QueueFits(s)
    && (forall w :: 0 <= w < |s.workers| ==> WorkerFits(s, w))
    && (forall p :: 0 <= p < |s.results| ==> ResultFits(s, p))
    && (forall id :: 0 <= id < |s.places| ==> HeldAt(s, id, s.places[id]))
    && (forall id :: 0 <= id < |s.places| ==> RequestFits(s, id))
    && (forall p :: 0 <= p < s.resultHead ==> DeliveryFits(s, p))
  }

  lemma StartInv(listener: int, workers: nat, batchSize: nat)
    ensures Inv(Start(listener, workers, batchSize))
  {
  }

  // ----- the network thread -----

  /** A step that leaves queues and batches alone and keeps every waiting session. */
  ghost predicate OnlySessions(s: State, r: State) {
    && r == s.(pass := r.pass, connections := r.connections, nextConnection := r.nextConnection)
    && (forall fd :: Pending(s.pass.server, fd) ==>
          Pending(r.pass.server, fd) && fd in r.connections && fd in s.connections
          && r.connections[fd] == s.connections[fd])
  }

  lemma SessionsKeepInv(s: State, r: State)
    requires Inv(s) && OnlySessions(s, r) && PassFits(r.pass) && Counters(r)
    ensures Inv(r)
  {
    forall w | 0 <= w < |r.workers| ensures WorkerFits(r, w) { assert WorkerFits(s, w); }
    forall p | 0 <= p < |r.results| ensures ResultFits(r, p) { assert ResultFits(s, p); }
    forall id | 0 <= id < |r.places| ensures HeldAt(r, id, r.places[id]) && RequestFits(r, id) {
      assert HeldAt(s, id, s.places[id]) && RequestFits(s, id);
    }
    forall p | 0 <= p < r.resultHead ensures DeliveryFits(r, p) { assert DeliveryFits(s, p); }
  }

  lemma PollKeepsInv(s: State, ready: nat -> Ready)
    requires Inv(s) && Enabled(s, Poll(ready))
    ensures Inv(Apply(s, Poll(ready)))
  {
    PassStarts(s.pass.server, ready);
    SessionsKeepInv(s, Apply(s, Poll(ready)));
  }

  lemma SubmitKeepsInv(s: State, pass: Pass, task: InferenceTask, pushAccepted: bool)
    requires Inv(s) && PassFits(pass)
    requires pass.server.nextTraceId == s.pass.server.nextTraceId + 1 && task.requestId == s.pass.server.nextTraceId
    requires forall fd :: Pending(s.pass.server, fd) ==> Pending(pass.server, fd)
    requires forall fd :: fd in pass.server.sessions ==> fd in s.pass.server.sessions
    requires task.clientFd in s.pass.server.sessions && !Pending(s.pass.server, task.clientFd)
    requires Pending(pass.server, task.clientFd)
    ensures Inv(Submit(s.(pass := pass), task, pushAccepted))
  {
    var r := Submit(s.(pass := pass), task, pushAccepted);
    forall w | 0 <= w < |r.workers| ensures WorkerFits(r, w) { assert WorkerFits(s, w); }
    forall p | 0 <= p < |r.results| ensures ResultFits(r, p) { assert ResultFits(s, p); }
    forall id | 0 <= id < |r.places| ensures HeldAt(r, id, r.places[id]) && RequestFits(r, id) {
      if id < |s.places| {
        assert HeldAt(s, id, s.places[id]) && RequestFits(s, id);
      }
    }
    forall p | 0 <= p < r.resultHead ensures DeliveryFits(r, p) { assert DeliveryFits(s, p) && ResultFits(s, p); }
  }

  /** A visit that submits nothing. */
  lemma QuietVisitKeepsInv(s: State, reply: Reply, pushAccepted: bool)
    requires Inv(s) && Enabled(s, Action.Visit(reply, pushAccepted)) && Server.Visit(s.pass, reply).task.None?
    ensures Inv(Apply(s, Action.Visit(reply, pushAccepted)))
  {
    VisitKeepsFit(s.pass, reply);
    VisitEffects(s.pass, reply);
    SessionsKeepInv(s, Apply(s, Action.Visit(reply, pushAccepted)));
  }

  lemma VisitKeepsInv(s: State, reply: Reply, pushAccepted: bool)
    requires Inv(s) && Enabled(s, Action.Visit(reply, pushAccepted))
    ensures Inv(Apply(s, Action.Visit(reply, pushAccepted)))
  {
    var v := Server.Visit(s.pass, reply);
    if v.task.Some? {
      VisitKeepsFit(s.pass, reply);
      VisitEffects(s.pass, reply);
      SubmitKeepsInv(s, v.pass, v.task.value, pushAccepted);
    } else {
      QuietVisitKeepsInv(s, reply, pushAccepted);
    }
  }

  // ----- moving one request from place to place -----

  /** Request `id` moved; all other requests are where they were, in containers that still hold them. */
  predicate Moved(s: State, r: State, id: nat, place: Place) {
    && r.origins == s.origins && r.connections == s.connections && r.awaiting == s.awaiting
    && id < |s.places| && r.places == s.places[id := place]
    && HeldAt(r, id, place)
    && (forall k :: 0 <= k < |s.places| && k != id && HeldAt(s, k, s.places[k]) ==> HeldAt(r, k, s.places[k]))
  }

  lemma MovedRequests(s: State, r: State, id: nat, place: Place)
    requires Inv(s) && Moved(s, r, id, place) && Outstanding(s.places[id])
    requires forall fd :: Pending(s.pass.server, fd) && (!Outstanding(place) ==> fd != s.origins[id].fd)
               ==> Pending(r.pass.server, fd)
    ensures forall k :: 0 <= k < |r.places| ==> HeldAt(r, k, r.places[k]) && RequestFits(r, k)
  {
    forall k | 0 <= k < |r.places| ensures HeldAt(r, k, r.places[k]) && RequestFits(r, k) {
      assert HeldAt(s, k, s.places[k]) && RequestFits(s, k) && RequestFits(s, id);
    }
  }

  lemma ResponseKeepsInv(s: State)
    requires Inv(s) && Enabled(s, HandleResponse)
    ensures Inv(ResponseStep(s))
  {
    var r, head := ResponseStep(s), s.resultHead;
    var id, fd := s.results[head].requestId, s.results[head].clientFd;
    assert ResultFits(s, head);
    assert RequestFits(s, id);
    UpdateKeepsFit(s.pass.server, fd, Respond(s.pass.server.sessions[fd], s.results[head].response));
    ResponsePass(s);
    assert Moved(s, r, id, Delivered(head));
    MovedRequests(s, r, id, Delivered(head));
    forall w | 0 <= w < |r.workers| ensures WorkerFits(r, w) { assert WorkerFits(s, w); }
    ResponseResults(s);
  }

  lemma ResponseResults(s: State)
    requires Inv(s) && Enabled(s, HandleResponse)
    ensures var r := ResponseStep(s);
            && (forall p :: 0 <= p < |r.results| ==> ResultFits(r, p))
            && s.resultHead < |r.deliveredTo|
            && (forall p :: 0 <= p < r.resultHead ==> DeliveryFits(r, p))
  {
    var r, head := ResponseStep(s), s.resultHead;
    assert ResultFits(s, head);
    assert RequestFits(s, s.results[head].requestId);
    forall p | 0 <= p < |r.results| ensures ResultFits(r, p) { assert ResultFits(s, p); }
    forall p | 0 <= p < r.resultHead ensures DeliveryFits(r, p) {
      if p < head { assert DeliveryFits(s, p); }
    }
  }

  lemma ResponsePass(s: State)
    requires Inv(s) && Enabled(s, HandleResponse)
    requires s.results[s.resultHead].clientFd in s.pass.server.sessions
    requires var fd := s.results[s.resultHead].clientFd;
             ServerFits(s.pass.server.(sessions := s.pass.server.sessions[fd :=
               Respond(s.pass.server.sessions[fd], s.results[s.resultHead].response)]))
    ensures PassFits(ResponseStep(s).pass)
  {
    var p := ResponseStep(s).pass;
    forall j | p.i <= j < |p.server.polls| && j >= 1 ensures QuietIfPending(p.server, j) {
      assert QuietIfPending(s.pass.server, j);
    }
  }

  lemma PopKeepsInv(s: State, w: nat)
    requires Inv(s) && Enabled(s, PopTask(w))
    ensures Inv(PopStep(s, w))
  {
    var r, task := PopStep(s, w), s.tasks[s.taskHead];
    var place := InBatch(w, |s.workers[w].batch|);
    PopMoves(s, w);
    MovedRequests(s, r, task.requestId, place);
    forall v | 0 <= v < |r.workers| ensures WorkerFits(r, v) { PopWorkerFits(s, w, v); }
    forall p | 0 <= p < |r.results| ensures ResultFits(r, p) { assert ResultFits(s, p); }
    forall p | 0 <= p < r.resultHead ensures DeliveryFits(r, p) { assert DeliveryFits(s, p); }
  }

  lemma PopMoves(s: State, w: nat)
    requires Inv(s) && Enabled(s, PopTask(w))
    ensures Moved(s, PopStep(s, w), s.tasks[s.taskHead].requestId, InBatch(w, |s.workers[w].batch|))
  {
    assert WorkerFits(s, w);
    assert Known(s, s.tasks[s.taskHead].requestId, s.tasks[s.taskHead].clientFd, Queued(s.taskHead));
  }

  lemma PopWorkerFits(s: State, w: nat, v: nat)
    requires Inv(s) && Enabled(s, PopTask(w)) && v < |s.workers|
    ensures WorkerFits(PopStep(s, w), v)
  {
    assert WorkerFits(s, v);
    assert Known(s, s.tasks[s.taskHead].requestId, s.tasks[s.taskHead].clientFd, Queued(s.taskHead));
  }

  lemma RunKeepsInv(s: State, w: nat, response: seq<byte>)
    requires Inv(s) && Enabled(s, RunTask(w, response))
    ensures Inv(RunStep(s, w, response))
  {
    var r, task := RunStep(s, w, response), s.workers[w].batch[s.workers[w].next];
    var place := InResults(|s.results|);
    assert WorkerFits(s, w);
    RunMoves(s, w, response);
    MovedRequests(s, r, task.requestId, place);
    forall v | 0 <= v < |r.workers| ensures WorkerFits(r, v) { assert WorkerFits(s, v); }
    forall p | 0 <= p < |r.results| ensures ResultFits(r, p) {
      if p < |s.results| { assert ResultFits(s, p); }
    }
    forall p | 0 <= p < r.resultHead ensures DeliveryFits(r, p) { assert DeliveryFits(s, p); }
  }

  lemma RunMoves(s: State, w: nat, response: seq<byte>)
    requires Inv(s) && Enabled(s, RunTask(w, response))
    ensures Moved(s, RunStep(s, w, response), s.workers[w].batch[s.workers[w].next].requestId, InResults(|s.results|))
  {
    assert WorkerFits(s, w);
  }

  /** r differs from s in no request, queue or session. */
  predicate SameRequests(s: State, r: State) {
    && r.pass == s.pass && r.tasks == s.tasks && r.taskHead == s.taskHead && r.refused == s.refused
    && r.results == s.results && r.resultHead == s.resultHead && r.deliveredTo == s.deliveredTo
    && r.places == s.places && r.origins == s.origins && r.connections == s.connections && r.awaiting == s.awaiting
    && r.batchSize == s.batchSize && |r.workers| == |s.workers|
  }

  lemma SameResults(s: State, r: State)
    requires Inv(s) && SameRequests(s, r)
    ensures forall p :: 0 <= p < |r.results| ==> ResultFits(r, p)
    ensures forall p :: 0 <= p < r.resultHead ==> DeliveryFits(r, p)
  {
    forall p | 0 <= p < |r.results| ensures ResultFits(r, p) { assert ResultFits(s, p); }
    forall p | 0 <= p < r.resultHead ensures DeliveryFits(r, p) { assert DeliveryFits(s, p); }
  }

  /** The same tasks still to run: the same batch, or none before. */
  predicate SameRest(before: Worker, after: Worker) {
    before.next == |before.batch| || (after.batch == before.batch && after.next == before.next)
  }

  lemma SamePlaces(s: State, r: State)
    requires Inv(s) && SameRequests(s, r)
    requires forall w :: 0 <= w < |s.workers| ==> SameRest(s.workers[w], r.workers[w])
    ensures forall id :: 0 <= id < |r.places| ==> HeldAt(r, id, r.places[id]) && RequestFits(r, id)
  {
    forall id | 0 <= id < |r.places| ensures HeldAt(r, id, r.places[id]) && RequestFits(r, id) {
      assert HeldAt(s, id, s.places[id]) && RequestFits(s, id);
    }
  }

  /** The other worker steps move no request. */
  lemma WorkerKeepsInv(s: State, a: Action)
    requires Inv(s) && Enabled(s, a)
    requires a.CheckStop? || a.EndBatch? || a.NextBatch? || a.StopPool?
    ensures Inv(Apply(s, a))
  {
    var r := Apply(s, a);
    if !a.StopPool? { assert WorkerFits(s, a.w); }
    SameResults(s, r);
    SamePlaces(s, r);
    forall v | 0 <= v < |r.workers| ensures WorkerFits(r, v) { assert WorkerFits(s, v); }
  }

  lemma StepKeepsInv(s: State, a: Action)
    requires Inv(s) && Enabled(s, a)
    ensures Inv(Apply(s, a))
  {
    match a
    case Poll(ready) => PollKeepsInv(s, ready);
    case Visit(reply, pushAccepted) => VisitKeepsInv(s, reply, pushAccepted);
    case HandleResponse => ResponseKeepsInv(s);
    case PopTask(w) => PopKeepsInv(s, w);
    case RunTask(w, response) => RunKeepsInv(s, w, response);
    case CheckStop(_) => WorkerKeepsInv(s, a);
    case EndBatch(_) => WorkerKeepsInv(s, a);
    case NextBatch(_) => WorkerKeepsInv(s, a);
    case StopPool => WorkerKeepsInv(s, a);
  }

  lemma {:induction false} RunsKeepInv(s: State, actions: seq<Action>)
    requires Inv(s) && Run(s, actions).Some?
    ensures Inv(Run(s, actions).value)
  {
    if actions != [] {
      RunsKeepInv(s, actions[..|actions| - 1]);
      StepKeepsInv(Run(s, actions[..|actions| - 1]).value, actions[|actions| - 1]);
    }
  }
}
