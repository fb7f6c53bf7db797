/**
 The poll loop of the server on values: the poll set, the sessions, and one pass over the
 entries that poll reported, with removal by moving the last entry into the gap.
 */
module Server {
  import opened Core
  import opened Session

  /** A pollfd: the events asked for and the events reported. Error and hang-up bits are never looked at. */
  datatype PollEntry = PollEntry(fd: int, wantIn: bool, wantOut: bool, gotIn: bool, gotOut: bool)

  datatype ServerState = ServerState(
    listener: int,
    polls: seq<PollEntry>,
    sessions: map<int, ClientSession>,
    nextTraceId: nat)

  /** What the kernel answers during one visit; `unsetIn` and `unsetOut` are the revents left unset by accept. */
  datatype Reply = Reply(accepted: int, unsetIn: bool, unsetOut: bool, recv: Recv, send: Send)

  /** A kernel with nothing to offer. */
  const NOTHING: Reply := Reply(-1, false, false, WouldBlock, SendAgain)

  datatype Ready = Ready(canRead: bool, canWrite: bool)

  /** One pass: the index, the bound, and as history the fds visited and the connections accepted. */
  datatype Pass = Pass(server: ServerState, i: nat, size: nat, visited: seq<int>, accepted: nat)

  datatype Visited = Visited(pass: Pass, task: Option<InferenceTask>)

  predicate SessionsFit(sv: ServerState) {
    forall fd :: fd in sv.sessions ==> SessionFits(sv.sessions[fd])
  }

  ghost predicate PollSetFits(sv: ServerState) {
    && |sv.polls| >= 1 && sv.polls[0].fd == sv.listener && !sv.polls[0].wantOut && sv.listener !in sv.sessions
    && (forall i, j :: 0 <= i < j < |sv.polls| ==> sv.polls[i].fd != sv.polls[j].fd)
    && (forall i :: 1 <= i < |sv.polls| ==> sv.polls[i].fd in sv.sessions)
    && (forall fd :: fd in sv.sessions ==> exists i :: 1 <= i < |sv.polls| && sv.polls[i].fd == fd)
  }

  /** The listener is entry 0; the other entries are distinct and are exactly the open sessions. */
  ghost predicate ServerFits(sv: ServerState) {
    PollSetFits(sv) && SessionsFit(sv)
  }

  function StartServer(listener: int): ServerState {
    ServerState(listener, [PollEntry(listener, true, false, false, false)], map[], 0)
  }

  // ----- the parts of run() -----

  function Interest(s: ClientSession, e: PollEntry): PollEntry {
    e.(wantIn := !s.state.ResponseSending? && !s.state.InferencePending?, wantOut := s.state.ResponseSending?)
  }

  /** Ask for events by the state of each session. */
  function Prepare(sv: ServerState): (r: ServerState)
    requires forall i :: 1 <= i < |sv.polls| ==> sv.polls[i].fd in sv.sessions
  {
    sv.(polls := seq(|sv.polls|, i requires 0 <= i < |sv.polls| =>
      if i == 0 then sv.polls[0] else Interest(sv.sessions[sv.polls[i].fd], sv.polls[i])))
  }

  /** poll reports a requested event or nothing. */
  function Poll(polls: seq<PollEntry>, ready: nat -> Ready): seq<PollEntry> {
    seq(|polls|, i requires 0 <= i < |polls| =>
      polls[i].(gotIn := polls[i].wantIn && ready(i).canRead, gotOut := polls[i].wantOut && ready(i).canWrite))
  }

  function BeginPass(sv: ServerState, ready: nat -> Ready): Pass
    requires forall i :: 1 <= i < |sv.polls| ==> sv.polls[i].fd in sv.sessions
  {
    var prepared := Prepare(sv);
    Pass(prepared.(polls := Poll(prepared.polls, ready)), 0, |sv.polls|, [], 0)
  }

  /** accept: -1 or a descriptor that is not open. */
  predicate Accepts(sv: ServerState, fd: int) {
    fd >= 0 && fd != sv.listener && fd !in sv.sessions
  }

  function HandleNewConnection(sv: ServerState, reply: Reply): ServerState {
    if Accepts(sv, reply.accepted) then
      sv.(polls := sv.polls + [PollEntry(reply.accepted, true, false, reply.unsetIn, reply.unsetOut)],
          sessions := sv.sessions[reply.accepted := NewSession()])
    else sv
  }

  function CloseConnection(sv: ServerState, fd: int, i: nat): ServerState
    requires i < |sv.polls|
  {
    var last := |sv.polls| - 1;
    sv.(polls := sv.polls[i := sv.polls[last]][..last], sessions := sv.sessions - {fd})
  }

  /** What handle_responses does to the session map, result by result. */
  function RespondAll(sessions: map<int, ClientSession>, results: seq<InferenceResult>): map<int, ClientSession> {
    if results == [] then sessions
    else
      var before := RespondAll(sessions, results[..|results| - 1]);
      var r := results[|results| - 1];
      if r.clientFd in before then before[r.clientFd := Respond(before[r.clientFd], r.response)] else before
  }

  predicate Visitable(p: Pass) {
    && p.i < p.size <= |p.server.polls|
    && var e := p.server.polls[p.i];
       (e.gotIn && e.fd != p.server.listener) || (!e.gotIn && e.gotOut) ==>
         e.fd in p.server.sessions && Readable(p.server.sessions[e.fd])
  }

  function Proceed(p: Pass, sv: ServerState): Pass
    requires p.i < |p.server.polls|
  {
    p.(server := sv, i := p.i + 1, visited := p.visited + [p.server.polls[p.i].fd])
  }

  function Drop(p: Pass, sv: ServerState): Pass
    requires p.i < p.size <= |sv.polls| && p.i < |p.server.polls|
  {
    var fd := p.server.polls[p.i].fd;
    Pass(CloseConnection(sv, fd, p.i), p.i, p.size - 1, p.visited + [fd], p.accepted)
  }

  /** The POLLIN branch for a client, given what handling its data came to. */
  function VisitReadable(p: Pass, o: Outcome): Visited
    requires p.i < p.size <= |p.server.polls|
  {
    var after := WithSession(p, o.session);
    if o.submitted.Some? then
      Visited(Proceed(p, after.(nextTraceId := p.server.nextTraceId + 1)),
              Some(InferenceTask(p.server.polls[p.i].fd, o.submitted.value, p.server.nextTraceId)))
    else if o.code <= 0 then Visited(Drop(p, after), None)
    else Visited(Proceed(p, after), None)
  }

  /** The POLLOUT branch. */
  function VisitWritable(p: Pass, send: Send): Pass
    requires Visitable(p) && !p.server.polls[p.i].gotIn && p.server.polls[p.i].gotOut
  {
    var sv := p.server;
    var fd := sv.polls[p.i].fd;
    var r := SendResponse(sv.sessions[fd], send);
    if r.Some? then Proceed(p, WithSession(p, r.value)) else Drop(p, sv)
  }

  /** One iteration of the loop over the poll set. */
  function Visit(p: Pass, reply: Reply): Visited
    requires Visitable(p)
  {
    var sv := p.server;
    var e := sv.polls[p.i];
    if e.gotIn && e.fd == sv.listener then
      Visited(Proceed(p, HandleNewConnection(sv, reply)).(
        accepted := if Accepts(sv, reply.accepted) then p.accepted + 1 else p.accepted), None)
    else if e.gotIn then VisitReadable(p, HandleClientData(sv.sessions[e.fd], reply.recv))
    else if e.gotOut then Visited(VisitWritable(p, reply.send), None)
    else Visited(Proceed(p, sv), None)
  }

  // ----- what a pass keeps -----

  predicate Idle(e: PollEntry) {
    !e.gotIn && !e.gotOut
  }

  predicate QuietIfPending(sv: ServerState, j: nat)
    requires j < |sv.polls|
  {
    var fd := sv.polls[j].fd;
    fd in sv.sessions && sv.sessions[fd].state.InferencePending? ==> Idle(sv.polls[j])
  }

  /** Entries still to be visited: a session waiting for inference has no event to act on. */
  ghost predicate PassFits(p: Pass) {
    && ServerFits(p.server)
    && p.i <= p.size <= |p.server.polls|
    && (p.i == 0 ==> !p.server.polls[0].gotOut)
    && (forall j :: p.i <= j < |p.server.polls| && j >= 1 ==> QuietIfPending(p.server, j))
  }

  /** The poll set is about descriptors: changed events and sessions leave it as it is. */
  lemma SamePollSet(sv: ServerState, r: ServerState)
    requires PollSetFits(sv) && r.listener == sv.listener && r.sessions.Keys == sv.sessions.Keys
    requires |r.polls| == |sv.polls| && forall i :: 0 <= i < |sv.polls| ==> r.polls[i].fd == sv.polls[i].fd
    requires !r.polls[0].wantOut
    ensures PollSetFits(r)
  {
    forall fd | fd in r.sessions ensures exists i :: 1 <= i < |r.polls| && r.polls[i].fd == fd {
      assert fd in sv.sessions.Keys;
      var i :| 1 <= i < |sv.polls| && sv.polls[i].fd == fd;
      assert r.polls[i].fd == fd;
    }
    forall i | 1 <= i < |r.polls| ensures r.polls[i].fd in r.sessions {
      assert sv.polls[i].fd in sv.sessions.Keys;
    }
    assert r.listener in r.sessions <==> r.listener in r.sessions.Keys;
  }

  lemma PrepareKeepsFit(sv: ServerState)
    requires ServerFits(sv)
    ensures ServerFits(Prepare(sv))
  {
    SamePollSet(sv, Prepare(sv));
  }

  /** The entry of a client asks for output exactly when its session sends, and for input exactly when it collects. */
  predicate AsksFor(e: PollEntry, s: ClientSession) {
    && (e.wantOut <==> s.state.ResponseSending?)
    && (e.wantIn <==> s.state.HeaderPending? || s.state.BodyPending?)
  }

  lemma PrepareAsks(sv: ServerState, i: nat)
    requires ServerFits(sv) && 1 <= i < |sv.polls|
    ensures var r := Prepare(sv);
            && r.sessions == sv.sessions && |r.polls| == |sv.polls| && r.polls[i].fd == sv.polls[i].fd
            && r.polls[i].fd in r.sessions && AsksFor(r.polls[i], r.sessions[r.polls[i].fd])
            && r.polls[0] == sv.polls[0]
  {
    assert SessionFits(sv.sessions[sv.polls[i].fd]);
  }

  lemma PassStarts(sv: ServerState, ready: nat -> Ready)
    requires ServerFits(sv)
    ensures PassFits(BeginPass(sv, ready))
  {
    SamePollSet(sv, BeginPass(sv, ready).server);
  }

  lemma PassIsVisitable(p: Pass)
    requires PassFits(p) && p.i < p.size
    ensures Visitable(p)
  {
  }

  /** Replacing the session of an entry leaves the poll set as it is. */
  lemma UpdateKeepsFit(sv: ServerState, fd: int, s: ClientSession)
    requires ServerFits(sv) && fd in sv.sessions && SessionFits(s)
    ensures ServerFits(sv.(sessions := sv.sessions[fd := s]))
  {
    SamePollSet(sv, sv.(sessions := sv.sessions[fd := s]));
  }

  lemma AcceptKeepsFit(sv: ServerState, reply: Reply)
    requires ServerFits(sv)
    ensures ServerFits(HandleNewConnection(sv, reply))
    ensures Accepts(sv, reply.accepted) ==>
              var r := HandleNewConnection(sv, reply);
              && |r.polls| == |sv.polls| + 1 && sv.polls <= r.polls && r.polls[|sv.polls|].fd == reply.accepted
              && r.sessions == sv.sessions[reply.accepted := NewSession()]
              && AsksFor(r.polls[|sv.polls|], NewSession())
    ensures !Accepts(sv, reply.accepted) ==> HandleNewConnection(sv, reply) == sv
  {
    var r := HandleNewConnection(sv, reply);
    if Accepts(sv, reply.accepted) {
      forall g | g in r.sessions ensures exists i :: 1 <= i < |r.polls| && r.polls[i].fd == g {
        if g == reply.accepted {
          assert r.polls[|sv.polls|].fd == g;
        } else {
          var i :| 1 <= i < |sv.polls| && sv.polls[i].fd == g;
          assert r.polls[i].fd == g;
        }
      }
    }
  }

  lemma CloseKeepsFit(sv: ServerState, i: nat)
    requires ServerFits(sv) && 1 <= i < |sv.polls|
    ensures ServerFits(CloseConnection(sv, sv.polls[i].fd, i))
  {
    var r, last := CloseConnection(sv, sv.polls[i].fd, i), |sv.polls| - 1;
    forall g | g in r.sessions ensures exists k :: 1 <= k < |r.polls| && r.polls[k].fd == g {
      var k :| 1 <= k < |sv.polls| && sv.polls[k].fd == g;
      assert k != i;
      assert r.polls[if k == last then i else k].fd == g;
    }
  }

  /** A visit keeps every session in a legal state, and closes only one that is not waiting for inference. */
  lemma ReadVisitFits(s: ClientSession, r: Recv)
    requires SessionFits(s)
    ensures var o := HandleClientData(s, r);
            && SessionFits(o.session)
            && (o.submitted.Some? ==> o.code > 0 && s.state.BodyPending? && o.session.state.InferencePending?)
            && (o.code <= 0 ==> !s.state.InferencePending?)
            && (o.submitted.None? && !s.state.InferencePending? ==> !o.session.state.InferencePending?)
            && (s.state.InferencePending? ==> o == Outcome(s, 1, [], None))
  {
  }

  /** `after` differs from the state before the visit in nothing but the visited session. */
  predicate OnlyVisited(p: Pass, after: ServerState)
    requires p.i < |p.server.polls|
  {
    && after.polls == p.server.polls
    && forall fd :: fd in after.sessions && fd != p.server.polls[p.i].fd ==>
         fd in p.server.sessions && after.sessions[fd] == p.server.sessions[fd]
  }

  lemma ProceedFits(p: Pass, after: ServerState)
    requires PassFits(p) && p.i < p.size && ServerFits(after) && OnlyVisited(p, after)
    ensures PassFits(Proceed(p, after))
  {
    forall j | p.i < j < |after.polls| ensures QuietIfPending(after, j) {
      assert QuietIfPending(p.server, j);
    }
  }

  lemma DropFits(p: Pass, after: ServerState)
    requires PassFits(p) && 1 <= p.i < p.size && ServerFits(after) && OnlyVisited(p, after)
    ensures PassFits(Drop(p, after))
  {
    CloseKeepsFit(after, p.i);
    var dropped := Drop(p, after).server;
    var last := |dropped.polls|;
    forall j | p.i <= j < last ensures QuietIfPending(dropped, j) {
      assert QuietIfPending(p.server, if j == p.i then last else j);
    }
  }

  lemma AcceptVisitFits(p: Pass, reply: Reply)
    requires PassFits(p) && p.i < p.size && p.server.polls[p.i].fd == p.server.listener
    ensures PassFits(Proceed(p, HandleNewConnection(p.server, reply)))
  {
    var r := HandleNewConnection(p.server, reply);
    AcceptKeepsFit(p.server, reply);
    forall j | p.i < j < |r.polls| ensures QuietIfPending(r, j) {
      if j < |p.server.polls| { assert QuietIfPending(p.server, j); }
    }
  }

  function WithSession(p: Pass, s: ClientSession): ServerState
    requires p.i < |p.server.polls|
  {
    p.server.(sessions := p.server.sessions[p.server.polls[p.i].fd := s])
  }

  lemma VisitedSessionFits(p: Pass, s: ClientSession)
    requires PassFits(p) && 1 <= p.i < p.size && SessionFits(s)
    ensures ServerFits(WithSession(p, s)) && OnlyVisited(p, WithSession(p, s))
  {
    UpdateKeepsFit(p.server, p.server.polls[p.i].fd, s);
  }

  lemma SubmittingVisitFits(p: Pass, s: ClientSession)
    requires PassFits(p) && 1 <= p.i < p.size && SessionFits(s)
    ensures PassFits(Proceed(p, WithSession(p, s).(nextTraceId := p.server.nextTraceId + 1)))
  {
    VisitedSessionFits(p, s);
    CountKeepsFit(WithSession(p, s));
    ProceedFits(p, WithSession(p, s).(nextTraceId := p.server.nextTraceId + 1));
  }

  lemma ReadableVisitFits(p: Pass, o: Outcome)
    requires PassFits(p) && 1 <= p.i < p.size && SessionFits(o.session)
    ensures PassFits(VisitReadable(p, o).pass)
  {
    var after := WithSession(p, o.session);
    if o.submitted.Some? {
      SubmittingVisitFits(p, o.session);
    } else if o.code <= 0 {
      VisitedSessionFits(p, o.session);
      DropFits(p, after);
    } else {
      VisitedSessionFits(p, o.session);
      ProceedFits(p, after);
    }
  }

  lemma WritableVisitFits(p: Pass, send: Send)
    requires PassFits(p) && p.i < p.size && Visitable(p)
    requires !p.server.polls[p.i].gotIn && p.server.polls[p.i].gotOut
    ensures PassFits(VisitWritable(p, send))
  {
    var sv, fd := p.server, p.server.polls[p.i].fd;
    var o := SendResponse(sv.sessions[fd], send);
    if o.Some? {
      VisitedSessionFits(p, o.value);
      ProceedFits(p, WithSession(p, o.value));
    } else {
      DropFits(p, sv);
    }
  }

  lemma VisitKeepsFit(p: Pass, reply: Reply)
    requires PassFits(p) && p.i < p.size
    ensures Visitable(p) && PassFits(Visit(p, reply).pass)
  {
    PassIsVisitable(p);
    var sv, e := p.server, p.server.polls[p.i];
    if e.gotIn && e.fd == sv.listener {
      AcceptVisitFits(p, reply);
    } else if e.gotIn {
      ReadVisitFits(sv.sessions[e.fd], reply.recv);
      ReadableVisitFits(p, HandleClientData(sv.sessions[e.fd], reply.recv));
    } else if e.gotOut {
      WritableVisitFits(p, reply.send);
    } else {
      ProceedFits(p, sv);
    }
  }

  lemma CountKeepsFit(sv: ServerState)
    requires ServerFits(sv)
    ensures ServerFits(sv.(nextTraceId := sv.nextTraceId + 1))
  {
    SamePollSet(sv, sv.(nextTraceId := sv.nextTraceId + 1));
  }

  // ----- a whole pass -----

  /** The rest of a pass; `kernel(k)` is what the kernel answers at the k-th visit. */
  ghost function RunPass(p: Pass, kernel: nat -> Reply, k: nat): (r: Pass)
    requires PassFits(p)
    ensures PassFits(r) && r.i == r.size
    decreases p.size - p.i
  {
    if p.i == p.size then p
    else
      VisitKeepsFit(p, kernel(k));
      RunPass(Visit(p, kernel(k)).pass, kernel, k + 1)
  }

  function Submitted(v: Visited): seq<InferenceTask> {
    if v.task.Some? then [v.task.value] else []
  }

  /** The tasks that the rest of a pass hands to push, in order. */
  ghost function PassTasks(p: Pass, kernel: nat -> Reply, k: nat): seq<InferenceTask>
    requires PassFits(p)
    decreases p.size - p.i
  {
    if p.i == p.size then []
    else
      VisitKeepsFit(p, kernel(k));
      Submitted(Visit(p, kernel(k))) + PassTasks(Visit(p, kernel(k)).pass, kernel, k + 1)
  }

  lemma PassUnfolds(p: Pass, kernel: nat -> Reply, k: nat)
    requires PassFits(p) && p.i < p.size
    ensures Visitable(p) && PassFits(Visit(p, kernel(k)).pass)
    ensures var v := Visit(p, kernel(k));
            && RunPass(p, kernel, k) == RunPass(v.pass, kernel, k + 1)
            && PassTasks(p, kernel, k) == Submitted(v) + PassTasks(v.pass, kernel, k + 1)
  {
    VisitKeepsFit(p, kernel(k));
  }

  /** A pass that began at `start` has come to p after k visits and has submitted `tasks`. */
  ghost predicate OnCourse(start: Pass, kernel: nat -> Reply, p: Pass, k: nat, tasks: seq<InferenceTask>) {
    && PassFits(start) && PassFits(p)
    && RunPass(start, kernel, 0) == RunPass(p, kernel, k)
    && PassTasks(start, kernel, 0) == tasks + PassTasks(p, kernel, k)
  }

  lemma OnCourseStep(start: Pass, kernel: nat -> Reply, p: Pass, k: nat, tasks: seq<InferenceTask>)
    requires OnCourse(start, kernel, p, k, tasks) && p.i < p.size
    ensures Visitable(p)
    ensures var v := Visit(p, kernel(k)); OnCourse(start, kernel, v.pass, k + 1, tasks + Submitted(v))
  {
    PassUnfolds(p, kernel, k);
    var v := Visit(p, kernel(k));
    Regroup(tasks, Submitted(v), PassTasks(v.pass, kernel, k + 1));
  }

  lemma Regroup(a: seq<InferenceTask>, b: seq<InferenceTask>, c: seq<InferenceTask>)
    ensures a + (b + c) == a + b + c
  {
  }

  lemma OnCourseEnd(start: Pass, kernel: nat -> Reply, p: Pass, k: nat, tasks: seq<InferenceTask>)
    requires OnCourse(start, kernel, p, k, tasks) && p.i == p.size
    ensures RunPass(start, kernel, 0) == p && PassTasks(start, kernel, 0) == tasks
  {
  }

  // ----- what a visit does to the sessions -----

  predicate Pending(sv: ServerState, fd: int) {
    fd in sv.sessions && sv.sessions[fd].state.InferencePending?
  }

  /**
   A visit leaves every session that waits for inference alone. It submits only for a
   session that was not waiting and is afterwards, and only accept opens a session.
   */
  lemma VisitEffects(p: Pass, reply: Reply)
    requires PassFits(p) && p.i < p.size && Visitable(p)
    ensures var sv, v := p.server, Visit(p, reply);
            var after := v.pass.server;
            && (forall fd :: Pending(sv, fd) ==> fd in after.sessions && after.sessions[fd] == sv.sessions[fd])
            && (forall fd :: fd in after.sessions && fd !in sv.sessions ==>
                  fd == reply.accepted && v.pass.accepted == p.accepted + 1 && !Pending(after, fd))
            && (v.pass.accepted != p.accepted ==> Accepts(sv, reply.accepted) && v.task.None?)
            && (v.task.None? ==> after.nextTraceId == sv.nextTraceId)
            && (v.task.Some? ==>
                  && v.task.value.requestId == sv.nextTraceId && after.nextTraceId == sv.nextTraceId + 1
                  && v.task.value.clientFd in sv.sessions && !Pending(sv, v.task.value.clientFd)
                  && Pending(after, v.task.value.clientFd))
  {
    var sv, e := p.server, p.server.polls[p.i];
    if p.i >= 1 {
      assert QuietIfPending(sv, p.i);
      ReadVisitFits(sv.sessions[e.fd], reply.recv);
    }
  }
}
