/** The server object: its poll set and session map changed in place by the handlers and by the loop in run(). */
module TcpServerClass {
  import opened Core
  import opened Session
  import opened Server

  /** Handling the data of one client keeps the poll set in step with the sessions. */
  lemma HandledFits(sv: ServerState, fd: int, recv: Recv)
    requires ServerFits(sv) && fd in sv.sessions
    ensures var o := Session.HandleClientData(sv.sessions[fd], recv);
            var after := sv.(sessions := sv.sessions[fd := o.session]);
            ServerFits(after) && ServerFits(after.(nextTraceId := sv.nextTraceId + 1))
  {
    ReadVisitFits(sv.sessions[fd], recv);
    var o := Session.HandleClientData(sv.sessions[fd], recv);
    UpdateKeepsFit(sv, fd, o.session);
    CountKeepsFit(sv.(sessions := sv.sessions[fd := o.session]));
  }

  class TCPServer {
    const sockfd: int
    var pollfds: seq<PollEntry>
    var sessions: map<int, ClientSession>
    var traceIdGen: nat
    /** The tasks handed to push, in order. */
    var submitted: seq<InferenceTask>

    ghost function View(): ServerState
      reads this
    {
      ServerState(sockfd, pollfds, sessions, traceIdGen)
    }

    /** The listener is entry 0 and the other entries are exactly the open sessions. */
    ghost predicate Valid()
      reads this
    {
      ServerFits(View())
    }

    constructor (listener: int)
      ensures Valid() && View() == StartServer(listener) && submitted == []
    {
      sockfd := listener;
      pollfds := [PollEntry(listener, true, false, false, false)];
      sessions, traceIdGen, submitted := map[], 0, [];
    }

    method HandleNewConnection(reply: Reply) returns (accepted: bool)
      requires Valid()
      modifies this
      ensures Valid() && View() == Server.HandleNewConnection(old(View()), reply) && submitted == old(submitted)
      ensures accepted == Accepts(old(View()), reply.accepted)
    {
      AcceptKeepsFit(View(), reply);
      var fd := reply.accepted;
      accepted := fd >= 0 && fd != sockfd && fd !in sessions;
      if !accepted { return; }
      pollfds := pollfds + [PollEntry(fd, true, false, reply.unsetIn, reply.unsetOut)];
      sessions := sessions[fd := NewSession()];
    }

    /** What handling data of one client may change, given the outcome for its session. */
    twostate predicate Follows(fd: int, o: Outcome)
      reads this
    {
      && pollfds == old(pollfds)
      && sessions == old(sessions)[fd := o.session]
      && submitted == old(submitted) + (if o.submitted.Some?
           then [InferenceTask(fd, o.submitted.value, old(traceIdGen))] else [])
      && traceIdGen == old(traceIdGen) + (if o.submitted.Some? then 1 else 0)
    }

    method ProcessHeader(fd: int, recv: Recv) returns (code: int)
      requires fd in sessions && |sessions[fd].header| < HEADER_SIZE
      modifies this`sessions
      ensures var o := Session.ProcessHeader(old(sessions)[fd], recv); code == o.code && Follows(fd, o)
    {
      var s := sessions[fd];
      assert sessions == sessions[fd := s];
      if recv.EndOfStream? { return 0; }
      if !recv.Data? { return -1; }
      var taken := Take(recv.offered, HEADER_SIZE - |s.header|);
      s := s.(header := s.header + taken);
      code := |taken|;
      if |s.header| == HEADER_SIZE {
        s := s.(state := BodyPending);
        s := s.(expectedSize := FromNetwork(s.header));
        s := s.(body := seq(s.expectedSize, _ => 0));
        code := 1;
      }
      sessions := sessions[fd := s];
    }

    method ProcessBody(fd: int, recv: Recv) returns (code: int)
      requires fd in sessions && sessions[fd].bytesReceived <= sessions[fd].expectedSize == |sessions[fd].body|
      modifies this
      ensures var o := Session.ProcessBody(old(sessions)[fd], recv); code == o.code && Follows(fd, o)
    {
      var s := sessions[fd];
      assert sessions == sessions[fd := s];
      if |s.body| <= 0 { return -1; }
      if recv.WouldBlock? { return 1; }
      if recv.RecvFailed? { return -1; }
      if recv.EndOfStream? { return 0; }
      var taken := Take(recv.offered, s.expectedSize - s.bytesReceived);
      if taken == [] { return 0; }
      s := s.(body := s.body[..s.bytesReceived] + taken + s.body[s.bytesReceived + |taken|..]);
      s := s.(bytesReceived := s.bytesReceived + |taken|);
      code := |taken|;
      if s.bytesReceived == s.expectedSize {
        s := s.(state := ReadyForInference);
        sessions := sessions[fd := s];
        code := FinalizeRequest(fd);
      } else {
        sessions := sessions[fd := s];
      }
    }

    /** The body moves into a task with the next trace id; the answer of push is not looked at. */
    method FinalizeRequest(fd: int) returns (code: int)
      requires fd in sessions
      modifies this
      ensures var o := Finalize(old(sessions)[fd], []); code == o.code && Follows(fd, o)
    {
      var s := sessions[fd];
      submitted := submitted + [InferenceTask(fd, s.body, traceIdGen)];
      traceIdGen := traceIdGen + 1;
      sessions := sessions[fd := s.(body := [], state := InferencePending)];
      code := 1;
    }

    /** The session switch. */
    method SwitchOnState(fd: int, recv: Recv) returns (code: int)
      requires fd in sessions && Readable(sessions[fd])
      modifies this
      ensures var o := Session.HandleClientData(old(sessions)[fd], recv); code == o.code && Follows(fd, o)
    {
      var state := sessions[fd].state;
      if state.HeaderPending? {
        code := ProcessHeader(fd, recv);
      } else if state.BodyPending? {
        code := ProcessBody(fd, recv);
      } else if state.ReadyForInference? {
        code := FinalizeRequest(fd);
      } else {
        assert sessions == sessions[fd := sessions[fd]];
        code := 1;
      }
    }

    /** Data of a client is handled, and a completed body becomes a task. */
    method HandleClientData(fd: int, recv: Recv) returns (code: int)
      requires Valid() && fd in sessions
      modifies this
      ensures Valid()
      ensures var o := Session.HandleClientData(old(sessions)[fd], recv); code == o.code && Follows(fd, o)
    {
      HandledFits(View(), fd, recv);
      code := SwitchOnState(fd, recv);
    }

    method CloseConnection(fd: int, i: nat)
      requires Valid() && 1 <= i < |pollfds| && pollfds[i].fd == fd
      modifies this
      ensures Valid() && View() == Server.CloseConnection(old(View()), fd, i) && submitted == old(submitted)
      ensures fd !in sessions && |pollfds| == old(|pollfds|) - 1
    {
      CloseKeepsFit(View(), i);
      pollfds := pollfds[i := pollfds[|pollfds| - 1]];
      pollfds := pollfds[..|pollfds| - 1];
      sessions := sessions - {fd};
    }

    /** Pop results until the queue is empty; the session that has the descriptor starts sending. */
    method HandleResponses(results: seq<InferenceResult>)
      requires Valid()
      modifies this
      ensures Valid() && pollfds == old(pollfds) && traceIdGen == old(traceIdGen) && submitted == old(submitted)
      ensures sessions == RespondAll(old(sessions), results)
    {
      for i := 0 to |results|
        invariant Valid() && pollfds == old(pollfds) && traceIdGen == old(traceIdGen) && submitted == old(submitted)
        invariant sessions == RespondAll(old(sessions), results[..i])
      {
        assert results[..i + 1][..i] == results[..i];
        var fd := results[i].clientFd;
        if fd in sessions {
          UpdateKeepsFit(View(), fd, Respond(sessions[fd], results[i].response));
          sessions := sessions[fd := Respond(sessions[fd], results[i].response)];
        }
      }
      assert results[..|results|] == results;
    }

    /** The first loop of run(): ask for events by session state. */
    method PreparePoll()
      requires Valid()
      modifies this`pollfds
      ensures Valid() && View() == Prepare(old(View()))
      ensures forall i :: 1 <= i < |pollfds| ==> AsksFor(pollfds[i], sessions[pollfds[i].fd])
    {
      ghost var before := View();
      var i := 1;
      while i < |pollfds|
        invariant 1 <= i <= |pollfds| == |before.polls|
        invariant forall j :: 0 <= j < |pollfds| ==>
                    pollfds[j] == if j < i then Prepare(before).polls[j] else before.polls[j]
      {
        var s := sessions[pollfds[i].fd];
        pollfds := pollfds[i := pollfds[i].(
          wantIn := !s.state.ResponseSending? && !s.state.InferencePending?, wantOut := s.state.ResponseSending?)];
        i := i + 1;
      }
      assert pollfds == Prepare(before).polls;
      PrepareKeepsFit(before);
      forall j | 1 <= j < |pollfds| ensures AsksFor(pollfds[j], sessions[pollfds[j].fd]) { PrepareAsks(before, j); }
    }

    /** One iteration of run() after the responses: ask, poll, and serve what poll reported. */
    method ServicePass(ready: nat -> Ready, kernel: nat -> Reply)
      requires Valid()
      modifies this
      ensures Valid()
      ensures PassFits(BeginPass(old(View()), ready))
      ensures View() == RunPass(BeginPass(old(View()), ready), kernel, 0).server
      ensures submitted == old(submitted) + PassTasks(BeginPass(old(View()), ready), kernel, 0)
    {
      PassStarts(View(), ready);
      ghost var p := BeginPass(View(), ready);
      PreparePoll();
      pollfds := Server.Poll(pollfds, ready);
      assert View() == p.server;
      ServeEntries(kernel, p);
    }

    /** The second loop of run(), which removes closed entries while iterating. */
    method ServeEntries(kernel: nat -> Reply, ghost start: Pass)
      requires View() == start.server && PassFits(start) && start.i == 0 && start.size == |pollfds|
      modifies this
      ensures View() == RunPass(start, kernel, 0).server
      ensures submitted == old(submitted) + PassTasks(start, kernel, 0)
    {
      ghost var p, tasks := start, [];
      var currentSize, i, k := |pollfds|, 0, 0;
      while i < currentSize
        invariant View() == p.server && p.i == i && p.size == currentSize && i <= currentSize
        invariant OnCourse(start, kernel, p, k, tasks) && submitted == old(submitted) + tasks
        decreases currentSize - i
      {
        var closed;
        closed, p, tasks := ServeNext(i, kernel, k, start, p, old(submitted), tasks);
        if closed { currentSize := currentSize - 1; } else { i := i + 1; }
        k := k + 1;
      }
      OnCourseEnd(start, kernel, p, k, tasks);
    }

    method ServeNext(i: nat, kernel: nat -> Reply, k: nat, ghost start: Pass, ghost p: Pass,
                     ghost before: seq<InferenceTask>, ghost tasks: seq<InferenceTask>)
      returns (closed: bool, ghost next: Pass, ghost more: seq<InferenceTask>)
      requires OnCourse(start, kernel, p, k, tasks) && View() == p.server && p.i == i < p.size
      requires submitted == before + tasks
      modifies this
      ensures OnCourse(start, kernel, next, k + 1, more) && View() == next.server
      ensures next.size == (if closed then p.size - 1 else p.size) && next.i == (if closed then i else i + 1)
      ensures submitted == before + more
    {
      OnCourseStep(start, kernel, p, k, tasks);
      closed := VisitEntry(i, kernel(k), p);
      next := Server.Visit(p, kernel(k)).pass;
      more := tasks + Submitted(Server.Visit(p, kernel(k)));
    }

    /** A client entry with data: handle it, and close the connection if that fails. */
    method ReadEntry(i: nat, recv: Recv, ghost p: Pass) returns (closed: bool)
      requires View() == p.server && PassFits(p) && 1 <= p.i == i < p.size
      modifies this
      ensures var v := VisitReadable(p, Session.HandleClientData(old(sessions)[old(pollfds)[i].fd], recv));
              && View() == v.pass.server && submitted == old(submitted) + Submitted(v)
              && v.pass.size == (if closed then p.size - 1 else p.size) && v.pass.i == (if closed then i else i + 1)
    {
      var fd := pollfds[i].fd;
      ReadVisitFits(sessions[fd], recv);
      var code := HandleClientData(fd, recv);
      closed := code <= 0;
      if closed { CloseConnection(fd, i); }
    }

    /** The body of the second loop for entry i. */
    method VisitEntry(i: nat, reply: Reply, ghost p: Pass) returns (closed: bool)
      requires View() == p.server && PassFits(p) && p.i == i < p.size && Visitable(p)
      requires PassFits(Server.Visit(p, reply).pass)
      modifies this
      ensures View() == Server.Visit(p, reply).pass.server
      ensures submitted == old(submitted) + Submitted(Server.Visit(p, reply))
      ensures Server.Visit(p, reply).pass.size == (if closed then p.size - 1 else p.size)
      ensures Server.Visit(p, reply).pass.i == (if closed then i else i + 1)
    {
      closed := false;
      var fd := pollfds[i].fd;
      if pollfds[i].gotIn {
        if fd == sockfd {
          var _ := HandleNewConnection(reply);
        } else {
          closed := ReadEntry(i, reply.recv, p);
        }
      } else if pollfds[i].gotOut {
        var after := SendResponse(sessions[fd], reply.send);
        if after.Some? {
          sessions := sessions[fd := after.value];
        } else {
          CloseConnection(fd, i);
          closed := true;
        }
      }
    }
  }
}
