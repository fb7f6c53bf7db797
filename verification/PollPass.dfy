/**
 A whole pass of the poll loop: no descriptor is visited twice, and which polled entry can be
 missed, exactly when.
 */
module PollPass {
  import opened Core
  import opened Session
  import opened Server

  ghost predicate ToCome(p: Pass, fd: int) {
    exists j :: p.i <= j < |p.server.polls| && p.server.polls[j].fd == fd
  }

  /** Nobody is visited twice, and an fd that was polled has been visited or is still in the list. */
  ghost predicate VisitsFit(p: Pass, polled: seq<PollEntry>) {
    && (forall a, b :: 0 <= a < b < |p.visited| ==> p.visited[a] != p.visited[b])
    && (forall j :: p.i <= j < |p.server.polls| ==> p.server.polls[j].fd !in p.visited)
    && |p.server.polls| == p.size + p.accepted && p.accepted <= 1
    && (p.i == 0 ==> p.visited == [] && p.accepted == 0)
    && (forall k :: 0 <= k < |polled| ==> polled[k].fd in p.visited || ToCome(p, polled[k].fd))
  }

  lemma PollSetDistinct(p: Pass, j: nat)
    requires PassFits(p) && p.i < p.size && j < |p.server.polls| && j != p.i
    ensures p.server.polls[j].fd != p.server.polls[p.i].fd
  {
  }

  lemma ProceedVisits(p: Pass, after: ServerState, accepted: nat, polled: seq<PollEntry>)
    requires PassFits(p) && p.i < p.size && VisitsFit(p, polled)
    requires accepted == p.accepted || (p.i == 0 && accepted == 1)
    requires |after.polls| == p.size + accepted && p.server.polls <= after.polls
    requires accepted != p.accepted ==> !ToCome(p, after.polls[p.size].fd)
    ensures VisitsFit(Proceed(p, after).(accepted := accepted), polled)
  {
    var r, fd := Proceed(p, after).(accepted := accepted), p.server.polls[p.i].fd;
    forall j | r.i <= j < |r.server.polls| ensures r.server.polls[j].fd !in r.visited {
      if j < |p.server.polls| { PollSetDistinct(p, j); } else { assert j == p.size; }
    }
    forall k | 0 <= k < |polled| ensures polled[k].fd in r.visited || ToCome(r, polled[k].fd) {
      if polled[k].fd !in p.visited && polled[k].fd != fd {
        var j :| p.i <= j < |p.server.polls| && p.server.polls[j].fd == polled[k].fd;
        assert r.server.polls[j].fd == polled[k].fd;
      } else {
        assert fd == r.visited[|p.visited|];
      }
    }
  }

  lemma DropVisits(p: Pass, after: ServerState, polled: seq<PollEntry>)
    requires PassFits(p) && 1 <= p.i < p.size && VisitsFit(p, polled) && after.polls == p.server.polls
    ensures VisitsFit(Drop(p, after), polled)
  {
    var r, last := Drop(p, after), |p.server.polls| - 1;
    forall j | r.i <= j < |r.server.polls| ensures r.server.polls[j].fd !in r.visited {
      PollSetDistinct(p, if j == p.i then last else j);
    }
    forall k | 0 <= k < |polled| ensures polled[k].fd in r.visited || ToCome(r, polled[k].fd) {
      DropLosesNone(p, after, polled[k].fd);
    }
  }

  /** A descriptor that was visited or to come still is when entry i has been dropped. */
  lemma DropLosesNone(p: Pass, after: ServerState, fd: int)
    requires p.i < p.size <= |p.server.polls| && after.polls == p.server.polls
    requires fd in p.visited || ToCome(p, fd)
    ensures fd in Drop(p, after).visited || ToCome(Drop(p, after), fd)
  {
    var r, last := Drop(p, after), |p.server.polls| - 1;
    if fd !in p.visited && fd != p.server.polls[p.i].fd {
      var j :| p.i <= j < |p.server.polls| && p.server.polls[j].fd == fd;
      assert r.server.polls[if j == last then p.i else j].fd == fd;
    } else {
      assert p.server.polls[p.i].fd == r.visited[|p.visited|];
    }
  }

  /** The visit of a client leaves the descriptors alone and either goes on or drops the entry. */
  lemma ClientVisit(p: Pass, reply: Reply) returns (after: ServerState, dropped: bool)
    requires PassFits(p) && 1 <= p.i < p.size && Visitable(p)
    ensures after.polls == p.server.polls && after.sessions.Keys == p.server.sessions.Keys
    ensures Visit(p, reply).pass == (if dropped then Drop(p, after) else Proceed(p, after))
  {
    var sv, e := p.server, p.server.polls[p.i];
    after, dropped := sv, false;
    if e.gotIn {
      var o := HandleClientData(sv.sessions[e.fd], reply.recv);
      after, dropped := WithSession(p, o.session), o.submitted.None? && o.code <= 0;
      if o.submitted.Some? { after := after.(nextTraceId := sv.nextTraceId + 1); }
    } else if e.gotOut {
      var o := SendResponse(sv.sessions[e.fd], reply.send);
      if o.Some? { after := WithSession(p, o.value); } else { dropped := true; }
    }
  }

  /** The visit of the listener goes on, with or without a new entry at the end. */
  function CountAccepted(p: Pass, reply: Reply): nat
    requires p.i < |p.server.polls|
  {
    if p.server.polls[p.i].gotIn && Accepts(p.server, reply.accepted) then p.accepted + 1 else p.accepted
  }

  lemma ListenerVisit(p: Pass, reply: Reply) returns (after: ServerState)
    requires PassFits(p) && p.i == 0 < p.size && Visitable(p)
    ensures Visit(p, reply).pass == Proceed(p, after).(accepted := CountAccepted(p, reply))
    ensures after == (if p.server.polls[0].gotIn then HandleNewConnection(p.server, reply) else p.server)
  {
    after := if p.server.polls[0].gotIn then HandleNewConnection(p.server, reply) else p.server;
  }

  lemma VisitKeepsVisits(p: Pass, reply: Reply, polled: seq<PollEntry>)
    requires PassFits(p) && p.i < p.size && VisitsFit(p, polled) && Visitable(p)
    ensures VisitsFit(Visit(p, reply).pass, polled)
  {
    if p.i == 0 {
      var after := ListenerVisit(p, reply);
      ProceedVisits(p, after, CountAccepted(p, reply), polled);
    } else {
      var after, dropped := ClientVisit(p, reply);
      if dropped { DropVisits(p, after, polled); } else { ProceedVisits(p, after, p.accepted, polled); }
    }
  }

  lemma {:induction false} RunKeepsVisits(p: Pass, kernel: nat -> Reply, k: nat, polled: seq<PollEntry>)
    requires PassFits(p) && VisitsFit(p, polled)
    ensures VisitsFit(RunPass(p, kernel, k), polled)
    decreases p.size - p.i
  {
    if p.i != p.size {
      VisitKeepsFit(p, kernel(k));
      VisitKeepsVisits(p, kernel(k), polled);
      RunKeepsVisits(Visit(p, kernel(k)).pass, kernel, k + 1, polled);
    }
  }

  /**
   A pass keeps the poll set in step with the sessions and visits no descriptor twice. It
   misses at most one polled entry, and only if it accepted a connection; without an
   accepted connection every polled entry is visited exactly once.
   */
  lemma PassVisitsOnce(sv: ServerState, ready: nat -> Ready, kernel: nat -> Reply)
    requires ServerFits(sv)
    ensures PassFits(BeginPass(sv, ready))
    ensures var p := RunPass(BeginPass(sv, ready), kernel, 0);
            && ServerFits(p.server)
            && (forall a, b :: 0 <= a < b < |p.visited| ==> p.visited[a] != p.visited[b])
            && (forall a, b :: 0 <= a < b < |sv.polls| ==> sv.polls[a].fd in p.visited || sv.polls[b].fd in p.visited)
            && (p.accepted == 0 ==> forall a :: 0 <= a < |sv.polls| ==> sv.polls[a].fd in p.visited)
  {
    PassStarts(sv, ready);
    VisitsStart(sv, ready);
    RunKeepsVisits(BeginPass(sv, ready), kernel, 0, sv.polls);
    VisitsEnd(RunPass(BeginPass(sv, ready), kernel, 0), sv.polls);
  }

  lemma VisitsStart(sv: ServerState, ready: nat -> Ready)
    requires ServerFits(sv) && PassFits(BeginPass(sv, ready))
    ensures VisitsFit(BeginPass(sv, ready), sv.polls)
  {
    var p := BeginPass(sv, ready);
    forall k | 0 <= k < |sv.polls| ensures ToCome(p, sv.polls[k].fd) {
      assert p.server.polls[k].fd == sv.polls[k].fd;
    }
  }

  lemma VisitsEnd(p: Pass, polled: seq<PollEntry>)
    requires PassFits(p) && p.i == p.size && VisitsFit(p, polled)
    requires forall a, b :: 0 <= a < b < |polled| ==> polled[a].fd != polled[b].fd
    ensures forall a, b :: 0 <= a < b < |polled| ==> polled[a].fd in p.visited || polled[b].fd in p.visited
    ensures p.accepted == 0 ==> forall a :: 0 <= a < |polled| ==> polled[a].fd in p.visited
  {
  }

  // ----- which entry a pass misses -----

  predicate Polled(polled: seq<PollEntry>, fd: int) {
    exists a :: 0 <= a < |polled| && polled[a].fd == fd
  }

  /** A client other than the last polled entry has been closed. */
  predicate ClosedEarly(sv: ServerState, polled: seq<PollEntry>) {
    exists a :: 1 <= a < |polled| - 1 && polled[a].fd !in sv.sessions
  }

  /** Nothing has moved: the polled entries are where they were, and the new one, if any, waits behind them. */
  predicate InPlace(p: Pass, polled: seq<PollEntry>) {
    && p.size <= |p.server.polls| && p.size <= |polled|
    && (p.size == |polled| || (p.size == |polled| - 1 && p.i == p.size))
    && (forall j :: 0 <= j < p.size ==> p.server.polls[j].fd == polled[j].fd)
    && (p.accepted == 1 ==> p.size < |p.server.polls| && !Polled(polled, p.server.polls[p.size].fd))
    && !ClosedEarly(p.server, polled)
  }

  /** The new entry has been moved forward, and a polled entry lies behind the bound instead. */
  predicate Displaced(p: Pass, polled: seq<PollEntry>) {
    && p.size < |p.server.polls| && p.i <= p.size
    && (forall j :: p.i < j <= p.size ==> Polled(polled, p.server.polls[j].fd))
    && Polled(polled, p.server.polls[p.size].fd)
    && ClosedEarly(p.server, polled)
  }

  predicate OrderFits(p: Pass, polled: seq<PollEntry>) {
    && (p.i == 0 ==> p.accepted == 0 && InPlace(p, polled))
    && (p.accepted == 1 ==> InPlace(p, polled) || Displaced(p, polled))
  }

  predicate Distinct(polled: seq<PollEntry>) {
    forall a, b :: 0 <= a < b < |polled| ==> polled[a].fd != polled[b].fd
  }

  lemma ListenerKeepsOrder(p: Pass, reply: Reply, polled: seq<PollEntry>)
    requires PassFits(p) && p.i == 0 < p.size && Visitable(p) && VisitsFit(p, polled) && OrderFits(p, polled)
    ensures OrderFits(Visit(p, reply).pass, polled)
  {
    var after := ListenerVisit(p, reply);
    var r := Visit(p, reply).pass;
    if r.accepted == 1 {
      assert !Polled(polled, reply.accepted) by {
        forall a | 0 <= a < |polled| ensures polled[a].fd != reply.accepted {
          assert p.server.polls[a].fd == polled[a].fd;
        }
      }
      forall a | 1 <= a < |polled| - 1 ensures polled[a].fd in r.server.sessions {
        assert polled[a].fd in p.server.sessions;
      }
    }
  }

  lemma ProceedKeepsOrder(p: Pass, after: ServerState, polled: seq<PollEntry>)
    requires PassFits(p) && 1 <= p.i < p.size && VisitsFit(p, polled) && OrderFits(p, polled)
    requires after.polls == p.server.polls && after.sessions.Keys == p.server.sessions.Keys
    ensures OrderFits(Proceed(p, after), polled)
  {
    var r := Proceed(p, after);
    assert ClosedEarly(r.server, polled) <==> ClosedEarly(p.server, polled) by {
      assert forall fd :: fd in after.sessions <==> fd in after.sessions.Keys;
      assert forall fd :: fd in p.server.sessions <==> fd in p.server.sessions.Keys;
    }
  }

  /** Removing an entry before the last one displaces; removing the last one ends the pass in place. */
  lemma DropKeepsOrder(p: Pass, after: ServerState, polled: seq<PollEntry>)
    requires PassFits(p) && 1 <= p.i < p.size && VisitsFit(p, polled) && OrderFits(p, polled) && Distinct(polled)
    requires after.polls == p.server.polls && after.sessions.Keys == p.server.sessions.Keys
    ensures OrderFits(Drop(p, after), polled)
  {
    var r, fd := Drop(p, after), p.server.polls[p.i].fd;
    if p.accepted == 1 {
      assert forall g :: g in r.server.sessions <==> g in p.server.sessions && g != fd by {
        assert forall g :: g in after.sessions <==> g in after.sessions.Keys;
        assert forall g :: g in p.server.sessions <==> g in p.server.sessions.Keys;
      }
      if Displaced(p, polled) {
        DropDisplaced(p, r, polled);
      } else if p.i < p.size - 1 {
        assert polled[p.i].fd == fd;
        DropDisplaces(p, r, polled);
      } else {
        assert polled[p.i].fd == fd;
        DropLast(p, r, polled);
      }
    }
  }

  /** What removing entry i comes to. */
  ghost predicate Removed(p: Pass, r: Pass) {
    && 1 <= p.i < p.size && p.accepted == r.accepted == 1 && |p.server.polls| == p.size + 1
    && r.i == p.i && r.size == p.size - 1 && |r.server.polls| == p.size
    && (forall j :: 0 <= j < p.size ==>
          r.server.polls[j] == if j == p.i then p.server.polls[p.size] else p.server.polls[j])
    && (forall g :: g in r.server.sessions <==> g in p.server.sessions && g != p.server.polls[p.i].fd)
  }

  lemma DropDisplaced(p: Pass, r: Pass, polled: seq<PollEntry>)
    requires Removed(p, r) && Displaced(p, polled)
    ensures Displaced(r, polled)
  {
    var a :| 1 <= a < |polled| - 1 && polled[a].fd !in p.server.sessions;
    assert polled[a].fd !in r.server.sessions;
  }

  lemma DropDisplaces(p: Pass, r: Pass, polled: seq<PollEntry>)
    requires Removed(p, r) && InPlace(p, polled) && p.i < p.size - 1 && polled[p.i].fd == p.server.polls[p.i].fd
    ensures Displaced(r, polled)
  {
    assert polled[p.i].fd !in r.server.sessions;
    forall j | r.i < j <= r.size ensures Polled(polled, r.server.polls[j].fd) {
      assert r.server.polls[j].fd == polled[j].fd;
    }
  }

  lemma DropLast(p: Pass, r: Pass, polled: seq<PollEntry>)
    requires Removed(p, r) && InPlace(p, polled) && p.i == p.size - 1 && Distinct(polled)
    ensures InPlace(r, polled)
  {
    assert p.size == |polled|;
    forall a | 1 <= a < |polled| - 1 ensures polled[a].fd in r.server.sessions {
      assert polled[a].fd in p.server.sessions;
      assert polled[a].fd != polled[p.i].fd;
    }
  }

  lemma VisitKeepsOrder(p: Pass, reply: Reply, polled: seq<PollEntry>)
    requires PassFits(p) && p.i < p.size && Visitable(p)
    requires VisitsFit(p, polled) && OrderFits(p, polled) && Distinct(polled)
    ensures OrderFits(Visit(p, reply).pass, polled)
  {
    if p.i == 0 {
      ListenerKeepsOrder(p, reply, polled);
    } else {
      var after, dropped := ClientVisit(p, reply);
      if dropped { DropKeepsOrder(p, after, polled); } else { ProceedKeepsOrder(p, after, polled); }
    }
  }

  ghost predicate Ordered(p: Pass, polled: seq<PollEntry>) {
    PassFits(p) && VisitsFit(p, polled) && OrderFits(p, polled)
  }

  lemma VisitKeepsOrdered(p: Pass, reply: Reply, polled: seq<PollEntry>)
    requires Ordered(p, polled) && Distinct(polled) && p.i < p.size
    ensures Visitable(p) && Ordered(Visit(p, reply).pass, polled)
  {
    VisitKeepsFit(p, reply);
    VisitKeepsVisits(p, reply, polled);
    VisitKeepsOrder(p, reply, polled);
  }

  lemma {:induction false} RunKeepsOrdered(p: Pass, kernel: nat -> Reply, k: nat, polled: seq<PollEntry>)
    requires Ordered(p, polled) && Distinct(polled)
    ensures Ordered(RunPass(p, kernel, k), polled)
    decreases p.size - p.i
  {
    if p.i != p.size {
      VisitKeepsOrdered(p, kernel(k), polled);
      RunKeepsOrdered(Visit(p, kernel(k)).pass, kernel, k + 1, polled);
    }
  }

  lemma OrderStarts(sv: ServerState, ready: nat -> Ready)
    requires ServerFits(sv)
    ensures OrderFits(BeginPass(sv, ready), sv.polls)
  {
  }

  ghost predicate Misses(p: Pass, polled: seq<PollEntry>) {
    exists a :: 0 <= a < |polled| && polled[a].fd !in p.visited
  }

  lemma NothingMissed(p: Pass, polled: seq<PollEntry>)
    requires PassFits(p) && p.i == p.size && VisitsFit(p, polled) && (p.accepted == 0 || InPlace(p, polled))
    ensures !Misses(p, polled)
  {
    forall a | 0 <= a < |polled| ensures polled[a].fd in p.visited {
      assert Polled(polled, polled[a].fd);
      assert !ToCome(p, polled[a].fd);
    }
  }

  lemma OrderEnds(p: Pass, polled: seq<PollEntry>)
    requires Ordered(p, polled) && p.i == p.size
    ensures Misses(p, polled) <==> p.accepted == 1 && ClosedEarly(p.server, polled)
  {
    if p.accepted == 1 && Displaced(p, polled) {
      var a :| 0 <= a < |polled| && polled[a].fd == p.server.polls[p.size].fd;
      assert polled[a].fd !in p.visited;
    } else {
      NothingMissed(p, polled);
    }
  }

  /**
   A pass misses an entry that poll reported on exactly when it accepts a connection and
   closes a client other than the last polled one.
   */
  lemma MissesExactlyWhen(sv: ServerState, ready: nat -> Ready, kernel: nat -> Reply)
    requires ServerFits(sv)
    ensures PassFits(BeginPass(sv, ready))
    ensures var p := RunPass(BeginPass(sv, ready), kernel, 0);
            Misses(p, sv.polls) <==> p.accepted == 1 && ClosedEarly(p.server, sv.polls)
  {
    PassStarts(sv, ready);
    VisitsStart(sv, ready);
    OrderStarts(sv, ready);
    RunKeepsOrdered(BeginPass(sv, ready), kernel, 0, sv.polls);
    OrderEnds(RunPass(BeginPass(sv, ready), kernel, 0), sv.polls);
  }

  // ----- an accepted connection can cost one polled entry its visit -----

  function Accepting(fd: int): Reply {
    Reply(fd, false, false, EndOfStream, SendAgain)
  }

  /** Listener 3, after it accepted 4 and 5. */
  function ExampleServer(): ServerState {
    HandleNewConnection(HandleNewConnection(StartServer(3), Accepting(4)), Accepting(5))
  }

  function AllReadable(): nat -> Ready {
    _ => Ready(true, false)
  }

  function Reported(fd: int): PollEntry {
    PollEntry(fd, true, false, true, false)
  }

  lemma ExampleStarts(p: Pass)
    requires p == BeginPass(ExampleServer(), AllReadable())
    ensures ServerFits(ExampleServer())
    ensures p == Pass(ServerState(3, [Reported(3), Reported(4), Reported(5)], ExampleServer().sessions, 0), 0, 3, [], 0)
    ensures ExampleServer().sessions == map[4 := NewSession(), 5 := NewSession()]
  {
    AcceptKeepsFit(StartServer(3), Accepting(4));
    AcceptKeepsFit(HandleNewConnection(StartServer(3), Accepting(4)), Accepting(5));
    assert p.server.polls == [Reported(3), Reported(4), Reported(5)];
  }

  lemma ExampleAccepts(p: Pass, r: Pass)
    requires p.server.polls == [Reported(3), Reported(4), Reported(5)] && p.server.listener == 3
    requires p.server.sessions == map[4 := NewSession(), 5 := NewSession()]
    requires p.i == 0 && p.size == 3 && p.visited == [] && Visitable(p) && r == Visit(p, Accepting(6)).pass
    ensures r.server.polls == p.server.polls + [PollEntry(6, true, false, false, false)]
    ensures r.i == 1 && r.size == 3 && r.visited == [3] && r.server.listener == 3
    ensures 4 in r.server.sessions && r.server.sessions[4] == NewSession()
  {
  }

  lemma ExampleCloses(p: Pass, r: Pass)
    requires p.server.polls == [Reported(3), Reported(4), Reported(5), PollEntry(6, true, false, false, false)]
    requires p.i == 1 && p.size == 3 && p.visited == [3] && p.server.listener == 3
    requires 4 in p.server.sessions && p.server.sessions[4] == NewSession()
    requires Visitable(p) && r == Visit(p, Accepting(6)).pass
    ensures r.i == 1 && r.size == 2 && r.visited == [3, 4]
    ensures |r.server.polls| == 3 && r.server.polls[1] == PollEntry(6, true, false, false, false)
  {
    assert p.server.polls[1] == Reported(4);
  }

  /**
   All three entries are reported. The pass accepts 6 on the listener and closes client 4;
   client 5 is not visited.
   */
  lemma AcceptAndCloseMissOne()
    ensures ServerFits(ExampleServer()) && PassFits(BeginPass(ExampleServer(), AllReadable()))
    ensures var p := BeginPass(ExampleServer(), AllReadable());
            p.server.polls == [Reported(3), Reported(4), Reported(5)]
            && RunPass(p, _ => Accepting(6), 0).visited == [3, 4, 6]
  {
    var kernel: nat -> Reply := _ => Accepting(6);
    var p0 := BeginPass(ExampleServer(), AllReadable());
    ExampleStarts(p0);
    PassStarts(ExampleServer(), AllReadable());
    ExampleRuns(p0, kernel, 0);
  }

  lemma ExampleRuns(p: Pass, kernel: nat -> Reply, k: nat)
    requires PassFits(p) && kernel(k) == kernel(k + 1) == Accepting(6)
    requires p.server.polls == [Reported(3), Reported(4), Reported(5)] && p.server.listener == 3
    requires p.server.sessions == map[4 := NewSession(), 5 := NewSession()]
    requires p.i == 0 && p.size == 3 && p.visited == []
    ensures RunPass(p, kernel, k).visited == [3, 4, 6]
  {
    PassUnfolds(p, kernel, k);
    var r := Visit(p, kernel(k)).pass;
    ExampleAccepts(p, r);
    ExampleEnds(r, kernel, k + 1);
  }

  lemma ExampleEnds(p: Pass, kernel: nat -> Reply, k: nat)
    requires PassFits(p) && kernel(k) == Accepting(6)
    requires p.server.polls == [Reported(3), Reported(4), Reported(5), PollEntry(6, true, false, false, false)]
    requires p.i == 1 && p.size == 3 && p.visited == [3] && p.server.listener == 3
    requires 4 in p.server.sessions && p.server.sessions[4] == NewSession()
    ensures RunPass(p, kernel, k).visited == [3, 4, 6]
  {
    PassUnfolds(p, kernel, k);
    var r := Visit(p, kernel(k)).pass;
    ExampleCloses(p, r);
    LastVisit(r, kernel, k + 1);
  }

  lemma LastVisit(p: Pass, kernel: nat -> Reply, k: nat)
    requires PassFits(p) && p.i + 1 == p.size && Idle(p.server.polls[p.i])
    ensures RunPass(p, kernel, k).visited == p.visited + [p.server.polls[p.i].fd]
  {
    VisitKeepsFit(p, kernel(k));
    var r := Visit(p, kernel(k)).pass;
    assert RunPass(p, kernel, k) == RunPass(r, kernel, k + 1) == r;
  }
}
