/**
 A run of the server with the MPMC ring that refuses a request while the pool and the queue are
 at work, for any capacity, number of workers and batch size. One client after the other
 connects and sends a frame of one byte; no worker gets to run. The ring takes as many requests
 as it has cells, and the next one is refused.
 */
module RefusalRun {
  import opened Core
  import opened Session
  import opened Server
  import opened QueueUse
  import opened MpmcServer
  import opened MpmcServerRuns
  import Mpmc
  import MpmcInvariant
  import MpmcTheorems
  import System
  import SystemInvariant

  const LISTENER: int := 3

  /** The descriptor of the client that comes after k others. */
  function Fd(k: nat): int {
    LISTENER + k + 1
  }

  function Answer(accepted: int, recv: Recv): Reply {
    Reply(accepted, false, false, recv, SendAgain)
  }

  const HEADER: Reply := Answer(-1, Data([0, 0, 0, 1]))
  const BODY: Reply := Answer(-1, Data([7]))

  function Only(target: nat): nat -> Ready {
    i => Ready(i == target, false)
  }

  function Announced(): ClientSession {
    NewSession().(header := [0, 0, 0, 1], state := BodyPending, expectedSize := 1, body := [0])
  }

  // ----- the network thread -----

  predicate Listening(sv: ServerState) {
    && sv.listener == LISTENER && |sv.polls| >= 1
    && sv.polls[0].fd == LISTENER && sv.polls[0].wantIn && !sv.polls[0].wantOut
    && (forall i :: 1 <= i < |sv.polls| ==> sv.polls[i].fd in sv.sessions)
  }

  /** The first k clients wait for inference. */
  predicate Waiters(sv: ServerState, k: nat) {
    forall fd :: fd in sv.sessions && fd != Fd(k) ==> LISTENER < fd < Fd(k) && sv.sessions[fd].state.InferencePending?
  }

  /** k clients wait for inference, and one more is in the given state. */
  predicate Hosts(sv: ServerState, k: nat, session: ClientSession) {
    && Listening(sv) && |sv.polls| == k + 2 && sv.polls[k + 1].fd == Fd(k)
    && Fd(k) in sv.sessions && sv.sessions[Fd(k)] == session
    && Waiters(sv, k)
  }

  /** k clients wait for inference, and there is nobody else. */
  predicate Crowd(sv: ServerState, k: nat) {
    Listening(sv) && |sv.polls| == k + 1 && Waiters(sv, k) && Fd(k) !in sv.sessions
  }

  predicate Working(s: System.State, k: nat) {
    !s.stop && s.refused == [] && s.taskHead <= |s.tasks| && |Waiting(s)| == k
  }

  predicate Between(s: System.State) {
    s.pass.i == s.pass.size
  }

  /** The loop is at entry m of a pass in which only the last entry has an event. */
  predicate OnTheWay(s: System.State, k: nat, session: ClientSession, m: nat) {
    && Hosts(s.pass.server, k, session) && s.pass.i == m <= k + 1 && s.pass.size == k + 2
    && (forall i :: m <= i < k + 1 ==> Idle(s.pass.server.polls[i]))
    && s.pass.server.polls[k + 1].gotIn
  }

  /** The loop is at entry m of the pass in which the client was accepted. */
  predicate Accepted(s: System.State, k: nat, m: nat) {
    && Hosts(s.pass.server, k, NewSession()) && 1 <= s.pass.i == m <= k + 1 && s.pass.size == k + 1
    && (forall i :: m <= i < k + 1 ==> Idle(s.pass.server.polls[i]))
  }

  lemma AcceptStep(s: System.State, k: nat)
    requires Between(s) && Crowd(s.pass.server, k) && Working(s, k)
    ensures OutsidePush(s, System.Poll(Only(0)))
    ensures var polled := System.Apply(s, System.Poll(Only(0)));
            var act := System.Visit(Answer(Fd(k), WouldBlock), true);
            && OutsidePush(polled, act)
            && Accepted(System.Apply(polled, act), k, 1) && Working(System.Apply(polled, act), k)
  {
    var polled := System.Apply(s, System.Poll(Only(0)));
    assert polled.pass.server.polls[0].gotIn && polled.pass.server.listener !in polled.pass.server.sessions;
  }

  lemma PollStep(s: System.State, k: nat, session: ClientSession)
    requires Between(s) && Hosts(s.pass.server, k, session) && Working(s, k)
    requires session.state.HeaderPending? || session.state.BodyPending?
    ensures OutsidePush(s, System.Poll(Only(k + 1)))
    ensures var r := System.Apply(s, System.Poll(Only(k + 1))); OnTheWay(r, k, session, 0) && Working(r, k)
  {
  }

  lemma HeaderStep(s: System.State, k: nat)
    requires OnTheWay(s, k, NewSession(), k + 1) && Working(s, k)
    ensures OutsidePush(s, System.Visit(HEADER, true))
    ensures var r := System.Apply(s, System.Visit(HEADER, true));
            Between(r) && Hosts(r.pass.server, k, Announced()) && Working(r, k)
  {
    HeaderOutcome();
  }

  lemma HeaderOutcome()
    ensures HandleClientData(NewSession(), Data([0, 0, 0, 1])) == Outcome(Announced(), 1, [0, 0, 0, 1], None)
  {
    assert FromNetwork([0, 0, 0, 1]) == 1;
    var o := HandleClientData(NewSession(), Data([0, 0, 0, 1]));
    assert o.taken == [0, 0, 0, 1] && NewSession().header + o.taken == [0, 0, 0, 1];
    assert seq(1, _ => 0 as byte) == [0];
  }

  /** The body arrives: the request is submitted, and its client waits whatever push answers. */
  lemma BodyStep(s: System.State, k: nat, accepted: bool)
    requires OnTheWay(s, k, Announced(), k + 1) && Working(s, k)
    ensures Submission(s, BODY).Some? && System.Enabled(s, System.Visit(BODY, accepted))
    ensures var r := System.Apply(s, System.Visit(BODY, accepted));
            && Between(r) && Crowd(r.pass.server, k + 1) && !r.stop
            && (accepted ==> Working(r, k + 1))
            && (!accepted ==> r.refused == [Submission(s, BODY).value] && |r.places| > 0
                              && r.places[|r.places| - 1].Refused?)
  {
    var o := HandleClientData(Announced(), Data([7]));
    assert o.submitted.Some? && o.session.state.InferencePending?;
    PushEffect(s, BODY, accepted);
    var r := System.Apply(s, System.Visit(BODY, accepted));
    assert r.pass.server.polls == s.pass.server.polls;
    assert r.pass.server.sessions == s.pass.server.sessions[Fd(k) := o.session];
  }

  // ----- the whole server -----

  /** The network thread is in no call, no task has been popped, and the queue is open. */
  predicate Stalled(j: Joint, n: nat) {
    && Linked(j) && j.pushing.None? && j.ring.capacity == n && j.ring.head == 0 && !j.ring.stopped
    && Mpmc.Free(j.ring, 0)
  }

  lemma {:induction false} SkipAccepted(start: Joint, actions: seq<Action>, j: Joint, n: nat, k: nat, m: nat,
                                        answer: nat -> seq<byte>)
    returns (longer: seq<Action>, r: Joint)
    requires Leads(start, actions, j, answer) && Stalled(j, n) && Accepted(j.system, k, m) && Working(j.system, k)
    ensures Leads(start, longer, r, answer) && Stalled(r, n) && Accepted(r.system, k, k + 1) && Working(r.system, k)
    decreases k + 1 - m
  {
    longer, r := actions, j;
    if m < k + 1 {
      IdleVisit(j.system);
      longer, r := NetworkStep(start, actions, j, System.Visit(NOTHING, true), answer);
      longer, r := SkipAccepted(start, longer, r, n, k, m + 1, answer);
    }
  }

  lemma {:induction false} SkipToLast(start: Joint, actions: seq<Action>, j: Joint, n: nat, k: nat,
                                      session: ClientSession, m: nat, answer: nat -> seq<byte>)
    returns (longer: seq<Action>, r: Joint)
    requires Leads(start, actions, j, answer) && Stalled(j, n)
    requires OnTheWay(j.system, k, session, m) && Working(j.system, k)
    ensures Leads(start, longer, r, answer) && Stalled(r, n)
    ensures OnTheWay(r.system, k, session, k + 1) && Working(r.system, k)
    decreases k + 1 - m
  {
    longer, r := actions, j;
    if m < k + 1 {
      IdleVisit(j.system);
      longer, r := NetworkStep(start, actions, j, System.Visit(NOTHING, true), answer);
      longer, r := SkipToLast(start, longer, r, n, k, session, m + 1, answer);
    }
  }

  lemma Approach(start: Joint, actions: seq<Action>, j: Joint, n: nat, k: nat, session: ClientSession,
                 answer: nat -> seq<byte>)
    returns (longer: seq<Action>, r: Joint)
    requires Leads(start, actions, j, answer) && Stalled(j, n)
    requires Between(j.system) && Hosts(j.system.pass.server, k, session) && Working(j.system, k)
    requires session.state.HeaderPending? || session.state.BodyPending?
    ensures Leads(start, longer, r, answer) && Stalled(r, n)
    ensures OnTheWay(r.system, k, session, k + 1) && Working(r.system, k)
  {
    PollStep(j.system, k, session);
    longer, r := NetworkStep(start, actions, j, System.Poll(Only(k + 1)), answer);
    longer, r := SkipToLast(start, longer, r, n, k, session, 0, answer);
  }

  /** The next client connects. */
  lemma Connect(start: Joint, actions: seq<Action>, j: Joint, n: nat, k: nat, answer: nat -> seq<byte>)
    returns (longer: seq<Action>, r: Joint)
    requires Leads(start, actions, j, answer) && Stalled(j, n)
    requires Between(j.system) && Crowd(j.system.pass.server, k) && Working(j.system, k)
    ensures Leads(start, longer, r, answer) && Stalled(r, n)
    ensures Between(r.system) && Hosts(r.system.pass.server, k, NewSession()) && Working(r.system, k)
  {
    AcceptStep(j.system, k);
    longer, r := NetworkStep(start, actions, j, System.Poll(Only(0)), answer);
    longer, r := NetworkStep(start, longer, r, System.Visit(Answer(Fd(k), WouldBlock), true), answer);
    longer, r := SkipAccepted(start, longer, r, n, k, 1, answer);
  }

  /** It announces one byte, and the byte is there. */
  lemma Request(start: Joint, actions: seq<Action>, j: Joint, n: nat, k: nat, answer: nat -> seq<byte>)
    returns (longer: seq<Action>, r: Joint)
    requires Leads(start, actions, j, answer) && Stalled(j, n)
    requires Between(j.system) && Crowd(j.system.pass.server, k) && Working(j.system, k)
    ensures Leads(start, longer, r, answer) && Stalled(r, n)
    ensures OnTheWay(r.system, k, Announced(), k + 1) && Working(r.system, k)
  {
    longer, r := Connect(start, actions, j, n, k, answer);
    longer, r := Approach(start, longer, r, n, k, NewSession(), answer);
    HeaderStep(r.system, k);
    longer, r := NetworkStep(start, longer, r, System.Visit(HEADER, true), answer);
    longer, r := Approach(start, longer, r, n, k, Announced(), answer);
  }

  /** With nothing popped yet, the ring is blocked exactly when it is full. */
  lemma BlockedWhenFull(j: Joint, n: nat, k: nat)
    requires Stalled(j, n) && Working(j.system, k)
    ensures MpmcTheorems.Blocked(j.ring) <==> k >= n
  {
    assert |MpmcTheorems.Contents(j.ring)| == j.ring.tail;
    if j.ring.tail >= n {
      assert MpmcInvariant.EntryFits(j.ring, j.ring.tail - n);
    }
  }

  /** One more client, one more request: accepted while the ring has a cell, refused when it is full. */
  lemma Round(start: Joint, actions: seq<Action>, j: Joint, n: nat, k: nat, answer: nat -> seq<byte>)
    returns (longer: seq<Action>, r: Joint)
    requires Leads(start, actions, j, answer) && Stalled(j, n)
    requires Between(j.system) && Crowd(j.system.pass.server, k) && Working(j.system, k)
    ensures Leads(start, longer, r, answer) && Stalled(r, n)
    ensures Between(r.system) && Crowd(r.system.pass.server, k + 1) && !r.system.stop
    ensures k < n ==> Working(r.system, k + 1)
    ensures k >= n ==> r.system.refused != [] && |r.system.places| > 0
                       && r.system.places[|r.system.places| - 1].Refused?
  {
    var ready;
    longer, ready := Request(start, actions, j, n, k, answer);
    BodyStep(ready.system, k, k < n);
    BlockedWhenFull(ready, n, k);
    longer, r := WholePush(start, longer, ready, BODY, answer);
  }

  lemma {:induction false} Rounds(workers: nat, batchSize: nat, n: nat, k: nat, answer: nat -> seq<byte>)
    returns (actions: seq<Action>, r: Joint)
    requires n >= 2 && k <= n
    ensures Leads(Start(LISTENER, workers, batchSize, n), actions, r, answer) && Stalled(r, n)
    ensures Between(r.system) && Crowd(r.system.pass.server, k) && Working(r.system, k)
  {
    var start := Start(LISTENER, workers, batchSize, n);
    if k == 0 {
      StartLinked(LISTENER, workers, batchSize, n);
      actions, r := [], start;
    } else {
      actions, r := Rounds(workers, batchSize, n, k - 1, answer);
      actions, r := Round(start, actions, r, n, k - 1, answer);
    }
  }

  /**
   For every capacity, number of workers and batch size there is a run with neither the pool
   nor the queue stopped, in which one client more than the ring has cells is connected and the
   last request is refused.
   */
  lemma SomeRunRefuses(workers: nat, batchSize: nat, n: nat) returns (actions: seq<Action>)
    requires n >= 2
    ensures Run(Start(LISTENER, workers, batchSize, n), actions).Some?
    ensures var j := Run(Start(LISTENER, workers, batchSize, n), actions).value;
            && !j.system.stop && !j.ring.stopped && j.system.refused != []
            && |j.system.pass.server.polls| == n + 2
            && |j.system.places| > 0 && j.system.places[|j.system.places| - 1].Refused?
  {
    var answer: nat -> seq<byte> := _ => [];
    var j;
    actions, j := Rounds(workers, batchSize, n, n, answer);
    actions, j := Round(Start(LISTENER, workers, batchSize, n), actions, j, n, n, answer);
  }
}
