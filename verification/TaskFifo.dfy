/**
 The simple queue that every task queue of the server is compared with: a sequence,
 enqueued at the back and dequeued at the front. A history of enqueue and dequeue
 events is legal when every dequeue takes exactly the oldest task.
 */
module TaskFifo {
  import opened Core

  datatype Event = Enqueue(task: InferenceTask) | Dequeue(task: InferenceTask)

  function Apply(q: seq<InferenceTask>, e: Event): Option<seq<InferenceTask>> {
    match e
    case Enqueue(x) => Some(q + [x])
    case Dequeue(x) => if q != [] && q[0] == x then Some(q[1..]) else None
  }

  /** The queue after a history, or None when the history is not a FIFO history. */
  function Replay(events: seq<Event>): Option<seq<InferenceTask>> {
    if events == [] then Some([])
    else
      var before := Replay(events[..|events| - 1]);
      if before.None? then None else Apply(before.value, events[|events| - 1])
  }

  function Enqueued(events: seq<Event>): seq<InferenceTask> {
    if events == [] then []
    else
      var rest := Enqueued(events[..|events| - 1]);
      if events[|events| - 1].Enqueue? then rest + [events[|events| - 1].task] else rest
  }

  function Dequeued(events: seq<Event>): seq<InferenceTask> {
    if events == [] then []
    else
      var rest := Dequeued(events[..|events| - 1]);
      if events[|events| - 1].Dequeue? then rest + [events[|events| - 1].task] else rest
  }

  /** What makes a legal history first-in first-out: nothing is lost, duplicated or reordered. */
  lemma {:induction false} LegalMeansFifo(events: seq<Event>)
    requires Replay(events).Some?
    ensures Enqueued(events) == Dequeued(events) + Replay(events).value
  {
    if events != [] {
      var before := events[..|events| - 1];
      LegalMeansFifo(before);
      var e, q := events[|events| - 1], Replay(before).value;
      if e.Dequeue? {
        assert q == [e.task] + q[1..];
      }
    }
  }
}
