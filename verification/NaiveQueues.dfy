/**
 The two queues under a lock. Each method runs inside its critical section, so it acts on
 the queue alone; a call whose wait condition does not hold yet reports that it still waits.
 */
module NaiveQueues {
  import opened Core
  import TaskFifo

  /** What a blocking pop comes to. */
  datatype Popped<T> = StillWaiting | Stopped | Got(value: T)

  function Least(a: nat, b: nat): nat {
    if a < b then a else b
  }

  class NaiveTaskQueue {
    var data: seq<InferenceTask>
    var stop: bool

    constructor ()
      ensures data == [] && !stop
    {
      data, stop := [], false;
    }

    /** Never refused, not even after shutdown. */
    method Push(task: InferenceTask) returns (accepted: bool)
      modifies this`data
      ensures accepted && TaskFifo.Apply(old(data), TaskFifo.Enqueue(task)) == Some(data)
    {
      data := data + [task];
      accepted := true;
    }

    method Pop() returns (r: Popped<InferenceTask>)
      modifies this`data
      ensures r.StillWaiting? <==> old(data) == [] && !stop
      ensures r.Stopped? <==> old(data) == [] && stop
      ensures r.Got? ==> TaskFifo.Apply(old(data), TaskFifo.Dequeue(r.value)) == Some(data)
      ensures !r.Got? ==> data == old(data)
    {
      if data == [] {
        r := if stop then Stopped else StillWaiting;
      } else {
        r := Got(data[0]);
        data := data[1..];
      }
    }

    /** Drain up to `max` tasks into the batch; a stopped empty queue gives none. */
    method PopBatch(batch: seq<InferenceTask>, max: nat) returns (r: Popped<seq<InferenceTask>>)
      modifies this`data
      ensures r.StillWaiting? <==> old(data) == [] && !stop
      ensures !r.Stopped?
      ensures r.Got? ==>
                var k := Least(max, |old(data)|);
                r.value == batch + old(data)[..k] && data == old(data)[k..]
      ensures !r.Got? ==> data == old(data)
    {
      if data == [] && !stop { return StillWaiting; }
      var taken, count := batch, 0;
      while data != [] && count < max
        invariant count <= max && count <= |old(data)|
        invariant taken == batch + old(data)[..count] && data == old(data)[count..]
        decreases |data|
      {
        taken := taken + [data[0]];
        data := data[1..];
        count := count + 1;
      }
      r := Got(taken);
    }

    method Shutdown()
      modifies this`stop
      ensures stop
    {
      stop := true;
    }
  }

  class NaiveResultQueue {
    var data: seq<InferenceResult>

    constructor ()
      ensures data == []
    {
      data := [];
    }

    method Push(result: InferenceResult)
      modifies this
      ensures data == old(data) + [result]
    {
      data := data + [result];
    }

    method PopImmediate() returns (r: Option<InferenceResult>)
      modifies this
      ensures r.None? <==> old(data) == []
      ensures old(data) == (if r.Some? then [r.value] else []) + data
    {
      if data == [] {
        r := None;
      } else {
        r := Some(data[0]);
        data := data[1..];
      }
    }
  }
}
