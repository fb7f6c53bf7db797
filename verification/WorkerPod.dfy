/**
 A worker of the pool: it drains a batch, runs each task in its own arena, resets the arena
 after every task and pushes one result per task.
 */
module WorkerPodClass {
  import opened Core
  import opened Arena
  import opened LumenArenaClass
  import opened NaiveQueues
  import ImageNet
  import Memory

  const FLOAT_SIZE: nat := 4

  function Ascii(text: string): seq<byte> {
    seq(|text|, i requires 0 <= i < |text| => (text[i] as int) % 256)
  }

  const MISMATCH: seq<byte> := Ascii("Error: Payload size mismatch")

  /** What the model does with a request: its answer, and the sizes the runtime takes from the arena meanwhile. */
  datatype Work = Work(answer: seq<byte>, scratch: seq<nat>)

  /** The result of a task: its own descriptor and trace, and the answer of the model unless the payload is short. */
  function ResultOf(task: InferenceTask, inputs: seq<Memory.int64>, work: Work): InferenceResult {
    InferenceResult(task.clientFd,
                    if |task.data| < ImageNet.CountWord(inputs) then MISMATCH else work.answer, task.requestId)
  }

  /** One result per task, in order; `works(id)` is what the model does with the request of that id. */
  function ResultsOf(batch: seq<InferenceTask>, inputs: seq<Memory.int64>,
                     works: nat -> Work): (r: seq<InferenceResult>)
    ensures |r| == |batch|
  {
    seq(|batch|, i requires 0 <= i < |batch| => ResultOf(batch[i], inputs, works(batch[i].requestId)))
  }

  /** Bytes of a tensor: the element count times the size of a float, in 64 bits. */
  function TensorSize(dims: seq<Memory.int64>): nat {
    Wrap(ImageNet.CountWord(dims) * FLOAT_SIZE)
  }

  /** Four bytes for each element, in 64 bits. */
  function FloatBytes(dims: seq<Memory.int64>): nat {
    4 * (ImageNet.ElementCount(dims) % TWO_64) % TWO_64
  }

  lemma TensorIsFloats(dims: seq<Memory.int64>)
    ensures TensorSize(dims) == FloatBytes(dims)
  {
    RemainderIsMod(ImageNet.CountWord(dims) * FLOAT_SIZE, TWO_64);
  }

  /** Arena taken by one inference: input and output tensor, and what the runtime takes. */
  function Need(inputs: seq<Memory.int64>, outputs: seq<Memory.int64>, scratch: seq<nat>): nat {
    Ceil64(TensorSize(inputs)) + Ceil64(TensorSize(outputs)) + SumCeil(scratch)
  }

  /** Arena taken by one task; a short payload takes nothing. */
  function Taken(task: InferenceTask, inputs: seq<Memory.int64>, outputs: seq<Memory.int64>, work: Work): nat {
    if |task.data| < ImageNet.CountWord(inputs) then 0 else Need(inputs, outputs, work.scratch)
  }

  /**
   Room for every request that needs at most `need`. Before the first reset that is room for
   two: the first request stays below the warm-up mark for good.
   */
  predicate Room(a: ArenaState, need: nat) {
    && Aligned64(a)
    && (if a.warmed then a.offset == a.warmup && a.warmup + need <= a.capacity
        else a.offset + need + need <= a.capacity)
  }

  function Sizes(blocks: seq<Block>): seq<nat> {
    seq(|blocks|, i requires 0 <= i < |blocks| => blocks[i].size)
  }

  /** Its descriptor and trace, and the mismatch text exactly for a short payload. */
  predicate AnswersTask(result: InferenceResult, task: InferenceTask, inputs: seq<Memory.int64>, answer: seq<byte>) {
    && result.clientFd == task.clientFd && result.requestId == task.requestId
    && (|task.data| < ImageNet.ElementCount(inputs) % TWO_64 ==>
          result.response == Ascii("Error: Payload size mismatch"))
    && (|task.data| >= ImageNet.ElementCount(inputs) % TWO_64 ==> result.response == answer)
  }

  class WorkerPod {
    const arena: LumenArena
    const inputs: seq<Memory.int64>
    const outputs: seq<Memory.int64>

    constructor (arena: LumenArena, inputs: seq<Memory.int64>, outputs: seq<Memory.int64>)
      ensures this.arena == arena && this.inputs == inputs && this.outputs == outputs
    {
      this.arena, this.inputs, this.outputs := arena, inputs, outputs;
    }

    /** A block of the arena that fits. */
    method AllocBlock(size: nat)
      requires arena.Valid() && arena.offset % 64 == 0 && size < TWO_64
      requires arena.offset + Ceil64(size) <= arena.capacity
      modifies arena
      ensures arena.Valid() && arena.offset % 64 == 0
      ensures Sizes(arena.live) == old(Sizes(arena.live)) + [size]
      ensures arena.View().arena == old(arena.View().arena).(offset := old(arena.offset) + Ceil64(size))
    {
      FitsInHeap(arena.View(), size, 64);
      var _ := arena.Alloc(size);
    }

    /** The runtime calls OrtAlloc any number of times; OrtFree does nothing. */
    method AllocScratch(scratch: seq<nat>)
      requires arena.Valid() && arena.offset % 64 == 0 && arena.offset + SumCeil(scratch) <= arena.capacity
      modifies arena
      ensures arena.Valid() && arena.offset % 64 == 0
      ensures Sizes(arena.live) == old(Sizes(arena.live)) + scratch
      ensures arena.View().arena == old(arena.View().arena).(offset := old(arena.offset) + SumCeil(scratch))
    {
      assert scratch[0..] == scratch;
      for i := 0 to |scratch|
        invariant arena.Valid() && arena.offset % 64 == 0
        invariant arena.offset + SumCeil(scratch[i..]) == old(arena.offset) + SumCeil(scratch)
        invariant arena.View().arena == old(arena.View().arena).(offset := arena.offset)
        invariant Sizes(arena.live) == old(Sizes(arena.live)) + scratch[..i]
      {
        assert scratch[i..][1..] == scratch[i + 1..];
        AllocBlock(scratch[i]);
      }
    }

    /** The input and the output tensor. */
    method AllocTensors(count: nat)
      requires arena.Valid() && arena.offset % 64 == 0 && count == ImageNet.CountWord(inputs)
      requires arena.offset + Need(inputs, outputs, []) <= arena.capacity
      modifies arena
      ensures arena.Valid() && arena.offset % 64 == 0
      ensures Sizes(arena.live) == old(Sizes(arena.live)) + [FloatBytes(inputs), FloatBytes(outputs)]
      ensures arena.View().arena
           == old(arena.View().arena).(offset := old(arena.offset) + Need(inputs, outputs, []))
    {
      TensorIsFloats(inputs);
      TensorIsFloats(outputs);
      AllocBlock(Wrap(count * FLOAT_SIZE));
      var produced := ImageNet.CountElements(outputs);
      AllocBlock(Wrap(produced * FLOAT_SIZE));
    }

    /** The engine's run with the arena as allocator. */
    method RunTask(task: InferenceTask, work: Work) returns (result: InferenceResult)
      requires arena.Valid() && arena.offset % 64 == 0
      requires arena.offset + Taken(task, inputs, outputs, work) <= arena.capacity
      modifies arena
      ensures result == ResultOf(task, inputs, work)
      ensures result.clientFd == task.clientFd && result.requestId == task.requestId
      ensures |task.data| < ImageNet.ElementCount(inputs) % TWO_64 ==>
                result.response == Ascii("Error: Payload size mismatch") && arena.live == old(arena.live)
      ensures |task.data| >= ImageNet.ElementCount(inputs) % TWO_64 ==>
                && result.response == work.answer
                && Sizes(arena.live)
                   == old(Sizes(arena.live)) + [FloatBytes(inputs), FloatBytes(outputs)] + work.scratch
      ensures arena.Valid() && arena.offset % 64 == 0
      ensures arena.View().arena
           == old(arena.View().arena).(offset := old(arena.offset) + Taken(task, inputs, outputs, work))
    {
      var count := ImageNet.CountElements(inputs);
      if |task.data| < count {
        result := InferenceResult(task.clientFd, MISMATCH, task.requestId);
      } else {
        AllocTensors(count);
        AllocScratch(work.scratch);
        result := InferenceResult(task.clientFd, work.answer, task.requestId);
      }
    }

    /**
     The same with the preprocessing that runs before inference: the answer is the mismatch
     exactly when there is no tensor.
     */
    method RunImage(task: InferenceTask, work: Work) returns (tensor: Option<array<real>>, result: InferenceResult)
      requires arena.Valid() && arena.offset % 64 == 0 && ImageNet.SafePayload(inputs, |task.data|)
      requires arena.offset + Taken(task, inputs, outputs, work) <= arena.capacity
      modifies arena
      ensures result.clientFd == task.clientFd && result.requestId == task.requestId
      ensures result.response == if tensor.None? then Ascii("Error: Payload size mismatch") else work.answer
      ensures tensor.Some? ==>
                tensor.value.Length == ImageNet.ElementCount(inputs)
                && ImageNet.Planes(tensor.value[..], task.data, ImageNet.AsSize(inputs[3]) * ImageNet.AsSize(inputs[2]))
    {
      ImageNet.SmallCount(inputs);
      tensor := ImageNet.Preprocess(task, inputs);
      result := RunTask(task, work);
    }

    /** One round of the loop over the batch: run, reset, push. */
    method ServeTask(task: InferenceTask, work: Work, queue: NaiveResultQueue, ghost need: nat)
      requires arena.Valid() && Room(arena.View().arena, need) && Taken(task, inputs, outputs, work) <= need
      modifies arena, queue
      ensures arena.Valid() && Room(arena.View().arena, need)
      ensures queue.data == old(queue.data) + [ResultOf(task, inputs, work)]
      ensures arena.warmedUp
      ensures arena.warmupOffset == (if old(arena.warmedUp) then old(arena.warmupOffset)
                                     else old(arena.offset) + Taken(task, inputs, outputs, work))
    {
      var result := RunTask(task, work);
      arena.Reset();
      queue.Push(result);
    }

    /** Where the warm-up mark is once the first of these tasks has been served. */
    ghost function Mark(a: ArenaState, batch: seq<InferenceTask>, works: nat -> Work): nat
      requires batch != []
    {
      if a.warmed then a.warmup else a.offset + Taken(batch[0], inputs, outputs, works(batch[0].requestId))
    }

    /** No task of the batch takes more than `need`. */
    ghost predicate Bounded(batch: seq<InferenceTask>, works: nat -> Work, need: nat) {
      forall i :: 0 <= i < |batch| ==> Taken(batch[i], inputs, outputs, works(batch[i].requestId)) <= need
    }

    /**
     The loop over a batch. Each task yields one result, in order; the warm-up mark is set by
     the first task ever served and never moves again, and usage is back at the mark.
     */
    method ServeBatch(batch: seq<InferenceTask>, works: nat -> Work, queue: NaiveResultQueue, ghost need: nat)
      requires arena.Valid() && Room(arena.View().arena, need) && Bounded(batch, works, need)
      modifies arena, queue
      ensures arena.Valid() && Room(arena.View().arena, need)
      ensures queue.data == old(queue.data) + ResultsOf(batch, inputs, works)
      ensures batch != [] ==>
                && arena.warmedUp && arena.warmupOffset == Mark(old(arena.View().arena), batch, works)
                && arena.GetAllocatedSize() == arena.warmupOffset
    {
      for i := 0 to |batch|
        invariant arena.Valid() && Room(arena.View().arena, need)
        invariant queue.data == old(queue.data) + ResultsOf(batch, inputs, works)[..i]
        invariant i == 0 ==> arena.View() == old(arena.View())
        invariant i > 0 ==> arena.warmedUp && arena.warmupOffset == Mark(old(arena.View().arena), batch, works)
      {
        ServeTask(batch[i], works(batch[i].requestId), queue, need);
      }
    }

    /**
     One iteration of worker_loop after its stop test: what leaves the task queue comes out as
     results, in order, and nothing else does.
     */
    method Iterate(tasks: NaiveTaskQueue, batchSize: nat, works: nat -> Work, queue: NaiveResultQueue, ghost need: nat)
      returns (waiting: bool)
      requires arena.Valid() && Room(arena.View().arena, need) && Bounded(tasks.data, works, need)
      modifies arena, tasks`data, queue
      ensures arena.Valid() && Room(arena.View().arena, need)
      ensures waiting <==> old(tasks.data) == [] && !tasks.stop
      ensures var k := Least(batchSize, |old(tasks.data)|);
              && tasks.data == old(tasks.data)[k..]
              && queue.data == old(queue.data) + ResultsOf(old(tasks.data)[..k], inputs, works)
              && |queue.data| == |old(queue.data)| + k && old(queue.data) <= queue.data
              && forall i :: 0 <= i < k ==>
                   AnswersTask(queue.data[|old(queue.data)| + i], old(tasks.data)[i], inputs,
                               works(old(tasks.data)[i].requestId).answer)
    {
      var r := tasks.PopBatch([], batchSize);
      waiting := r.StillWaiting?;
      if r.Got? {
        ServeBatch(r.value, works, queue, need);
      }
    }
  }
}
