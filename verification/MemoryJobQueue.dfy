/** The in-memory job queue (apps/worker/src/in-memory-job-queue.ts). */
module MemoryJobQueue {
  import opened Options

  type Job = string

  /** A registered wakeup listener; calling it may throw. */
  datatype Listener = Listener(id: nat, throws: bool)

  datatype Answer = Returned | Threw(listener: Listener)

  datatype Operation = Enqueue(job: Job) | Dequeue | Clear

  function Apply(entries: seq<Job>, op: Operation): seq<Job> {
    match op
    case Enqueue(job) => entries + [job]
    case Dequeue => if entries == [] then [] else entries[1..]
    case Clear => []
  }

  /** The jobs an operation takes off the queue, in order. */
  function Removed(entries: seq<Job>, op: Operation): seq<Job> {
    match op
    case Enqueue(_) => []
    case Dequeue => if entries == [] then [] else [entries[0]]
    case Clear => entries
  }

  class Queue {
    var entries: seq<Job>
    var listeners: seq<Listener>
    var told: seq<Listener>  // every call of a listener, whether it returned or threw

    constructor ()
      ensures entries == [] && listeners == [] && told == []
    {
      entries, listeners, told := [], [], [];
    }

    /** Calls one listener: it is told, and whether it throws is for the caller to see. */
    method Call(listener: Listener) returns (answer: Answer)
      modifies this`told
      ensures told == old(told) + [listener]
      ensures answer == if listener.throws then Threw(listener) else Returned
    {
      told := told + [listener];
      answer := if listener.throws then Threw(listener) else Returned;
    }

    /**
     The job is queued before any listener is told.  Every listener that was registered at that moment is
     told once, in order, whichever of them throw; what they throw is swallowed, so enqueueing never fails.
     */
    method Enqueue(job: Job) returns (swallowed: seq<Answer>)
      modifies this`entries, this`told
      ensures entries == Apply(old(entries), Operation.Enqueue(job))
      ensures told == old(told) + listeners
      ensures forall l :: Threw(l) in swallowed <==> l in listeners && l.throws
    {
      entries := entries + [job];
      var snapshot := listeners;
      swallowed := [];
      var k := 0;
      while k < |snapshot|
        invariant 0 <= k <= |snapshot| && entries == old(entries) + [job]
        invariant told == old(told) + snapshot[..k]
        invariant forall l :: Threw(l) in swallowed <==> l in snapshot[..k] && l.throws
      {
        var answer := Call(snapshot[k]);
        if answer.Threw? {
          swallowed := swallowed + [answer];
        }
        assert snapshot[..k + 1] == snapshot[..k] + [snapshot[k]];
        k := k + 1;
      }
    }

    method Dequeue() returns (job: Option<Job>)
      modifies this`entries
      ensures entries == Apply(old(entries), Operation.Dequeue)
      ensures job == if old(entries) == [] then None else Some(old(entries)[0])
    {
      if entries == [] {
        return None;
      }
      job := Some(entries[0]);
      entries := entries[1..];
    }

    method Clear()
      modifies this`entries
      ensures entries == Apply(old(entries), Operation.Clear)
    {
      entries := [];
    }

    /** A `Set`: subscribing the same listener again changes nothing. */
    method OnEnqueue(listener: Listener)
      modifies this`listeners
      ensures listener in listeners
      ensures listeners == if listener in old(listeners) then old(listeners) else old(listeners) + [listener]
    {
      if listener !in listeners {
        listeners := listeners + [listener];
      }
    }
  }

  function After(ops: seq<Operation>): seq<Job> {
    if ops == [] then [] else Apply(After(ops[..|ops| - 1]), ops[|ops| - 1])
  }

  function EnqueuedBy(ops: seq<Operation>): seq<Job> {
    if ops == [] then []
    else
      var last := ops[|ops| - 1];
      EnqueuedBy(ops[..|ops| - 1]) + if last.Enqueue? then [last.job] else []
  }

  function RemovedBy(ops: seq<Operation>): seq<Job> {
    if ops == [] then []
    else RemovedBy(ops[..|ops| - 1]) + Removed(After(ops[..|ops| - 1]), ops[|ops| - 1])
  }

  /** First in, first out, over any history: what was removed, then what is left, is what was enqueued, in order. */
  lemma {:induction false} FirstInFirstOut(ops: seq<Operation>)
    ensures RemovedBy(ops) + After(ops) == EnqueuedBy(ops)
  {
    if ops != [] {
      FirstInFirstOut(ops[..|ops| - 1]);
      var entries := After(ops[..|ops| - 1]);
      if ops[|ops| - 1].Dequeue? && entries != [] {
        assert entries == [entries[0]] + entries[1..];
      }
    }
  }
}
