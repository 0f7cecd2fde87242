/**
 * The shared pool of decoder workers, keyed by script path. Its implementation is not part of
 * this model: it is taken to keep, per path, a stack of idle workers, to hand out the top one
 * (or a new worker when the stack is empty), and to push a returned worker back.
 */
module WorkerPool {

  type WorkerId = nat

  /** The idle workers under `path`. */
  function Idle(idle: map<string, seq<WorkerId>>, path: string): seq<WorkerId>
  {
    if path in idle then idle[path] else []
  }

  datatype Acquired = Acquired(idle: map<string, seq<WorkerId>>, created: nat, worker: WorkerId)

  /** `getWorker(path)`: the top idle worker under `path`, or a newly created one. */
  function Acquire(idle: map<string, seq<WorkerId>>, created: nat, path: string): (r: Acquired)
    ensures path in r.idle
    ensures forall p | p != path :: Idle(r.idle, p) == Idle(idle, p)
    ensures |Idle(idle, path)| > 0 ==>
      r.worker == Idle(idle, path)[|Idle(idle, path)| - 1]
      && r.idle[path] + [r.worker] == Idle(idle, path) && r.created == created
    ensures |Idle(idle, path)| == 0 ==> r.worker == created && r.idle[path] == [] && r.created == created + 1
  {
    var stack := Idle(idle, path);
    if |stack| > 0 then
      assert stack[..|stack| - 1] + [stack[|stack| - 1]] == stack;
      Acquired(idle[path := stack[..|stack| - 1]], created, stack[|stack| - 1])
    else
      Acquired(idle[path := []], created + 1, created)
  }

  /** `returnWorker(path, worker)`: the worker is idle again under `path`. */
  function Release(idle: map<string, seq<WorkerId>>, path: string, worker: WorkerId): (r: map<string, seq<WorkerId>>)
    requires path in idle
    ensures r.Keys == idle.Keys && r[path] == idle[path] + [worker]
    ensures forall p | p in idle && p != path :: r[p] == idle[p]
  {
    idle[path := idle[path] + [worker]]
  }

  /** Returning the worker just obtained restores the idle stacks (with the new worker idle
      when one had to be created). */
  lemma {:induction false} AcquireRelease(idle: map<string, seq<WorkerId>>, created: nat, path: string)
    ensures var a := Acquire(idle, created, path);
      Release(a.idle, path, a.worker) == idle[path := Idle(idle, path) + (if |Idle(idle, path)| == 0 then [created] else [])]
  {
    var a := Acquire(idle, created, path);
    var stack := Idle(idle, path);
    if |stack| > 0 {
      assert a.idle[path] + [a.worker] == stack;
      assert stack + [] == stack;
    }
  }

  class Pool {
    var idle: map<string, seq<WorkerId>>
    var created: nat

    constructor ()
      ensures idle == map[] && created == 0
    {
      idle := map[];
      created := 0;
    }

    method GetWorker(path: string) returns (worker: WorkerId)
      modifies this
      ensures Acquire(old(idle), old(created), path) == Acquired(idle, created, worker)
    {
      var a := Acquire(idle, created, path);
      idle, created, worker := a.idle, a.created, a.worker;
    }

    method ReturnWorker(path: string, worker: WorkerId)
      requires path in idle
      modifies this
      ensures idle == Release(old(idle), path, worker) && created == old(created)
    {
      idle := idle[path := idle[path] + [worker]];
    }
  }
}
