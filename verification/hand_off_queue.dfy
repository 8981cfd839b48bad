/** `ThreadSafeQueue<T>`: the queue a reader thread fills and a writer thread
    empties. Only its logical state is modelled: the queued values, front
    first, and whether the producer has finished. A `pop` that would block
    waits until the queue is non-empty or finished, so that condition is its
    precondition. */
module HandOffQueue {
  datatype Queue<T> = Queue(items: seq<T>, finished: bool)

  /** A new queue: empty and not finished. */
  function Empty<T>(): (q: Queue<T>)
    ensures q.items == [] && !q.finished
  {
    Queue([], false)
  }

  /** `push(v)`: `v` joins at the back; a finished queue still accepts it. */
  function Push<T>(q: Queue<T>, v: T): (q': Queue<T>)
    ensures q'.items == q.items + [v] && q'.finished == q.finished
  {
    q.(items := q.items + [v])
  }

  /** `finish()`: marks the queue finished and keeps what is queued. */
  function Finish<T>(q: Queue<T>): (q': Queue<T>)
    ensures q'.finished && q'.items == q.items
  {
    q.(finished := true)
  }

  /** Finishing twice is finishing once. */
  lemma FinishIdempotent<T>(q: Queue<T>)
    ensures Finish(Finish(q)) == Finish(q)
  {
  }

  /** `pop(out)`, once its wait is over: false with nothing changed when the
      queue is empty (it must then be finished); otherwise true, `out` set to
      the front value and that value removed. */
  function Pop<T>(q: Queue<T>, out: T): (r: (bool, T, Queue<T>))
    requires q.items != [] || q.finished
    ensures !r.0 <==> q.items == []
    ensures !r.0 ==> r.1 == out && r.2 == q
    ensures r.0 ==> r.1 == q.items[0] && r.2.items == q.items[1..] && r.2.finished == q.finished
    ensures r.0 ==> [r.1] + r.2.items == q.items
  {
    if q.items == [] then (false, out, q)
    else (true, q.items[0], q.(items := q.items[1..]))
  }

  /** The queue after pushing `vs` in order. */
  function PushAll<T>(q: Queue<T>, vs: seq<T>): (q': Queue<T>)
    ensures q'.items == q.items + vs && q'.finished == q.finished
    decreases |vs|
  {
    if vs == [] then q else PushAll(Push(q, vs[0]), vs[1..])
  }

  /** The consumer loop `while (pop(out)) { ... }` on a finished queue: it
      receives every queued value in order and stops on the first false, with
      the queue left empty. */
  method Drain<T>(q: Queue<T>, out: T) returns (received: seq<T>, q': Queue<T>)
    requires q.finished
    ensures received == q.items
    ensures q'.items == [] && q'.finished
  {
    received := [];
    q' := q;
    var cur := out;
    var more := true;
    while more
      invariant q'.finished && received + q'.items == q.items
      invariant !more ==> q'.items == []
      decreases |q'.items|, more
    {
      var r := Pop(q', cur);
      if r.0 {
        received := received + [r.1];
      }
      more, cur, q' := r.0, r.1, r.2;
    }
  }

  /** Values pushed before `finish` come out in the order they went in, and
      then `pop` reports the end. */
  lemma {:induction false} FifoHandOff<T>(vs: seq<T>, out: T)
    ensures Finish(PushAll(Empty<T>(), vs)).items == vs
    ensures Pop(Finish(PushAll(Empty<T>(), vs)), out).0 <==> vs != []
    ensures vs != [] ==> Pop(Finish(PushAll(Empty<T>(), vs)), out).1 == vs[0]
  {
    assert Empty<T>().items + vs == vs;
  }
}
