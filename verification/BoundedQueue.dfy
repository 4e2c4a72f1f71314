/**
 The queue class itself. Its fields are the program's; `view` is the monitor state of `BlockingQueue`
 that they are part of. Each method is one critical section of an operation and is proved to be the
 corresponding step of the monitor; the two notifications of close touch no field of the queue.
 */
module BoundedQueue {
  import opened Wrappers
  import opened BlockingQueue

  datatype PushOutcome = PushWaits | PushThrows | Pushed
  datatype PopOutcome<T> = PopWaits | Drained | Popped(item: T)

  class BoundedBlockingQueue<T(==)> {
    const capacity: nat
    var queue: seq<T>
    var closed: bool
    ghost var view: State<T>

    ghost predicate Valid()
      reads this
    {
      && Inv(view)
      && view.capacity == capacity && view.queue == queue && view.closed == closed
    }

    constructor (capacity: nat)
      requires capacity > 0
      ensures Valid() && this.capacity == capacity && view == Initial(capacity)
    {
      this.capacity := capacity;
      queue := [];
      closed := false;
      view := Initial(capacity);
    }

    /** The constructor of the program, which throws on capacity 0. */
    static method Create(capacity: nat) returns (q: Option<BoundedBlockingQueue<T>>)
      ensures q.None? <==> capacity == 0
      ensures q.Some? ==> fresh(q.value) && q.value.Valid() && q.value.view == Initial(capacity)
    {
      if capacity == 0 {
        return None;
      }
      var queue := new BoundedBlockingQueue<T>(capacity);
      q := Some(queue);
    }

    /** push, from acquiring the mutex (first or again) to waiting, throwing or returning. */
    method PushSection(ghost t: Tid, item: T) returns (outcome: PushOutcome)
      requires Valid() && t in view.pushing && view.pushing[t] == item && t !in view.prodWaiting
      modifies this
      ensures Valid()
      ensures exists woken :: Enabled(old(view), RunPush(t, woken)) && view == Apply(old(view), RunPush(t, woken))
      ensures outcome == if old(|queue|) >= capacity && !old(closed) then PushWaits
                         else if old(closed) then PushThrows else Pushed
      ensures queue == old(queue) + (if outcome == Pushed then [item] else []) && closed == old(closed)
    {
      hide Inv;
      ghost var woken := None;
      if !(|queue| < capacity || closed) {
        outcome := PushWaits;
      } else if closed {
        outcome := PushThrows;
      } else {
        queue := queue + [item];
        woken := AnyOf(view.consWaiting);
        outcome := Pushed;
      }
      assert Enabled(view, RunPush(t, woken));
      InvPreserved(view, RunPush(t, woken));
      view := Apply(view, RunPush(t, woken));
    }

    /** pop, from acquiring the mutex (first or again) to waiting or returning. */
    method PopSection(ghost t: Tid) returns (outcome: PopOutcome<T>)
      requires Valid() && t in view.popping && t !in view.consWaiting
      modifies this
      ensures Valid()
      ensures exists woken :: Enabled(old(view), RunPop(t, woken)) && view == Apply(old(view), RunPop(t, woken))
      ensures outcome ==
              if old(queue) != [] then Popped(old(queue)[0]) else if old(closed) then Drained else PopWaits
      ensures queue == (if outcome.Popped? then old(queue)[1..] else old(queue)) && closed == old(closed)
    {
      hide Inv;
      ghost var woken := None;
      if !(queue != [] || closed) {
        outcome := PopWaits;
      } else if closed && queue == [] {
        outcome := Drained;
      } else {
        outcome := Popped(queue[0]);
        queue := queue[1..];
        woken := AnyOf(view.prodWaiting);
      }
      assert Enabled(view, RunPop(t, woken));
      InvPreserved(view, RunPop(t, woken));
      view := Apply(view, RunPop(t, woken));
    }

    method TryPopSection(ghost t: Tid) returns (item: Option<T>)
      requires Valid() && view.Idle(t)
      modifies this
      ensures Valid()
      ensures exists woken ::
                Enabled(old(view), Event<T>.TryPop(t, woken)) && view == Apply(old(view), Event<T>.TryPop(t, woken))
      ensures item == if old(queue) == [] then None else Some(old(queue)[0])
      ensures queue == (if item.Some? then old(queue)[1..] else old(queue)) && closed == old(closed)
    {
      hide Inv;
      ghost var woken := None;
      if queue == [] {
        item := None;
      } else {
        item := Some(queue[0]);
        queue := queue[1..];
        woken := AnyOf(view.prodWaiting);
      }
      assert Enabled(view, Event<T>.TryPop(t, woken));
      InvPreserved(view, Event<T>.TryPop(t, woken));
      view := Apply(view, Event<T>.TryPop(t, woken));
    }

    /** close, the part under the mutex. */
    method CloseSection(ghost t: Tid)
      requires Valid() && view.Idle(t)
      modifies this
      ensures Valid() && view == Apply(old(view), Event<T>.SetClosed(t))
      ensures closed && queue == old(queue)
    {
      hide Inv;
      closed := true;
      InvPreserved(view, Event<T>.SetClosed(t));
      view := Apply(view, Event<T>.SetClosed(t));
    }
  }
}
