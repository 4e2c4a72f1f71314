/**
 BoundedBlockingQueue (blocking_queue.hpp) as a monitor that any number of threads use concurrently.

 A step is everything a thread does between acquiring and releasing the mutex, or one of the two
 notifications that `close` sends after it has released it. A thread that waits on a condition variable
 is un-notified until a notification or a spurious wakeup moves it to the notified threads; it then
 competes for the mutex with all others and checks its predicate again.
 */
module BlockingQueue {
  import opened Wrappers

  type Tid = nat

  /** The shared state, the threads inside each operation, and what has gone in and out so far. */
  datatype State<T> = State(
    capacity: nat,
    queue: seq<T>,
    closed: bool,
    pushing: map<Tid, T>,       // threads inside push, with their item
    popping: set<Tid>,          // threads inside pop
    prodWaiting: set<Tid>,      // un-notified on cv_not_full
    prodNotified: set<Tid>,     // notified on cv_not_full, about to check again
    consWaiting: set<Tid>,      // un-notified on cv_not_empty
    consNotified: set<Tid>,     // notified on cv_not_empty, about to check again
    owesBoth: set<Tid>,         // in close: flag set, no notification sent yet
    owesProducers: set<Tid>,    // in close: consumers notified, producers not yet
    pushed: seq<T>,             // all items accepted, in order
    delivered: seq<T>)          // all items handed out, in order
  {
    predicate Idle(t: Tid) {
      t !in pushing && t !in popping && t !in owesBoth && t !in owesProducers
    }

    /** The predicates that the two wait calls check. */
    predicate MayPush() {
      |queue| < capacity || closed
    }

    predicate MayPop() {
      queue != [] || closed
    }
  }

  datatype Event<T> =
    | StartPush(t: Tid, item: T)
    | StartPop(t: Tid)
    | RunPush(t: Tid, woken: Option<Tid>)     // lock, check, then wait, throw, or push and notify_one
    | RunPop(t: Tid, woken: Option<Tid>)      // lock, check, then wait, give up, or pop and notify_one
    | TryPop(t: Tid, woken: Option<Tid>)
    | SetClosed(t: Tid)                       // the locked part of close
    | NotifyConsumers(t: Tid)                 // close: cv_not_empty_.notify_all()
    | NotifyProducers(t: Tid)                 // close: cv_not_full_.notify_all()
    | SpuriousProducer(t: Tid)
    | SpuriousConsumer(t: Tid)

  function Initial<T>(capacity: nat): State<T> {
    State(capacity, [], false, map[], {}, {}, {}, {}, {}, {}, {}, [], [])
  }

  /** notify_one wakes one of the waiting threads, any one, and none only if none waits. */
  predicate Wakes(waiting: set<Tid>, woken: Option<Tid>) {
    match woken
    case None => waiting == {}
    case Some(t) => t in waiting
  }

  function Woken(woken: Option<Tid>): set<Tid> {
    if woken.Some? then {woken.value} else {}
  }

  predicate Enabled<T>(s: State<T>, e: Event<T>) {
    match e
    case StartPush(t, _) => s.Idle(t)
    case StartPop(t) => s.Idle(t)
    case RunPush(t, woken) =>
      t in s.pushing && t !in s.prodWaiting &&
      (if s.MayPush() && !s.closed then Wakes(s.consWaiting, woken) else woken.None?)
    case RunPop(t, woken) =>
      t in s.popping && t !in s.consWaiting &&
      (if s.queue != [] then Wakes(s.prodWaiting, woken) else woken.None?)
    case TryPop(t, woken) =>
      s.Idle(t) && (if s.queue != [] then Wakes(s.prodWaiting, woken) else woken.None?)
    case SetClosed(t) => s.Idle(t)
    case NotifyConsumers(t) => t in s.owesBoth
    case NotifyProducers(t) => t in s.owesProducers
    case SpuriousProducer(t) => t in s.prodWaiting
    case SpuriousConsumer(t) => t in s.consWaiting
  }

  /** The front item leaves the queue and one producer is notified. */
  function TakeFront<T>(s: State<T>, woken: Option<Tid>): State<T>
    requires s.queue != []
  {
    s.(queue := s.queue[1..], delivered := s.delivered + [s.queue[0]],
       prodWaiting := s.prodWaiting - Woken(woken), prodNotified := s.prodNotified + Woken(woken))
  }

  function AfterRunPush<T>(s: State<T>, t: Tid, woken: Option<Tid>): State<T>
    requires t in s.pushing
  {
    if !s.MayPush() then s.(prodWaiting := s.prodWaiting + {t}, prodNotified := s.prodNotified - {t})
    else if s.closed then s.(pushing := s.pushing - {t}, prodNotified := s.prodNotified - {t})
    else s.(queue := s.queue + [s.pushing[t]], pushed := s.pushed + [s.pushing[t]],
            pushing := s.pushing - {t}, prodNotified := s.prodNotified - {t},
            consWaiting := s.consWaiting - Woken(woken), consNotified := s.consNotified + Woken(woken))
  }

  function AfterRunPop<T>(s: State<T>, t: Tid, woken: Option<Tid>): State<T> {
    if !s.MayPop() then s.(consWaiting := s.consWaiting + {t}, consNotified := s.consNotified - {t})
    else
      var left := s.(popping := s.popping - {t}, consNotified := s.consNotified - {t});
      if s.queue == [] then left else TakeFront(left, woken)
  }

  function Apply<T>(s: State<T>, e: Event<T>): State<T>
    requires Enabled(s, e)
  {
    match e
    case StartPush(t, item) => s.(pushing := s.pushing[t := item])
    case StartPop(t) => s.(popping := s.popping + {t})
    case RunPush(t, woken) => AfterRunPush(s, t, woken)
    case RunPop(t, woken) => AfterRunPop(s, t, woken)
    case TryPop(_, woken) => if s.queue == [] then s else TakeFront(s, woken)
    case SetClosed(t) => s.(closed := true, owesBoth := s.owesBoth + {t})
    case NotifyConsumers(t) =>
      s.(consWaiting := {}, consNotified := s.consNotified + s.consWaiting,
         owesBoth := s.owesBoth - {t}, owesProducers := s.owesProducers + {t})
    case NotifyProducers(t) =>
      s.(prodWaiting := {}, prodNotified := s.prodNotified + s.prodWaiting,
         owesProducers := s.owesProducers - {t})
    case SpuriousProducer(t) => s.(prodWaiting := s.prodWaiting - {t}, prodNotified := s.prodNotified + {t})
    case SpuriousConsumer(t) => s.(consWaiting := s.consWaiting - {t}, consNotified := s.consNotified + {t})
  }

  // ---- Runs ----

  predicate Possible<T>(s: State<T>, events: seq<Event<T>>)
    decreases |events|
  {
    events == [] || (Enabled(s, events[0]) && Possible(Apply(s, events[0]), events[1..]))
  }

  /** The state after a sequence of steps of any threads in any order. */
  function Run<T>(s: State<T>, events: seq<Event<T>>): State<T>
    requires Possible(s, events)
    decreases |events|
  {
    if events == [] then s else Run(Apply(s, events[0]), events[1..])
  }

  /** The states that some interleaving reaches. */
  ghost predicate Reachable<T(!new)>(s: State<T>) {
    exists events: seq<Event<T>> :: 0 < s.capacity && Possible(Initial(s.capacity), events)
                                    && Run(Initial(s.capacity), events) == s
  }

  // ---- The invariant ----

  /** Where each thread can be. */
  predicate WellPlaced<T>(s: State<T>) {
    && s.prodWaiting + s.prodNotified <= s.pushing.Keys && s.prodWaiting !! s.prodNotified
    && s.consWaiting + s.consNotified <= s.popping && s.consWaiting !! s.consNotified
    && s.pushing.Keys !! s.popping !! s.owesBoth !! s.owesProducers
  }

  /** First in, first out, and nothing lost, duplicated or beyond the capacity. */
  predicate Conserves<T(==)>(s: State<T>) {
    s.pushed == s.delivered + s.queue && |s.queue| <= s.capacity
  }

  /**
   While the queue is open, a consumer that waits un-notified has at least as many notified colleagues
   as there are items, and a producer that waits un-notified as many as there are free slots.
   */
  predicate NoLostWakeup<T>(s: State<T>) {
    !s.closed ==>
      && (s.consWaiting != {} ==> |s.queue| <= |s.consNotified|)
      && (s.prodWaiting != {} ==> s.capacity - |s.queue| <= |s.prodNotified|)
  }

  /** Once the queue is closed, whoever still waits un-notified will be notified by a close under way. */
  predicate ClosersPending<T>(s: State<T>) {
    && (!s.closed ==> s.owesBoth == {} && s.owesProducers == {})
    && (s.closed && s.consWaiting != {} ==> s.owesBoth != {})
    && (s.closed && s.prodWaiting != {} ==> s.owesBoth + s.owesProducers != {})
  }

  predicate Inv<T(==)>(s: State<T>) {
    0 < s.capacity && WellPlaced(s) && Conserves(s) && NoLostWakeup(s) && ClosersPending(s)
  }

  lemma PlacementPreserved<T>(s: State<T>, e: Event<T>)
    requires WellPlaced(s) && Enabled(s, e)
    ensures WellPlaced(Apply(s, e))
  {
  }

  lemma ConservationPreserved<T>(s: State<T>, e: Event<T>)
    requires Conserves(s) && Enabled(s, e)
    ensures Conserves(Apply(s, e))
  {
    if s.queue != [] {
      assert s.queue == [s.queue[0]] + s.queue[1..];
    }
  }

  lemma WakeupsPreserved<T>(s: State<T>, e: Event<T>)
    requires Inv(s) && Enabled(s, e)
    ensures NoLostWakeup(Apply(s, e))
  {
    var s' := Apply(s, e);
    match e
    case RunPush(t, woken) =>
      OneLess(s.prodNotified, t);
      OneMore(s.consNotified, woken, s.consWaiting);
    case RunPop(t, woken) =>
      OneLess(s.consNotified, t);
      OneMore(s.prodNotified, woken, s.prodWaiting);
    case TryPop(t, woken) =>
      OneMore(s.prodNotified, woken, s.prodWaiting);
    case SpuriousProducer(t) =>
      OneMore(s.prodNotified, Some(t), s.prodWaiting);
    case SpuriousConsumer(t) =>
      OneMore(s.consNotified, Some(t), s.consWaiting);
    case _ =>
  }

  lemma OneLess(notified: set<Tid>, t: Tid)
    ensures |notified| - 1 <= |notified - {t}| <= |notified|
    ensures t !in notified ==> notified - {t} == notified
  {
    if t in notified {
      assert |notified - {t}| == |notified| - 1;
    } else {
      assert notified - {t} == notified;
    }
  }

  lemma OneMore(notified: set<Tid>, woken: Option<Tid>, waiting: set<Tid>)
    requires notified !! waiting && (woken.Some? ==> woken.value in waiting)
    ensures |notified + Woken(woken)| == |notified| + if woken.Some? then 1 else 0
  {
    if woken.None? {
      assert notified + Woken(woken) == notified;
    }
  }

  lemma ClosersPreserved<T>(s: State<T>, e: Event<T>)
    requires Inv(s) && Enabled(s, e)
    ensures ClosersPending(Apply(s, e))
  {
  }

  lemma InvPreserved<T>(s: State<T>, e: Event<T>)
    requires Inv(s) && Enabled(s, e)
    ensures Inv(Apply(s, e))
  {
    PlacementPreserved(s, e);
    ConservationPreserved(s, e);
    WakeupsPreserved(s, e);
    ClosersPreserved(s, e);
  }

  /** Every state of every run satisfies the invariant. */
  lemma {:induction false} InvAlongRun<T>(s: State<T>, events: seq<Event<T>>)
    requires Inv(s) && Possible(s, events)
    ensures Inv(Run(s, events))
    decreases |events|
  {
    hide Inv, Enabled, Apply;
    if events != [] {
      InvPreserved(s, events[0]);
      InvAlongRun(Apply(s, events[0]), events[1..]);
    }
  }

  lemma ReachableInv<T(!new)>(s: State<T>)
    requires Reachable(s)
    ensures Inv(s)
  {
    var events: seq<Event<T>> :| 0 < s.capacity && Possible(Initial(s.capacity), events)
                                 && Run(Initial(s.capacity), events) == s;
    InvAlongRun(Initial(s.capacity), events);
  }

  // ---- No lost wakeup, no deadlock ----

  /** t holds no lock and waits for none but the mutex, and its next step completes its call. */
  predicate CanFinish<T>(s: State<T>, t: Tid) {
    || (t in s.popping && t !in s.consWaiting && s.MayPop())
    || (t in s.pushing && t !in s.prodWaiting && s.MayPush())
  }

  /** The step that completes the call: it is enabled, whichever thread a notification wakes. */
  lemma FinishingStep<T>(s: State<T>, t: Tid)
    requires Inv(s) && CanFinish(s, t)
    ensures exists e: Event<T> :: Enabled(s, e) && Apply(s, e).Idle(t)
  {
    if t in s.popping {
      var woken := if s.queue != [] then AnyOf(s.prodWaiting) else None;
      assert Enabled(s, RunPop(t, woken)) && Apply(s, RunPop(t, woken)).Idle(t);
    } else {
      var woken := if !s.closed then AnyOf(s.consWaiting) else None;
      assert Enabled(s, RunPush(t, woken)) && Apply(s, RunPush(t, woken)).Idle(t);
    }
  }

  ghost function AnyOf(waiting: set<Tid>): (woken: Option<Tid>)
    ensures Wakes(waiting, woken)
  {
    if waiting == {} then None else
      var t :| t in waiting;
      Some(t)
  }

  /**
   No wakeup is lost: if a thread waits un-notified although its predicate holds, then a notified
   thread is about to use that chance, or a close is about to notify.
   */
  lemma NoWakeupIsLost<T(!new)>(s: State<T>)
    requires Reachable(s)
    ensures s.consWaiting != {} && s.MayPop() ==>
              (exists t :: t in s.consNotified && CanFinish(s, t)) || s.owesBoth != {}
    ensures s.prodWaiting != {} && s.MayPush() ==>
              (exists t :: t in s.prodNotified && CanFinish(s, t)) || s.owesBoth + s.owesProducers != {}
  {
    ReachableInv(s);
    if s.consWaiting != {} && s.MayPop() && !s.closed {
      var t := AnyOf(s.consNotified);
      assert t.value in s.consNotified && CanFinish(s, t.value);
    }
    if s.prodWaiting != {} && s.MayPush() && !s.closed {
      var t := AnyOf(s.prodNotified);
      assert t.value in s.prodNotified && CanFinish(s, t.value);
    }
  }

  /**
   No deadlock: producers and consumers are never all stuck. Whenever both kinds wait un-notified, some
   thread can complete its call at once or a close still owes its notifications.
   */
  lemma NeverAllStuck<T(!new)>(s: State<T>)
    requires Reachable(s) && s.consWaiting != {} && s.prodWaiting != {}
    ensures (exists t :: CanFinish(s, t)) || s.owesBoth + s.owesProducers != {}
  {
    NoWakeupIsLost(s);
    ReachableInv(s);
    assert s.MayPop() || s.MayPush();
  }

  // ---- First in, first out ----

  /** In every reachable state the items handed out are the first ones accepted, in order. */
  lemma DeliversInOrder<T(!new)>(s: State<T>)
    requires Reachable(s)
    ensures s.delivered <= s.pushed && s.pushed == s.delivered + s.queue && |s.queue| <= s.capacity
  {
    ReachableInv(s);
  }

  /** Nothing accepted or handed out is ever taken back. */
  lemma {:induction false} HistoryGrows<T>(s: State<T>, events: seq<Event<T>>)
    requires Possible(s, events)
    ensures s.pushed <= Run(s, events).pushed && s.delivered <= Run(s, events).delivered
    decreases |events|
  {
    if events != [] {
      var s' := Apply(s, events[0]);
      assert s.pushed <= s'.pushed && s.delivered <= s'.delivered;
      HistoryGrows(s', events[1..]);
    }
  }

  // ---- Which items ----

  /** The item with which thread t last entered push. */
  function Announced<T>(events: seq<Event<T>>, t: Tid): Option<T> {
    if events == [] then None
    else
      match events[|events| - 1]
      case StartPush(u, item) => if u == t then Some(item) else Announced(events[..|events| - 1], t)
      case _ => Announced(events[..|events| - 1], t)
  }

  /** In state s, step e is a push that goes through. */
  predicate Accepts<T>(s: State<T>, e: Event<T>) {
    e.RunPush? && |s.queue| < s.capacity && !s.closed
  }

  /** In state s, step e is a pop or try_pop that hands out an item. */
  predicate Takes<T>(s: State<T>, e: Event<T>) {
    (e.RunPop? || e.TryPop?) && 0 < |s.queue|
  }

  lemma {:induction false} RunSplits<T>(s: State<T>, before: seq<Event<T>>, after: seq<Event<T>>)
    requires Possible(s, before + after)
    ensures Possible(s, before) && Possible(Run(s, before), after)
    ensures Run(s, before + after) == Run(Run(s, before), after)
    decreases |before|
  {
    hide Enabled, Apply;
    if before == [] {
      assert before + after == after;
    } else {
      assert (before + after)[0] == before[0] && (before + after)[1..] == before[1..] + after;
      RunSplits(Apply(s, before[0]), before[1..], after);
    }
  }

  /** A run is a shorter run and one more step. */
  lemma RunSnoc<T>(s: State<T>, events: seq<Event<T>>)
    requires Possible(s, events) && events != []
    ensures var before, e := events[..|events| - 1], events[|events| - 1];
            && Possible(s, before) && Enabled(Run(s, before), e)
            && Run(s, events) == Apply(Run(s, before), e)
  {
    hide Enabled, Apply;
    var before, e := events[..|events| - 1], events[|events| - 1];
    assert before + [e] == events;
    RunSplits(s, before, [e]);
    assert [e][1..] == [];
  }

  /** The items announced for the pushes of a run that go through, in the order in which they do. */
  ghost function AcceptedItems<T>(s: State<T>, events: seq<Event<T>>): seq<Option<T>>
    requires Possible(s, events)
  {
    if events == [] then []
    else
      RunSnoc(s, events);
      var before, e := events[..|events| - 1], events[|events| - 1];
      AcceptedItems(s, before) + if Accepts(Run(s, before), e) then [Announced(before, e.t)] else []
  }

  /** How many items a run hands out. */
  ghost function TakenItems<T>(s: State<T>, events: seq<Event<T>>): nat
    requires Possible(s, events)
  {
    if events == [] then 0
    else
      RunSnoc(s, events);
      var before, e := events[..|events| - 1], events[|events| - 1];
      TakenItems(s, before) + if Takes(Run(s, before), e) then 1 else 0
  }

  function Somes<T>(items: seq<T>): seq<Option<T>> {
    seq(|items|, i requires 0 <= i < |items| => Some(items[i]))
  }

  /** One step accepts or hands out the item it should, and nothing else. */
  lemma HistoryStep<T>(s: State<T>, e: Event<T>)
    requires Enabled(s, e)
    ensures Apply(s, e).pushed == s.pushed + if Accepts(s, e) then [s.pushing[e.t]] else []
    ensures Apply(s, e).delivered == s.delivered + if Takes(s, e) then [s.queue[0]] else []
    ensures Apply(s, e).queue ==
            if Accepts(s, e) then s.queue + [s.pushing[e.t]] else if Takes(s, e) then s.queue[1..] else s.queue
    ensures Apply(s, e).closed == (s.closed || e.SetClosed?) && Apply(s, e).capacity == s.capacity
  {
  }

  /** A call ends just when its predicate holds as it checks; otherwise, and only then, the thread waits. */
  lemma CallsEndExactly<T>(s: State<T>, e: Event<T>, u: Tid)
    requires WellPlaced(s) && Enabled(s, e)
    ensures var s', room := Apply(s, e), |s.queue| < s.capacity || s.closed;
            && (u in s'.pushing <==>
                  (e.StartPush? && e.t == u) || (u in s.pushing && !(e.RunPush? && e.t == u && room)))
            && (u in s'.prodWaiting && u !in s.prodWaiting <==> e.RunPush? && e.t == u && !room)
    ensures var s', any := Apply(s, e), 0 < |s.queue| || s.closed;
            && (u in s'.popping <==> e == StartPop(u) || (u in s.popping && !(e.RunPop? && e.t == u && any)))
            && (u in s'.consWaiting && u !in s.consWaiting <==> e.RunPop? && e.t == u && !any)
  {
  }

  /** A thread inside push carries the item it announced. */
  lemma {:induction false} CarriesAnnounced<T>(capacity: nat, events: seq<Event<T>>, t: Tid)
    requires Possible(Initial(capacity), events) && t in Run(Initial(capacity), events).pushing
    ensures Announced(events, t) == Some(Run(Initial(capacity), events).pushing[t])
    decreases |events|
  {
    if events != [] {
      RunSnoc(Initial(capacity), events);
      var before, e := events[..|events| - 1], events[|events| - 1];
      if !(e.StartPush? && e.t == t) {
        CarriesAnnounced(capacity, before, t);
      }
    }
  }

  lemma {:induction false} AcceptedAreAnnounced<T>(capacity: nat, events: seq<Event<T>>)
    requires Possible(Initial(capacity), events)
    ensures Somes(Run(Initial(capacity), events).pushed) == AcceptedItems(Initial(capacity), events)
    decreases |events|
  {
    hide Enabled, Apply, Accepts, Somes;
    if events != [] {
      RunSnoc(Initial(capacity), events);
      var before, e := events[..|events| - 1], events[|events| - 1];
      AcceptedAreAnnounced(capacity, before);
      OneMoreAccepted(capacity, before, e);
    } else {
      NoItems<T>();
    }
  }

  lemma NoItems<T>()
    ensures Somes<T>([]) == []
  {
  }

  lemma SomesPrefix<T>(first: seq<T>, rest: seq<T>)
    ensures |Somes(first)| == |first| && Somes(first) == Somes(first + rest)[..|first|]
  {
  }

  /**
   Over every run of a new queue: the items accepted are exactly those announced for the pushes that went
   through, in that order, and the items handed out are the first of them, one for each pop that found one.
   */
  lemma HistoryIsExact<T>(capacity: nat, events: seq<Event<T>>)
    requires 0 < capacity && Possible(Initial(capacity), events)
    ensures var s, accepted := Run(Initial(capacity), events), AcceptedItems(Initial(capacity), events);
            && Somes(s.pushed) == accepted
            && TakenItems(Initial(capacity), events) <= |accepted|
            && Somes(s.delivered) == accepted[..TakenItems(Initial(capacity), events)]
  {
    var s := Run(Initial(capacity), events);
    assert Inv(Initial<T>(capacity));
    InvAlongRun(Initial(capacity), events);
    assert s.pushed == s.delivered + s.queue;
    hide Inv, Somes, Run, Possible;
    AcceptedAreAnnounced(capacity, events);
    LengthsMatch(capacity, events);
    SomesPrefix(s.delivered, s.queue);
    SomesPrefix(s.pushed, []);
    assert s.pushed + [] == s.pushed;
  }

  lemma OneMoreAccepted<T>(capacity: nat, before: seq<Event<T>>, e: Event<T>)
    requires Possible(Initial(capacity), before) && Enabled(Run(Initial(capacity), before), e)
    ensures var s := Run(Initial(capacity), before);
            Somes(Apply(s, e).pushed) ==
            Somes(s.pushed) + if Accepts(s, e) then [Announced(before, e.t)] else []
  {
    var s := Run(Initial(capacity), before);
    HistoryStep(s, e);
    if Accepts(s, e) {
      CarriesAnnounced(capacity, before, e.t);
    }
  }

  lemma {:induction false} LengthsMatch<T>(capacity: nat, events: seq<Event<T>>)
    requires Possible(Initial(capacity), events)
    ensures |Run(Initial(capacity), events).delivered| == TakenItems(Initial(capacity), events)
    decreases |events|
  {
    if events != [] {
      RunSnoc(Initial(capacity), events);
      var before, e := events[..|events| - 1], events[|events| - 1];
      LengthsMatch(capacity, before);
      HistoryStep(Run(Initial(capacity), before), e);
    }
  }

  // ---- Closing ----

  /** From a closed queue on, nothing is accepted and no thread starts to wait. */
  lemma {:induction false} ClosedIsFinal<T>(s: State<T>, events: seq<Event<T>>)
    requires s.closed && Possible(s, events)
    ensures var s' := Run(s, events);
            && s'.closed && s'.pushed == s.pushed
            && s'.consWaiting <= s.consWaiting && s'.prodWaiting <= s.prodWaiting
    decreases |events|
  {
    if events != [] {
      ClosedStep(s, events[0]);
      ClosedIsFinal(Apply(s, events[0]), events[1..]);
    }
  }

  lemma ClosedStep<T>(s: State<T>, e: Event<T>)
    requires s.closed && Enabled(s, e)
    ensures var s' := Apply(s, e);
            && s'.closed && s'.pushed == s.pushed
            && s'.consWaiting <= s.consWaiting && s'.prodWaiting <= s.prodWaiting
  {
  }

  /** A blocking pop gives up only when everything that was ever accepted has been handed out. */
  lemma GivesUpOnlyWhenDrained<T(!new)>(s: State<T>, t: Tid, woken: Option<Tid>)
    requires Reachable(s) && Enabled(s, RunPop(t, woken)) && s.MayPop()
    requires Apply(s, RunPop(t, woken)).delivered == s.delivered
    ensures s.closed && s.queue == [] && s.delivered == s.pushed
  {
    ReachableInv(s);
  }

  /**
   When the closing threads have sent their notifications, no thread waits un-notified, none ever will
   again, and every thread inside a call completes it with its next step.
   */
  lemma ClosedLetsEveryoneGo<T(!new)>(s: State<T>, events: seq<Event<T>>)
    requires Reachable(s) && s.closed && s.owesBoth == {} && s.owesProducers == {}
    requires Possible(s, events)
    ensures var s' := Run(s, events);
            && s'.consWaiting == {} && s'.prodWaiting == {}
            && forall t :: t in s'.pushing || t in s'.popping ==> CanFinish(s', t)
  {
    ReachableInv(s);
    ClosedIsFinal(s, events);
  }
}
