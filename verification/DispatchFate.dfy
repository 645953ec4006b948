/**
 What becomes of a dispatched request: refused at once when the engine is cancelled or nothing is routed for
 its task, handed to the backend of its task otherwise; and what shutting down leads to.
 */
module DispatchFate {
  import opened BatchProtocol
  import opened EngineProtocol
  import opened CacheTransparency
  import opened CachePersistence
  import opened Options

  // ----- Cancellation and shutdown over a run

  lemma StepSwitches(e: Engine, a: Action)
    requires CanAct(e, a)
    ensures Act(e, a).cancelled == (e.cancelled || a == Cancel)
    ensures Act(e, a).routes == if a == Shutdown then map[] else e.routes
  {
  }

  lemma InSnoc<T>(actions: seq<T>, a: T, x: T)
    ensures x in actions + [a] <==> x in actions || a == x
  {
  }

  /** Nothing undoes a cancellation, and only a shutdown takes routes away. */
  lemma {:induction false} SwitchesAfter(s: Engine, actions: seq<Action>)
    requires Fresh(s) && IsRun(s, actions)
    ensures After(s, actions).cancelled <==> Cancel in actions
    ensures After(s, actions).routes == if Shutdown in actions then map[] else s.routes
    decreases |actions|
  {
    if |actions| > 0 {
      var n := |actions| - 1;
      var init, a := actions[..n], actions[n];
      assert actions == init + [a];
      SwitchesAfter(s, init);
      StepSwitches(After(s, init), a);
      InSnoc(init, a, Cancel);
      InSnoc(init, a, Shutdown);
    }
  }

  /** The state after a dispatch that is refused with this error: only the reply is new. */
  ghost predicate RefusedWith(e: Engine, e': Engine, item: Item, error: Error) {
    e' == e.(issued := e.issued + [item], replies := e.replies + [Reply(item.ticket, item.input, Err(error))])
  }

  /** The state after a dispatch that is not refused: the request waits for a place in the queue of `b`. */
  ghost predicate HandedTo(e: Engine, e': Engine, item: Item, b: nat) {
    b < |e.backends| && e' == e.(issued := e.issued + [item],
      backends := e.backends[b := e.backends[b].(waiting := e.backends[b].waiting + [item])])
  }

  /** A dispatched request is answered with the cancellation exactly when the engine was cancelled before it;
      otherwise with the missing backend exactly when no backend was registered for its task or the engine
      was shut down before it; and otherwise it joins the waiting list of the backend registered for its task,
      and nothing else changes. */
  lemma DispatchOutcome(s: Engine, actions: seq<Action>, item: Item)
    requires Fresh(s) && IsRun(s, actions + [Dispatch(item)])
    ensures IsRun(s, actions)
    ensures var e, e', task := After(s, actions), After(s, actions + [Dispatch(item)]), item.input.task;
            && (RefusedWith(e, e', item, Cancelled) <==> Cancel in actions)
            && (RefusedWith(e, e', item, NoBackend(task)) <==>
                Cancel !in actions && (task !in s.routes || Shutdown in actions))
            && (Cancel !in actions && task in s.routes && Shutdown !in actions ==>
                HandedTo(e, e', item, s.routes[task]))
  {
    LastAction(s, actions, Dispatch(item));
    SwitchesAfter(s, actions);
    RefusalsDiffer(After(s, actions), After(s, actions + [Dispatch(item)]), item);
  }

  lemma RefusalsDiffer(e: Engine, e': Engine, item: Item)
    ensures !(RefusedWith(e, e', item, Cancelled) && RefusedWith(e, e', item, NoBackend(item.input.task)))
    ensures forall b, error :: HandedTo(e, e', item, b) ==> !RefusedWith(e, e', item, error)
  {
    if RefusedWith(e, e', item, Cancelled) {
      assert e'.replies[|e.replies|] == Reply(item.ticket, item.input, Err(Cancelled));
    }
    forall b, error | HandedTo(e, e', item, b)
      ensures !RefusedWith(e, e', item, error)
    {
      assert |e'.replies| == |e.replies|;
    }
  }

  // ----- Refusals in the end

  /** At `n` the run dispatches `x`, after a cancellation. */
  predicate DispatchedCancelled(actions: seq<Action>, n: nat, x: Item) {
    n < |actions| && actions[n] == Dispatch(x) && Cancel in actions[..n]
  }

  /** At `n` the run dispatches `x`, not cancelled, with nothing routed for its task. */
  predicate DispatchedUnrouted(s: Engine, actions: seq<Action>, n: nat, x: Item) {
    n < |actions| && actions[n] == Dispatch(x) && Cancel !in actions[..n] &&
    (x.input.task !in s.routes || Shutdown in actions[..n])
  }

  predicate Refused(s: Engine, actions: seq<Action>, n: nat, x: Item, error: Error) {
    (error == Cancelled && DispatchedCancelled(actions, n, x)) ||
    (error == NoBackend(x.input.task) && DispatchedUnrouted(s, actions, n, x))
  }

  /** A reply that says the engine was cancelled or has no backend. */
  predicate SaysRefused(r: Reply) {
    r.result.Err? && (r.result.error.Cancelled? || r.result.error.NoBackend?)
  }

  lemma RefusedSnoc(s: Engine, actions: seq<Action>, a: Action, n: nat, x: Item, error: Error)
    requires n < |actions|
    ensures Refused(s, actions + [a], n, x, error) <==> Refused(s, actions, n, x, error)
  {
    assert (actions + [a])[..n] == actions[..n];
  }

  /** Batchers never answer with a refusal. */
  lemma BatchersDoNotRefuse(c: Config, l: Local, store: Store, e: Event)
    requires Enabled(l, e)
    ensures forall r :: r in Step(c, l, store, e).replies ==> !SaysRefused(r)
  {
  }

  predicate RefusedNowBy(e: Engine, a: Action, x: Item, error: Error) {
    && a == Dispatch(x) && (e.cancelled || x.input.task !in e.routes)
    && error == if e.cancelled then Cancelled else NoBackend(x.input.task)
  }

  /** What one action adds to the replies: a refusal only for a request dispatched then. */
  lemma StepRefuses(e: Engine, a: Action) returns (more: seq<Reply>)
    requires CanAct(e, a)
    ensures Act(e, a).replies == e.replies + more
    ensures forall r :: r in more && SaysRefused(r) ==> RefusedNowBy(e, a, Item(r.ticket, r.input), r.result.error)
    ensures a.Dispatch? && (e.cancelled || a.item.input.task !in e.routes) ==>
              Reply(a.item.ticket, a.item.input, Err(if e.cancelled then Cancelled else NoBackend(a.item.input.task)))
              in more
  {
    more := [];
    if a.Advance? {
      var d := e.backends[a.b];
      more := Step(d.config, d.local, e.store, a.event).replies;
      BatchersDoNotRefuse(d.config, d.local, e.store, a.event);
    } else if a.Dispatch? && (e.cancelled || a.item.input.task !in e.routes) {
      more := [Reply(a.item.ticket, a.item.input,
                     Err(if e.cancelled then Cancelled else NoBackend(a.item.input.task)))];
    }
  }

  lemma RefusedNow(s: Engine, actions: seq<Action>, a: Action, x: Item, error: Error)
    requires Fresh(s) && IsRun(s, actions)
    ensures var e := After(s, actions);
            Refused(s, actions + [a], |actions|, x, error) <==> RefusedNowBy(e, a, x, error)
  {
    SwitchesAfter(s, actions);
    assert (actions + [a])[..|actions|] == actions;
  }

  /** In every run, a reply says that the engine was cancelled exactly when its request was dispatched after
      a cancellation, and that there is no backend exactly when it was dispatched without one, with nothing
      routed for its task. */
  lemma {:induction false} RefusedReplies(s: Engine, actions: seq<Action>, r: Reply)
    requires Fresh(s) && IsRun(s, actions) && SaysRefused(r)
    ensures r in After(s, actions).replies <==>
            exists n :: Refused(s, actions, n, Item(r.ticket, r.input), r.result.error)
    decreases |actions|
  {
    if |actions| > 0 {
      var m := |actions| - 1;
      var init, a, x, error := actions[..m], actions[m], Item(r.ticket, r.input), r.result.error;
      assert actions == init + [a];
      RefusedReplies(s, init, r);
      var more := StepRefuses(After(s, init), a);
      RefusedNow(s, init, a, x, error);
      if n: nat :| Refused(s, init, n, x, error) {
        RefusedSnoc(s, init, a, n, x, error);
      }
      if n: nat :| Refused(s, actions, n, x, error) {
        if n < m { RefusedSnoc(s, init, a, n, x, error); }
      }
    }
  }

  lemma {:induction false} RepliedSome(replies: seq<Reply>, r: Reply, x: Item)
    requires r in replies && Item(r.ticket, r.input) == x
    ensures Replied(replies, x) > 0
    decreases |replies|
  {
    var n := |replies| - 1;
    assert replies == replies[..n] + [replies[n]];
    if r in replies[..n] { RepliedSome(replies[..n], r, x); }
  }

  lemma {:induction false} RepliedOnce(replies: seq<Reply>, r: Reply, r': Reply, x: Item)
    requires r in replies && r' in replies && Item(r.ticket, r.input) == x == Item(r'.ticket, r'.input)
    requires Replied(replies, x) <= 1
    ensures r == r'
    decreases |replies|
  {
    var n := |replies| - 1;
    assert replies == replies[..n] + [replies[n]];
    if r in replies[..n] { RepliedSome(replies[..n], r, x); }
    if r' in replies[..n] { RepliedSome(replies[..n], r', x); }
    if r in replies[..n] && r' in replies[..n] { RepliedOnce(replies[..n], r, r', x); }
  }

  /** A refused request has the refusal as its one reply, from then on, and is never held. */
  lemma RefusedIsFinal(s: Engine, actions: seq<Action>, n: nat, x: Item, error: Error)
    requires Fresh(s) && IsRun(s, actions) && DistinctTickets(After(s, actions))
    requires Refused(s, actions, n, x, error)
    ensures var e := After(s, actions);
            && Held(e.backends, x) == 0
            && Reply(x.ticket, x.input, Err(error)) in e.replies
            && forall r :: r in e.replies && r.ticket == x.ticket && r.input == x.input ==> r.result == Err(error)
  {
    var e, own := After(s, actions), Reply(x.ticket, x.input, Err(error));
    RefusedReplies(s, actions, own);
    ExactlyOnce(s, actions, x);
    RepliedSome(e.replies, own, x);
    forall r | r in e.replies && r.ticket == x.ticket && r.input == x.input
      ensures r.result == Err(error)
    {
      RepliedOnce(e.replies, own, r, x);
    }
  }

  // ----- Shutdown

  lemma HoldsSome<T>(s: seq<T>)
    requires |s| > 0
    ensures multiset(s)[s[0]] > 0
  {
    assert s[0] in multiset(s);
  }

  /** A backend without routes that has not stopped has a step to take, or a caller has one for it. */
  lemma UnroutedCanStep(e: Engine, b: nat) returns (a: Action)
    requires e.capacity > 0 && e.routes == map[] && b < |e.backends| && InOrder(e.backends[b])
    requires e.backends[b].local.phase != Stopped
    ensures CanAct(e, a) && IsOwnStep(a)
  {
    var d := e.backends[b];
    if |d.waiting| > 0 {
      HoldsSome(d.waiting);
      a := BackendCanStep(e, b, d.waiting[0]);
    } else if |d.queue| > 0 {
      HoldsSome(d.queue);
      a := BackendCanStep(e, b, d.queue[0]);
    } else if |d.local.batch| > 0 {
      HoldsSome(d.local.batch);
      a := BackendCanStep(e, b, d.local.batch[0]);
    } else {
      a := if d.local.phase == Putting then Advance(b, PutDone(true))
        else if d.local.phase == Drain then Advance(b, QueueEmpty) else Advance(b, ChannelClosed);
    }
  }

  /** After a shutdown, when no caller and no batcher has a step left, every batcher has stopped; and only
      after a shutdown does one stop that serves a task. */
  lemma ShutdownStopsBatchers(s: Engine, actions: seq<Action>)
    requires Fresh(s) && IsRun(s, actions)
    ensures Shutdown in actions && (forall a :: CanAct(After(s, actions), a) ==> !IsOwnStep(a)) ==>
              forall d :: d in After(s, actions).backends ==> d.local.phase == Stopped
    ensures Shutdown !in actions ==> forall t :: t in s.routes ==>
              s.routes[t] < |After(s, actions).backends| &&
              After(s, actions).backends[s.routes[t]].local.phase != Stopped
  {
    var e := After(s, actions);
    SwitchesAfter(s, actions);
    RunKeepsOrder(s, actions);
    if Shutdown in actions && forall a :: CanAct(e, a) ==> !IsOwnStep(a) {
      forall d | d in e.backends
        ensures d.local.phase == Stopped
      {
        var b :| 0 <= b < |e.backends| && e.backends[b] == d;
        if d.local.phase != Stopped { var _ := UnroutedCanStep(e, b); }
      }
    }
  }
}
