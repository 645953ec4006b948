/**
 The engine: many callers, one bounded queue and one batcher a backend, one shared cache. Callers,
 batchers and other processes interleave in any order.
 */
module EngineProtocol {
  import opened BatchProtocol
  import opened Options

  /** What came off a queue, and the cached output it was answered with, if any. */
  datatype Receipt = Receipt(item: Item, hit: Option<TaskOutput>)

  /** `waiting` callers hold a sender but found the queue full. `sent`, `received` and `calls` are the
      history of the queue and of the backend. */
  datatype Backend = Backend(
    config: Config,
    waiting: seq<Item>,
    queue: seq<Item>,
    local: Local,
    sent: seq<Item>,
    received: seq<Receipt>,
    calls: seq<Call>)

  datatype Engine = Engine(
    capacity: nat,
    cancelled: bool,
    routes: map<Task, nat>,
    backends: seq<Backend>,
    store: Store,
    issued: seq<Item>,
    replies: seq<Reply>)

  datatype Action =
    | Dispatch(item: Item)
    | Send(b: nat, k: nat)
    | Advance(b: nat, event: Event)
    | ForeignWrite(writes: Store)
    | Cancel
    | Shutdown

  // ----- Registration

  /** Routes every task of a new backend, or stops at the first task that already has one. */
  method Register(routes0: map<Task, nat>, b: nat, tasks: seq<Task>) returns (routes: map<Task, nat>, ok: bool)
    ensures ok <==> (forall t :: t in tasks ==> t !in routes0) && forall i, j :: 0 <= i < j < |tasks| ==>
            tasks[i] != tasks[j]
    ensures ok ==> routes.Keys == routes0.Keys + (set t | t in tasks)
    ensures ok ==> forall t :: t in routes ==> routes[t] == if t in tasks then b else routes0[t]
  {
    routes := routes0;
    for i := 0 to |tasks|
      invariant forall t :: t in tasks[..i] ==> t !in routes0
      invariant forall j, k :: 0 <= j < k < i ==> tasks[j] != tasks[k]
      invariant routes.Keys == routes0.Keys + (set t | t in tasks[..i])
      invariant forall t :: t in routes ==> routes[t] == if t in tasks[..i] then b else routes0[t]
    {
      assert tasks[..i + 1] == tasks[..i] + [tasks[i]];
      if tasks[i] in routes {
        return routes, false;
      }
      routes := routes[tasks[i] := b];
    }
    assert tasks[..|tasks|] == tasks;
    ok := true;
  }

  // ----- Steps

  predicate CanAdvance(s: Engine, b: nat, e: Event) {
    b < |s.backends| && Enabled(s.backends[b].local, e) &&
    match e
    case Arrived(item, _) => |s.backends[b].queue| > 0 && item == s.backends[b].queue[0]
    case ChannelClosed =>
      s.backends[b].queue == [] && s.backends[b].waiting == [] && forall t :: t in s.routes ==> s.routes[t] != b
    case QueueEmpty => s.backends[b].queue == []
    case _ => true
  }

  predicate CanAct(s: Engine, a: Action) {
    match a
    case Send(b, k) => b < |s.backends| && k < |s.backends[b].waiting| && |s.backends[b].queue| < s.capacity
    case Advance(b, e) => CanAdvance(s, b, e)
    case Dispatch(item) =>
      item.input.task in s.routes ==> s.routes[item.input.task] < |s.backends|
    case _ => true
  }

  function Refusal(s: Engine, item: Item): Option<Error> {
    if s.cancelled then Some(Cancelled)
    else if item.input.task !in s.routes then Some(NoBackend(item.input.task))
    else None
  }

  /** What one batcher's event does to its own state; `Step` says what it does to the cache. */
  function AdvanceBackend(d: Backend, store: Store, e: Event): Backend
    requires Enabled(d.local, e) && (e.Arrived? ==> |d.queue| > 0)
  {
    var o := Step(d.config, d.local, store, e);
    d.(local := o.local,
       queue := if e.Arrived? then d.queue[1..] else d.queue,
       received := d.received + if e.Arrived? then [Receipt(e.item, CacheGet(d.config, store, e.item.input, e.readOk))]
         else [],
       calls := d.calls + o.calls)
  }

  function Act(s: Engine, a: Action): Engine
    requires CanAct(s, a)
  {
    match a
    case Dispatch(item) =>
      var refusal := Refusal(s, item);
      if refusal.Some? then
        s.(issued := s.issued + [item], replies := s.replies + [Reply(item.ticket, item.input, Err(refusal.value))])
      else
        var b := s.routes[item.input.task];
        var d := s.backends[b];
        s.(issued := s.issued + [item], backends := s.backends[b := d.(waiting := d.waiting + [item])])
    case Send(b, k) =>
      var d := s.backends[b];
      var item := d.waiting[k];
      s.(backends := s.backends[b := d.(waiting := d.waiting[..k] + d.waiting[k + 1..], queue := d.queue + [item],
                                        sent := d.sent + [item])])
    case Advance(b, e) =>
      var d := s.backends[b];
      var o := Step(d.config, d.local, s.store, e);
      s.(backends := s.backends[b := AdvanceBackend(d, s.store, e)], store := o.store, replies := s.replies + o.replies)
    case ForeignWrite(writes) => s.(store := s.store + writes)
    case Cancel => s.(cancelled := true)
    case Shutdown => s.(routes := map[])
  }

  /** An engine after registration, before any dispatch. */
  ghost predicate Fresh(s: Engine) {
    && s.capacity > 0 && !s.cancelled && s.issued == [] && s.replies == []
    && (forall t :: t in s.routes ==> s.routes[t] < |s.backends|)
    && (forall d :: d in s.backends ==>
        d.waiting == [] && d.queue == [] && d.sent == [] && d.received == [] && d.calls == [] && d.local == START)
  }

  ghost predicate IsRun(s: Engine, actions: seq<Action>)
    decreases |actions|, 0
  {
    |actions| == 0 ||
    var n := |actions| - 1;
    IsRun(s, actions[..n]) && CanAct(After(s, actions[..n]), actions[n])
  }

  ghost function After(s: Engine, actions: seq<Action>): Engine
    requires IsRun(s, actions)
    decreases |actions|, 1
  {
    if |actions| == 0 then s else Act(After(s, actions[..|actions| - 1]), actions[|actions| - 1])
  }

  // ----- Every request is in one place

  /** How often `x` has been replied to. */
  function Replied(replies: seq<Reply>, x: Item): nat {
    if |replies| == 0 then 0
    else
      var n := |replies| - 1;
      Replied(replies[..n], x) + if Item(replies[n].ticket, replies[n].input) == x then 1 else 0
  }

  /** How often a backend holds `x`: in a waiting caller, its queue or the batch being gathered. */
  function HeldBy(d: Backend, x: Item): nat {
    multiset(d.waiting)[x] + multiset(d.queue)[x] + multiset(d.local.batch)[x]
  }

  function Held(backends: seq<Backend>, x: Item): nat {
    if |backends| == 0 then 0 else Held(backends[..|backends| - 1], x) + HeldBy(backends[|backends| - 1], x)
  }

  ghost predicate Conserved(s: Engine) {
    forall x :: multiset(s.issued)[x] == Replied(s.replies, x) + Held(s.backends, x)
  }

  lemma {:induction false} RepliedConcat(a: seq<Reply>, b: seq<Reply>, x: Item)
    ensures Replied(a + b, x) == Replied(a, x) + Replied(b, x)
    decreases |b|
  {
    if |b| == 0 {
      assert a + b == a;
    } else {
      RepliedConcat(a, b[..|b| - 1], x);
      assert (a + b)[..|a + b| - 1] == a + b[..|b| - 1];
    }
  }

  lemma {:induction false} HeldUpdate(backends: seq<Backend>, b: nat, d: Backend, x: Item)
    requires b < |backends|
    ensures Held(backends[b := d], x) == Held(backends, x) - HeldBy(backends[b], x) + HeldBy(d, x)
    decreases |backends|
  {
    var n := |backends| - 1;
    if b == n {
      assert backends[b := d][..n] == backends[..n];
    } else {
      HeldUpdate(backends[..n], b, d, x);
      assert backends[b := d][..n] == backends[..n][b := d];
    }
  }

  lemma {:induction false} DistributeReplies(call: Call, n: nat, x: Item)
    requires n <= |call.items|
    ensures Replied(Distribute(call)[..n], x) == multiset(call.items[..n])[x]
    decreases n
  {
    if n > 0 {
      DistributeReplies(call, n - 1, x);
      assert Distribute(call)[..n][..n - 1] == Distribute(call)[..n - 1];
      assert call.items[..n] == call.items[..n - 1] + [call.items[n - 1]];
    }
  }

  /** One batcher's event moves requests from the batcher to the replies, and loses none. */
  lemma AdvanceConserves(d: Backend, store: Store, e: Event, x: Item)
    requires Enabled(d.local, e) && (e.Arrived? ==> |d.queue| > 0 && e.item == d.queue[0])
    ensures HeldBy(d, x) == HeldBy(AdvanceBackend(d, store, e), x) +
            Replied(Step(d.config, d.local, store, e).replies, x)
  {
    var o := Step(d.config, d.local, store, e);
    if e.Arrived? {
      assert d.queue == [d.queue[0]] + d.queue[1..];
      if |o.replies| > 0 { SingleReply(o.replies[0], x); }
    } else if e.BackendReturned? {
      var call := Call(d.local.batch, e.returned);
      DistributeReplies(call, |call.items|, x);
      assert Distribute(call)[..|call.items|] == Distribute(call) && call.items[..|call.items|] == call.items;
    }
  }

  lemma SingleReply(r: Reply, x: Item)
    ensures Replied([r], x) == if Item(r.ticket, r.input) == x then 1 else 0
  {
    assert [r][..0] == [];
  }

  lemma StepConserves(s: Engine, a: Action)
    requires Conserved(s) && CanAct(s, a)
    ensures Conserved(Act(s, a))
  {
    var s' := Act(s, a);
    forall x
      ensures multiset(s'.issued)[x] == Replied(s'.replies, x) + Held(s'.backends, x)
    {
      match a
      case Dispatch(item) => DispatchConserves(s, item, x);
      case Send(b, k) => SendConserves(s, b, k, x);
      case Advance(b, e) =>
        var d := s.backends[b];
        AdvanceConserves(d, s.store, e, x);
        HeldUpdate(s.backends, b, AdvanceBackend(d, s.store, e), x);
        RepliedConcat(s.replies, Step(d.config, d.local, s.store, e).replies, x);
      case _ =>
    }
  }

  lemma DispatchConserves(s: Engine, item: Item, x: Item)
    requires CanAct(s, Dispatch(item)) && multiset(s.issued)[x] == Replied(s.replies, x) + Held(s.backends, x)
    ensures var s' := Act(s, Dispatch(item)); multiset(s'.issued)[x] == Replied(s'.replies, x) + Held(s'.backends, x)
  {
    var refusal := Refusal(s, item);
    if refusal.Some? {
      var r := Reply(item.ticket, item.input, Err(refusal.value));
      RepliedConcat(s.replies, [r], x);
      SingleReply(r, x);
    } else {
      var b := s.routes[item.input.task];
      HeldUpdate(s.backends, b, Act(s, Dispatch(item)).backends[b], x);
    }
  }

  lemma SendConserves(s: Engine, b: nat, k: nat, x: Item)
    requires CanAct(s, Send(b, k))
    ensures Held(Act(s, Send(b, k)).backends, x) == Held(s.backends, x)
  {
    var d := s.backends[b];
    assert d.waiting == d.waiting[..k] + [d.waiting[k]] + d.waiting[k + 1..];
    HeldUpdate(s.backends, b, Act(s, Send(b, k)).backends[b], x);
  }

  lemma {:induction false} HeldZero(backends: seq<Backend>, x: Item)
    ensures Held(backends, x) == 0 <==> forall d :: d in backends ==> HeldBy(d, x) == 0
    decreases |backends|
  {
    if |backends| > 0 {
      HeldZero(backends[..|backends| - 1], x);
      assert backends == backends[..|backends| - 1] + [backends[|backends| - 1]];
    }
  }

  // ----- What every step keeps of each backend

  function ReceivedItems(received: seq<Receipt>): seq<Item> {
    seq(|received|, i requires 0 <= i < |received| => received[i].item)
  }

  function Misses(received: seq<Receipt>): seq<Item> {
    if |received| == 0 then []
    else
      var last := received[|received| - 1];
      Misses(received[..|received| - 1]) + if last.hit == None then [last.item] else []
  }

  function CallItems(calls: seq<Call>): seq<Item> {
    if |calls| == 0 then [] else CallItems(calls[..|calls| - 1]) + calls[|calls| - 1].items
  }

  /** The queue is first in, first out; the calls carry the misses, each once, in arrival order, in
      batches within the limit; and a stopped batcher holds nothing. */
  ghost predicate InOrder(d: Backend) {
    && LocalOk(d.config, d.local)
    && d.sent == ReceivedItems(d.received) + d.queue
    && Misses(d.received) == CallItems(d.calls) + d.local.batch
    && (forall call :: call in d.calls ==> 1 <= |call.items| <= MaxSize(d.config))
    && (d.local.phase == Stopped ==> d.waiting == [] && d.queue == [])
  }

  ghost predicate AllInOrder(s: Engine) {
    && (forall b :: 0 <= b < |s.backends| ==> InOrder(s.backends[b]))
    && (forall t :: t in s.routes ==> s.routes[t] < |s.backends| && s.backends[s.routes[t]].local.phase != Stopped)
  }

  lemma AdvanceInOrder(d: Backend, store: Store, e: Event)
    requires InOrder(d) && Enabled(d.local, e)
    requires e.Arrived? ==> |d.queue| > 0 && e.item == d.queue[0]
    requires e.ChannelClosed? ==> d.queue == [] && d.waiting == []
    ensures InOrder(AdvanceBackend(d, store, e))
  {
    StepKeepsLocalOk(d.config, d.local, store, e);
    if e.Arrived? {
      ArrivedInOrder(d, store, e.item, e.readOk);
    } else if e.BackendReturned? {
      ReturnedInOrder(d, store, e.returned);
    } else {
      assert d.received + [] == d.received && d.calls + [] == d.calls;
    }
  }

  lemma ArrivedInOrder(d: Backend, store: Store, item: Item, readOk: bool)
    requires Enabled(d.local, Arrived(item, readOk)) && |d.queue| > 0 && item == d.queue[0]
    requires d.sent == ReceivedItems(d.received) + d.queue && Misses(d.received) == CallItems(d.calls) + d.local.batch
    ensures var d' := AdvanceBackend(d, store, Arrived(item, readOk));
            && d'.sent == ReceivedItems(d'.received) + d'.queue && d'.calls == d.calls
            && Misses(d'.received) == CallItems(d'.calls) + d'.local.batch
  {
    var r := Receipt(item, CacheGet(d.config, store, item.input, readOk));
    ReceivedSnoc(d.received, r);
    MoveHead(ReceivedItems(d.received), d.queue);
    Associate(CallItems(d.calls), d.local.batch, item);
    NothingAppended(d.calls);
  }

  lemma NothingAppended<T>(a: seq<T>)
    ensures a + [] == a
  {
  }

  lemma MoveHead<T>(a: seq<T>, b: seq<T>)
    requires |b| > 0
    ensures a + b == a + [b[0]] + b[1..]
  {
  }

  lemma Associate<T>(a: seq<T>, b: seq<T>, x: T)
    ensures a + (b + [x]) == a + b + [x]
  {
  }

  lemma ReturnedInOrder(d: Backend, store: Store, returned: Returned)
    requires Enabled(d.local, BackendReturned(returned)) && Misses(d.received) == CallItems(d.calls) + d.local.batch
    ensures var d' := AdvanceBackend(d, store, BackendReturned(returned));
            && d'.received == d.received && d'.calls == d.calls + [Call(d.local.batch, returned)]
            && Misses(d'.received) == CallItems(d'.calls) + d'.local.batch
  {
    NothingAppended(d.received);
    CallItemsSnoc(d.calls, Call(d.local.batch, returned));
    NothingAppended(CallItems(d.calls) + d.local.batch);
  }

  lemma ReceivedSnoc(received: seq<Receipt>, r: Receipt)
    ensures ReceivedItems(received + [r]) == ReceivedItems(received) + [r.item]
    ensures Misses(received + [r]) == Misses(received) + if r.hit == None then [r.item] else []
  {
    assert (received + [r])[..|received|] == received;
  }

  lemma CallItemsSnoc(calls: seq<Call>, call: Call)
    ensures CallItems(calls + [call]) == CallItems(calls) + call.items
  {
    assert (calls + [call])[..|calls|] == calls;
  }

  /** A step that changes one backend only. */
  lemma OneBackendInOrder(s: Engine, s': Engine, b: nat, d: Backend)
    requires AllInOrder(s) && b < |s.backends| && s'.backends == s.backends[b := d] && s'.routes == s.routes
    requires InOrder(d)
    requires d.local.phase == Stopped ==> s.backends[b].local.phase == Stopped || forall t :: t in s.routes ==>
             s.routes[t] != b
    ensures AllInOrder(s')
  {
    forall t | t in s'.routes
      ensures s'.routes[t] < |s'.backends| && s'.backends[s'.routes[t]].local.phase != Stopped
    {
      assert s.backends[s.routes[t]].local.phase != Stopped;
    }
  }

  lemma StepInOrder(s: Engine, a: Action)
    requires AllInOrder(s) && CanAct(s, a)
    ensures AllInOrder(Act(s, a))
  {
    var s' := Act(s, a);
    match a
    case Advance(b, e) =>
      AdvanceInOrder(s.backends[b], s.store, e);
      AdvanceStops(s.backends[b], s.store, e);
      OneBackendInOrder(s, s', b, AdvanceBackend(s.backends[b], s.store, e));
    case Send(b, k) =>
      var d := s.backends[b];
      assert ReceivedItems(d.received) + (d.queue + [d.waiting[k]]) == d.sent + [d.waiting[k]];
      OneBackendInOrder(s, s', b, s'.backends[b]);
    case Dispatch(item) =>
      if Refusal(s, item) == None {
        var b := s.routes[item.input.task];
        OneBackendInOrder(s, s', b, s'.backends[b]);
      }
    case _ =>
  }

  /** Only a closed channel stops a batcher. */
  lemma AdvanceStops(d: Backend, store: Store, e: Event)
    requires Enabled(d.local, e) && (e.Arrived? ==> |d.queue| > 0)
    ensures AdvanceBackend(d, store, e).local.phase == Stopped ==> e.ChannelClosed?
  {
  }

  /** Conservation and order, after every run. */
  lemma {:induction false} RunKeepsOrder(s: Engine, actions: seq<Action>)
    requires Fresh(s) && IsRun(s, actions)
    ensures Conserved(After(s, actions)) && AllInOrder(After(s, actions))
    ensures After(s, actions).capacity == s.capacity
    decreases |actions|
  {
    if |actions| == 0 {
      FreshHoldsNothing(s);
    } else {
      var n := |actions| - 1;
      RunKeepsOrder(s, actions[..n]);
      StepConserves(After(s, actions[..n]), actions[n]);
      StepInOrder(After(s, actions[..n]), actions[n]);
    }
  }

  lemma FreshHoldsNothing(s: Engine)
    requires Fresh(s)
    ensures Conserved(s) && AllInOrder(s)
  {
    forall x
      ensures Held(s.backends, x) == 0
    {
      HeldZero(s.backends, x);
    }
  }

  // ----- Exactly once

  ghost predicate DistinctTickets(s: Engine) {
    forall i, j :: 0 <= i < j < |s.issued| ==> s.issued[i].ticket != s.issued[j].ticket
  }

  lemma {:induction false} DistinctOnce(issued: seq<Item>, x: Item)
    requires forall i, j :: 0 <= i < j < |issued| ==> issued[i].ticket != issued[j].ticket
    ensures multiset(issued)[x] == if x in issued then 1 else 0
    decreases |issued|
  {
    if |issued| > 0 {
      var n := |issued| - 1;
      DistinctOnce(issued[..n], x);
      assert issued == issued[..n] + [issued[n]];
    }
  }

  /** In every run, a request is at any time either replied to, exactly once, or held in exactly one
      place, never both; and nothing else is ever replied to. */
  lemma ExactlyOnce(s: Engine, actions: seq<Action>, x: Item)
    requires Fresh(s) && IsRun(s, actions) && DistinctTickets(After(s, actions))
    ensures var e := After(s, actions);
            Replied(e.replies, x) + Held(e.backends, x) == if x in e.issued then 1 else 0
  {
    RunKeepsOrder(s, actions);
    DistinctOnce(After(s, actions).issued, x);
  }

  /** When every batcher has stopped, every request has been replied to exactly once. */
  lemma StoppedMeansAnswered(s: Engine, actions: seq<Action>, x: Item)
    requires Fresh(s) && IsRun(s, actions) && DistinctTickets(After(s, actions))
    requires forall d :: d in After(s, actions).backends ==> d.local.phase == Stopped
    ensures Replied(After(s, actions).replies, x) == if x in After(s, actions).issued then 1 else 0
  {
    var e := After(s, actions);
    RunKeepsOrder(s, actions);
    ExactlyOnce(s, actions, x);
    forall d | d in e.backends
      ensures HeldBy(d, x) == 0
    {
      assert InOrder(d);
    }
    HeldZero(e.backends, x);
  }

  /** A request that is held can always move on: some caller or batcher has a step to take. */
  lemma NeverStuck(s: Engine, actions: seq<Action>, x: Item) returns (a: Action)
    requires Fresh(s) && IsRun(s, actions) && Held(After(s, actions).backends, x) > 0
    ensures CanAct(After(s, actions), a) && (a.Send? || a.Advance?)
  {
    var e := After(s, actions);
    RunKeepsOrder(s, actions);
    HeldZero(e.backends, x);
    var d :| d in e.backends && HeldBy(d, x) > 0;
    var b :| 0 <= b < |e.backends| && e.backends[b] == d;
    a := BackendCanStep(e, b, x);
  }

  lemma BackendCanStep(s: Engine, b: nat, x: Item) returns (a: Action)
    requires s.capacity > 0 && b < |s.backends| && InOrder(s.backends[b]) && HeldBy(s.backends[b], x) > 0
    ensures CanAct(s, a) && (a.Send? || a.Advance?)
  {
    var d := s.backends[b];
    if |d.queue| == 0 && |d.waiting| > 0 {
      a := Send(b, 0);
    } else if |d.queue| > 0 && d.local.phase in {Idle, Window, Drain} {
      a := Advance(b, Arrived(d.queue[0], true));
    } else if d.local.phase == Window {
      a := Advance(b, DeadlinePassed);
    } else if d.local.phase == Drain {
      a := Advance(b, QueueEmpty);
    } else if d.local.phase == Calling {
      a := Advance(b, BackendReturned(Failed("")));
    } else {
      a := Advance(b, PutDone(true));
    }
  }

  // ----- How far a request is from its reply

  function PhaseRank(phase: Phase): nat {
    match phase case Window => 3 case Drain => 3 case Calling => 2 case Idle => 1 case Putting => 1 case Stopped => 0
  }

  /** The steps a backend has ahead of it, at most, with what it holds now. */
  function Work(d: Backend): nat {
    6 * |d.waiting| + 5 * |d.queue| + 2 * |d.local.batch| + |d.local.pending| + PhaseRank(d.local.phase)
  }

  function TotalWork(backends: seq<Backend>): nat {
    if |backends| == 0 then 0 else TotalWork(backends[..|backends| - 1]) + Work(backends[|backends| - 1])
  }

  lemma {:induction false} WorkUpdate(backends: seq<Backend>, b: nat, d: Backend)
    requires b < |backends|
    ensures TotalWork(backends[b := d]) == TotalWork(backends) - Work(backends[b]) + Work(d)
    decreases |backends|
  {
    var n := |backends| - 1;
    if b == n {
      assert backends[b := d][..n] == backends[..n];
    } else {
      WorkUpdate(backends[..n], b, d);
      assert backends[b := d][..n] == backends[..n][b := d];
    }
  }

  lemma AdvanceWorks(d: Backend, store: Store, e: Event)
    requires Enabled(d.local, e) && LocalOk(d.config, d.local) && (e.Arrived? ==> |d.queue| > 0)
    ensures Work(AdvanceBackend(d, store, e)) < Work(d)
  {
  }

  /** A caller's or a batcher's own step, as opposed to what comes from outside. */
  predicate IsOwnStep(a: Action) {
    a.Send? || a.Advance?
  }

  function OwnSteps(actions: seq<Action>): nat {
    if |actions| == 0 then 0
    else
      OwnSteps(actions[..|actions| - 1]) + if IsOwnStep(actions[|actions| - 1]) then 1 else 0
  }

  lemma StepWorks(s: Engine, a: Action)
    requires AllInOrder(s) && CanAct(s, a) && !a.Dispatch?
    ensures TotalWork(Act(s, a).backends) + (if IsOwnStep(a) then 1 else 0) <= TotalWork(s.backends)
  {
    match a
    case Send(b, k) => WorkUpdate(s.backends, b, Act(s, a).backends[b]);
    case Advance(b, e) =>
      assert InOrder(s.backends[b]);
      AdvanceWorks(s.backends[b], s.store, e);
      WorkUpdate(s.backends, b, AdvanceBackend(s.backends[b], s.store, e));
    case _ =>
  }

  /** Without new dispatches the callers and batchers take no more steps than there is work, whatever the
      backends return and the cache does. */
  lemma {:induction false} StepsAreBounded(s: Engine, actions: seq<Action>, n: nat)
    requires Fresh(s) && IsRun(s, actions) && n <= |actions| && forall k :: n <= k < |actions| ==> !actions[k].Dispatch?
    ensures IsRun(s, actions[..n])
    ensures OwnSteps(actions) - OwnSteps(actions[..n]) +
            TotalWork(After(s, actions).backends) <= TotalWork(After(s, actions[..n]).backends)
    decreases |actions|
  {
    if n == |actions| {
      assert actions[..n] == actions;
    } else {
      var m := |actions| - 1;
      assert actions[..m][..n] == actions[..n];
      StepsAreBounded(s, actions[..m], n);
      RunKeepsOrder(s, actions[..m]);
      StepWorks(After(s, actions[..m]), actions[m]);
    }
  }

  /** A run taken until no caller and no batcher has a step left has answered every request, exactly once. */
  lemma ExhaustedMeansAnswered(s: Engine, actions: seq<Action>, x: Item)
    requires Fresh(s) && IsRun(s, actions) && DistinctTickets(After(s, actions))
    requires forall a :: CanAct(After(s, actions), a) ==> !IsOwnStep(a)
    ensures Replied(After(s, actions).replies, x) == if x in After(s, actions).issued then 1 else 0
  {
    ExactlyOnce(s, actions, x);
    if Held(After(s, actions).backends, x) > 0 { var _ := NeverStuck(s, actions, x); }
  }

  /** No queue outgrows its capacity, which holds callers back. */
  lemma {:induction false} QueuesWithinCapacity(s: Engine, actions: seq<Action>)
    requires Fresh(s) && IsRun(s, actions)
    ensures After(s, actions).capacity == s.capacity
    ensures forall d :: d in After(s, actions).backends ==> |d.queue| <= s.capacity
    decreases |actions|
  {
    if |actions| > 0 {
      var n := |actions| - 1;
      QueuesWithinCapacity(s, actions[..n]);
      var e, a := After(s, actions[..n]), actions[n];
      forall d | d in Act(e, a).backends
        ensures |d.queue| <= s.capacity
      {
        var b :| 0 <= b < |e.backends| && Act(e, a).backends[b] == d;
        assert e.backends[b] in e.backends;
      }
    }
  }

  // ----- What a reply says

  ghost predicate FromCall(d: Backend, r: Reply) {
    exists call :: call in d.calls && r in Distribute(call)
  }

  ghost predicate FromCache(d: Backend, r: Reply) {
    exists receipt :: receipt in d.received && receipt.hit.Some? &&
      r == Reply(receipt.item.ticket, receipt.item.input, Ok(receipt.hit.value))
  }

  ghost predicate IsRefusal(r: Reply) {
    r.result == Err(Cancelled) || r.result == Err(NoBackend(r.input.task))
  }

  /** Every reply is a refusal, a cache hit, or a member's share of one backend call. */
  ghost predicate Justified(s: Engine) {
    forall r :: r in s.replies ==> IsRefusal(r) || exists d :: d in s.backends && (FromCall(d, r) || FromCache(d, r))
  }

  /** Every member of every call has been sent its share: output i for member i of a successful call,
      the one error for all members of any other. */
  ghost predicate CallsAnswered(s: Engine) {
    forall d, call, r :: d in s.backends && call in d.calls && r in Distribute(call) ==> r in s.replies
  }

  /** `d'` has the history of `d`, and maybe more. */
  ghost predicate Later(d: Backend, d': Backend) {
    && (forall call :: call in d.calls ==> call in d'.calls)
    && (forall receipt :: receipt in d.received ==> receipt in d'.received)
  }

  lemma LaterJustifies(d: Backend, d': Backend, r: Reply)
    requires Later(d, d')
    ensures FromCall(d, r) ==> FromCall(d', r)
    ensures FromCache(d, r) ==> FromCache(d', r)
  {
  }

  lemma AdvanceJustified(d: Backend, store: Store, e: Event)
    requires Enabled(d.local, e) && (e.Arrived? ==> |d.queue| > 0 && e.item == d.queue[0])
    ensures var d' := AdvanceBackend(d, store, e); var o := Step(d.config, d.local, store, e);
            && Later(d, d')
            && (forall r :: r in o.replies ==> FromCall(d', r) || FromCache(d', r))
            && (forall call, r :: call in d'.calls && call !in d.calls && r in Distribute(call) ==> r in o.replies)
  {
    var d' := AdvanceBackend(d, store, e);
    var o := Step(d.config, d.local, store, e);
    if e.Arrived? && |o.replies| > 0 {
      assert d'.received[|d.received|].hit.Some?;
      assert FromCache(d', o.replies[0]);
    } else if e.BackendReturned? {
      assert d'.calls[|d.calls|] == o.calls[0];
    }
  }

  lemma StepJustified(s: Engine, a: Action)
    requires Justified(s) && CallsAnswered(s) && CanAct(s, a)
    ensures Justified(Act(s, a)) && CallsAnswered(Act(s, a))
  {
    match a
    case Dispatch(item) =>
      if Refusal(s, item) == None { OneBackendJustified(s, Act(s, a), s.routes[item.input.task], []); }
    case Send(b, k) => OneBackendJustified(s, Act(s, a), b, []);
    case Advance(b, e) =>
      AdvanceJustified(s.backends[b], s.store, e);
      OneBackendJustified(s, Act(s, a), b, Step(s.backends[b].config, s.backends[b].local, s.store, e).replies);
    case _ =>
  }

  lemma OneBackendJustified(s: Engine, s': Engine, b: nat, replies: seq<Reply>)
    requires Justified(s) && CallsAnswered(s) && b < |s.backends| && |s'.backends| == |s.backends|
    requires s'.backends == s.backends[b := s'.backends[b]] && s'.replies == s.replies + replies
    requires var d, d' := s.backends[b], s'.backends[b];
             && Later(d, d')
             && (forall r :: r in replies ==> FromCall(d', r) || FromCache(d', r))
             && (forall call, r :: call in d'.calls && call !in d.calls && r in Distribute(call) ==> r in replies)
    ensures Justified(s') && CallsAnswered(s')
  {
    var d' := s'.backends[b];
    assert d' in s'.backends;
    forall r | r in s'.replies && !IsRefusal(r)
      ensures exists d :: d in s'.backends && (FromCall(d, r) || FromCache(d, r))
    {
      if r in s.replies {
        var d :| d in s.backends && (FromCall(d, r) || FromCache(d, r));
        if d == s.backends[b] {
          LaterJustifies(d, d', r);
        } else {
          StillThere(s.backends, b, d', d);
        }
      }
    }
    forall d, call, r | d in s'.backends && call in d.calls && r in Distribute(call)
      ensures r in s'.replies
    {
      if d != d' || call in s.backends[b].calls {
        assert d in s.backends || call in s.backends[b].calls;
      }
    }
  }

  lemma StillThere(backends: seq<Backend>, b: nat, d': Backend, d: Backend)
    requires b < |backends| && d in backends && d != backends[b]
    ensures d in backends[b := d']
  {
    var k :| 0 <= k < |backends| && backends[k] == d;
    assert backends[b := d'][k] == d;
  }

  /** In every run: no reply comes from anywhere else, and no member of a call is left out. */
  lemma {:induction false} RepliesAreJustified(s: Engine, actions: seq<Action>)
    requires Fresh(s) && IsRun(s, actions)
    ensures Justified(After(s, actions)) && CallsAnswered(After(s, actions))
    decreases |actions|
  {
    if |actions| > 0 {
      RepliesAreJustified(s, actions[..|actions| - 1]);
      StepJustified(After(s, actions[..|actions| - 1]), actions[|actions| - 1]);
    }
  }

  // ----- Each batcher of the engine runs its loop

  /** What an action that is not the batcher's own adds to the store. */
  lemma StoreDelta(s: Engine, a: Action) returns (writes: Store)
    requires CanAct(s, a)
    ensures Act(s, a).store == s.store + writes
  {
    writes := map[];
    match a
    case ForeignWrite(w) => writes := w;
    case Advance(b, PutDone(writeOk)) =>
      var c, p := s.backends[b].config, s.backends[b].local.pending[0];
      if c.policy != Bypass && writeOk { writes := map[KeyOf(c, p.0) := p.1]; }
    case _ =>
  }

  /** The script accounts for the backend, and for the store up to what others wrote last. */
  ghost predicate Accounts(c: Config, store0: Store, script: seq<Tick>, trailing: Store, d: Backend, store: Store) {
    IsScript(c, store0, script) && d.config == c &&
    var run := Run(c, store0, script);
    run.local == d.local && run.calls == d.calls && run.store + trailing == store
  }

  lemma OwnEvent(c: Config, store0: Store, script: seq<Tick>, trailing: Store, d: Backend, store: Store, e: Event)
    requires Accounts(c, store0, script, trailing, d, store) && Enabled(d.local, e) && (e.Arrived? ==> |d.queue| > 0)
    ensures Accounts(c, store0, script + [Tick(trailing, e)], map[], AdvanceBackend(d, store, e),
                     Step(c, d.local, store, e).store)
  {
    var script' := script + [Tick(trailing, e)];
    assert script'[..|script|] == script;
    assert Run(c, store0, script').store + map[] == Run(c, store0, script').store;
  }

  lemma OthersWrite(c: Config, store0: Store, script: seq<Tick>, trailing: Store, d: Backend, store: Store,
                    writes: Store)
    requires Accounts(c, store0, script, trailing, d, store)
    ensures Accounts(c, store0, script, trailing + writes, d, store + writes)
  {
    var own := Run(c, store0, script).store;
    assert own + trailing + writes == own + (trailing + writes);
  }

  /** What happens to one backend in a run of the engine is a script of its batcher, in which everything
      the others write is what it observes between its own events. */
  lemma {:induction false} EngineRunsLoops(s: Engine, actions: seq<Action>, b: nat)
    returns (script: seq<Tick>, trailing: Store)
    requires Fresh(s) && IsRun(s, actions) && b < |s.backends|
    ensures var e := After(s, actions);
            |e.backends| == |s.backends| &&
              Accounts(s.backends[b].config, s.store, script, trailing, e.backends[b], e.store)
    decreases |actions|
  {
    if |actions| == 0 {
      script, trailing := [], map[];
      assert s.backends[b] in s.backends && s.store + map[] == s.store;
    } else {
      var n := |actions| - 1;
      script, trailing := EngineRunsLoops(s, actions[..n], b);
      var e, a, c := After(s, actions[..n]), actions[n], s.backends[b].config;
      if a.Advance? && a.b == b {
        OwnEvent(c, s.store, script, trailing, e.backends[b], e.store, a.event);
        script, trailing := script + [Tick(trailing, a.event)], map[];
      } else {
        var writes := StoreDelta(e, a);
        OthersWrite(c, s.store, script, trailing, e.backends[b], e.store, writes);
        trailing := trailing + writes;
        OthersAccount(c, s.store, script, trailing, e, a, b);
      }
    }
  }

  /** Callers and other batchers leave a backend's batcher where it is. */
  lemma OthersAccount(c: Config, store0: Store, script: seq<Tick>, trailing: Store, s: Engine, a: Action, b: nat)
    requires CanAct(s, a) && b < |s.backends| && !(a.Advance? && a.b == b)
    requires Accounts(c, store0, script, trailing, s.backends[b], Act(s, a).store)
    ensures |Act(s, a).backends| == |s.backends| &&
            Accounts(c, store0, script, trailing, Act(s, a).backends[b], Act(s, a).store)
  {
  }
}
