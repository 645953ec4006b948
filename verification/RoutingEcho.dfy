/**
 When replies echo the routing fields of their requests. Outputs are documented to; the cache key leaves
 routing out. Here the two are set against each other, over every run of the engine.
 */
module RoutingEcho {
  import opened BatchProtocol
  import opened CacheTransparency
  import opened EngineProtocol
  import opened Options

  // ----- Requests and what carries their routing

  predicate SameContent(a: TaskInput, b: TaskInput) {
    a.task == b.task && a.content == b.content
  }

  /** Requests that agree in task and content agree in routing. */
  ghost predicate Agree(requests: set<TaskInput>) {
    forall a, b :: a in requests && b in requests && SameContent(a, b) ==> a.routing == b.routing
  }

  /** The routing is that of some request with this task and content. */
  ghost predicate CarriedBy(routing: Routing, task: Task, content: Content, requests: set<TaskInput>) {
    TaskInput(task, content, routing) in requests
  }

  /** Entries of this build carry the routing of some request with their task and content. */
  ghost predicate StoreCarried(build: string, store: Store, requests: set<TaskInput>) {
    forall k :: k in store && k.build == build ==> CarriedBy(store[k].routing, k.task, k.content, requests)
  }

  /** A successful batch echoes the routing of its inputs. */
  ghost predicate EchoReturn(batch: seq<Item>, returned: Returned) {
    Succeeded(Call(batch, returned)) ==>
      forall i :: 0 <= i < |batch| ==> returned.outputs[i].routing == batch[i].input.routing
  }

  /** Callers send these requests, other processes write entries that carry them, and backends echo. */
  ghost predicate EchoAction(build: string, requests: set<TaskInput>, s: Engine, a: Action)
    requires CanAct(s, a)
  {
    match a
    case Dispatch(item) => item.input in requests
    case ForeignWrite(writes) => StoreCarried(build, writes, requests)
    case Advance(b, BackendReturned(returned)) => EchoReturn(s.backends[b].local.batch, returned)
    case _ => true
  }

  ghost predicate EchoRun(build: string, requests: set<TaskInput>, s: Engine, actions: seq<Action>)
    requires IsRun(s, actions)
    decreases |actions|
  {
    |actions| == 0 ||
    var n := |actions| - 1;
    EchoRun(build, requests, s, actions[..n]) && EchoAction(build, requests, After(s, actions[..n]), actions[n])
  }

  // ----- What every step keeps

  ghost predicate Served(items: seq<Item>, requests: set<TaskInput>, home: set<Task>) {
    forall x :: x in items ==> x.input in requests && x.input.task in home
  }

  ghost predicate EchoPending(pending: seq<(TaskInput, TaskOutput)>, requests: set<TaskInput>) {
    forall p :: p in pending ==> p.0 in requests && p.1.routing == p.0.routing
  }

  ghost predicate BackendCarries(build: string, requests: set<TaskInput>, home: set<Task>, d: Backend) {
    && d.config.build == build
    && Served(d.waiting, requests, home) && Served(d.queue, requests, home) && Served(d.local.batch, requests, home)
    && EchoPending(d.local.pending, requests)
  }

  ghost predicate ReplyCarried(r: Reply, requests: set<TaskInput>, home: set<Task>) {
    r.result.Ok? ==>
      r.input in requests && r.input.task in home &&
      CarriedBy(r.result.output.routing, r.input.task, r.input.content, requests)
  }

  ghost predicate Carries(build: string, requests: set<TaskInput>, home: set<Task>, s: Engine) {
    && StoreCarried(build, s.store, requests) && s.routes.Keys <= home
    && (forall b :: 0 <= b < |s.backends| ==> BackendCarries(build, requests, home, s.backends[b]))
    && (forall r :: r in s.replies ==> ReplyCarried(r, requests, home))
  }

  lemma ArrivedCarries(build: string, requests: set<TaskInput>, home: set<Task>, d: Backend, store: Store, e: Event)
    requires BackendCarries(build, requests, home, d) && StoreCarried(build, store, requests)
    requires Enabled(d.local, e) && e.Arrived? && |d.queue| > 0 && e.item == d.queue[0]
    ensures BackendCarries(build, requests, home, AdvanceBackend(d, store, e))
    ensures forall r :: r in Step(d.config, d.local, store, e).replies ==> ReplyCarried(r, requests, home)
  {
    assert e.item in d.queue;
  }

  lemma ReturnedCarries(build: string, requests: set<TaskInput>, home: set<Task>, d: Backend, store: Store,
                        returned: Returned)
    requires BackendCarries(build, requests, home, d)
    requires Enabled(d.local, BackendReturned(returned)) && EchoReturn(d.local.batch, returned)
    ensures BackendCarries(build, requests, home, AdvanceBackend(d, store, BackendReturned(returned)))
    ensures forall r :: r in Step(d.config, d.local, store, BackendReturned(returned)).replies ==>
            ReplyCarried(r, requests, home)
  {
    var call := Call(d.local.batch, returned);
    forall i | 0 <= i < |call.items|
      ensures call.items[i].input in requests && call.items[i].input.task in home
    {
      assert call.items[i] in d.local.batch;
    }
    forall r | r in Distribute(call)
      ensures ReplyCarried(r, requests, home)
    {
      var i :| 0 <= i < |call.items| && Distribute(call)[i] == r;
      assert call.items[i].input == TaskInput(r.input.task, r.input.content, r.input.routing);
    }
  }

  lemma PutCarries(build: string, requests: set<TaskInput>, home: set<Task>, d: Backend, store: Store, writeOk: bool)
    requires BackendCarries(build, requests, home, d) && StoreCarried(build, store, requests)
    requires Enabled(d.local, PutDone(writeOk))
    ensures BackendCarries(build, requests, home, AdvanceBackend(d, store, PutDone(writeOk)))
    ensures StoreCarried(build, Step(d.config, d.local, store, PutDone(writeOk)).store, requests)
  {
    var p := d.local.pending[0];
    assert p in d.local.pending;
    assert p.0 == TaskInput(p.0.task, p.0.content, p.1.routing);
  }

  lemma AdvanceCarries(build: string, requests: set<TaskInput>, home: set<Task>, d: Backend, store: Store, e: Event)
    requires BackendCarries(build, requests, home, d) && StoreCarried(build, store, requests)
    requires Enabled(d.local, e) && (e.Arrived? ==> |d.queue| > 0 && e.item == d.queue[0])
    requires e.BackendReturned? ==> EchoReturn(d.local.batch, e.returned)
    ensures var o := Step(d.config, d.local, store, e);
            && BackendCarries(build, requests, home, AdvanceBackend(d, store, e)) &&
               StoreCarried(build, o.store, requests)
            && forall r :: r in o.replies ==> ReplyCarried(r, requests, home)
  {
    match e
    case Arrived(_, _) => ArrivedCarries(build, requests, home, d, store, e);
    case BackendReturned(returned) => ReturnedCarries(build, requests, home, d, store, returned);
    case PutDone(writeOk) => PutCarries(build, requests, home, d, store, writeOk);
    case _ =>
  }

  lemma OneBackendCarries(build: string, requests: set<TaskInput>, home: set<Task>, s: Engine, s': Engine, b: nat,
                          d: Backend)
    requires Carries(build, requests, home, s) && b < |s.backends| && BackendCarries(build, requests, home, d)
    requires s'.backends == s.backends[b := d] && s'.routes == s.routes && StoreCarried(build, s'.store, requests)
    requires s.replies <= s'.replies && forall r :: r in s'.replies[|s.replies|..] ==> ReplyCarried(r, requests, home)
    ensures Carries(build, requests, home, s')
  {
    assert s'.replies == s.replies + s'.replies[|s.replies|..];
  }

  lemma StepCarries(build: string, requests: set<TaskInput>, home: set<Task>, s: Engine, a: Action)
    requires Carries(build, requests, home, s) && CanAct(s, a) && EchoAction(build, requests, s, a)
    ensures Carries(build, requests, home, Act(s, a))
  {
    var s' := Act(s, a);
    match a
    case Dispatch(item) =>
      if Refusal(s, item) == None {
        var b := s.routes[item.input.task];
        OneBackendCarries(build, requests, home, s, s', b, s'.backends[b]);
      }
    case Send(b, k) =>
      assert s.backends[b].waiting[k] in s.backends[b].waiting;
      OneBackendCarries(build, requests, home, s, s', b, s'.backends[b]);
    case Advance(b, e) =>
      AdvanceCarries(build, requests, home, s.backends[b], s.store, e);
      assert s'.replies[|s.replies|..] == Step(s.backends[b].config, s.backends[b].local, s.store, e).replies;
      OneBackendCarries(build, requests, home, s, s', b, AdvanceBackend(s.backends[b], s.store, e));
    case _ =>
  }

  lemma {:induction false} RunCarries(build: string, policy: CachePolicy, requests: set<TaskInput>, s: Engine,
                                      actions: seq<Action>)
    requires Fresh(s) && Uniform(build, policy, s) && StoreCarried(build, s.store, requests)
    requires IsRun(s, actions) && EchoRun(build, requests, s, actions)
    ensures Carries(build, requests, s.routes.Keys, After(s, actions))
    decreases |actions|
  {
    if |actions| == 0 {
      forall b | 0 <= b < |s.backends|
        ensures BackendCarries(build, requests, s.routes.Keys, s.backends[b])
      {
        assert s.backends[b] in s.backends;
      }
    } else {
      var n := |actions| - 1;
      RunCarries(build, policy, requests, s, actions[..n]);
      StepCarries(build, requests, s.routes.Keys, After(s, actions[..n]), actions[n]);
    }
  }

  // ----- Results

  /** Under every policy: with backends that echo, a successful reply carries the routing of SOME request
      with the same task and content. */
  lemma ReplyCarriesSomeRouting(build: string, policy: CachePolicy, requests: set<TaskInput>, s: Engine,
                                actions: seq<Action>, r: Reply)
    requires Fresh(s) && Uniform(build, policy, s) && StoreCarried(build, s.store, requests)
    requires IsRun(s, actions) && EchoRun(build, requests, s, actions)
    requires r in After(s, actions).replies && r.result.Ok?
    ensures exists a :: a in requests && SameContent(a, r.input) && a.routing == r.result.output.routing
  {
    RunCarries(build, policy, requests, s, actions);
    assert ReplyCarried(r, requests, s.routes.Keys);
    var a := TaskInput(r.input.task, r.input.content, r.result.output.routing);
    assert a in requests && SameContent(a, r.input);
  }

  lemma {:induction false} CallsEcho(build: string, requests: set<TaskInput>, s: Engine, actions: seq<Action>)
    requires Fresh(s) && IsRun(s, actions) && EchoRun(build, requests, s, actions)
    ensures forall d, call :: d in After(s, actions).backends && call in d.calls ==>
            EchoReturn(call.items, call.returned)
    decreases |actions|
  {
    if |actions| > 0 {
      var n := |actions| - 1;
      CallsEcho(build, requests, s, actions[..n]);
      var e, a := After(s, actions[..n]), actions[n];
      forall d, call | d in Act(e, a).backends && call in d.calls
        ensures EchoReturn(call.items, call.returned)
      {
        var b :| 0 <= b < |e.backends| && Act(e, a).backends[b] == d;
        assert e.backends[b] in e.backends;
      }
    }
  }

  /** Under `Bypass` and `Refresh` every successful reply echoes its own request. */
  lemma EchoOutsideUse(build: string, policy: CachePolicy, requests: set<TaskInput>, s: Engine, actions: seq<Action>,
                       r: Reply)
    requires Fresh(s) && Uniform(build, policy, s) && policy != Use
    requires IsRun(s, actions) && EchoRun(build, requests, s, actions)
    requires r in After(s, actions).replies && r.result.Ok?
    ensures r.result.output.routing == r.input.routing
  {
    CallsEcho(build, requests, s, actions);
    var d, call := AnsweredByOwnCall(build, policy, s, actions, r);
    assert EchoReturn(call.items, call.returned);
  }

  /** In every such run every successful reply echoes its request's routing. */
  ghost predicate AlwaysEchoed(build: string, requests: set<TaskInput>, s: Engine) {
    forall actions, r :: IsRun(s, actions) && EchoRun(build, requests, s, actions) && r in After(s, actions).replies ==>
      r.result.Ok? ==> r.result.output.routing == r.input.routing
  }

  function Routed(requests: set<TaskInput>, s: Engine): set<TaskInput> {
    set a | a in requests && a.task in s.routes
  }

  /** Replies always echo their requests' routing exactly when the cache is not read or the requests that
      can be served agree in routing wherever they agree in task and content. `body` is any answer. */
  lemma EchoedExactlyWhen(build: string, policy: CachePolicy, requests: set<TaskInput>, s: Engine, body: Body)
    requires Fresh(s) && Uniform(build, policy, s) && StoreCarried(build, s.store, requests)
    ensures AlwaysEchoed(build, requests, s) <==> policy != Use || Agree(Routed(requests, s))
  {
    if policy != Use || Agree(Routed(requests, s)) {
      forall actions, r | IsRun(s, actions) && EchoRun(build, requests, s, actions) &&
        r in After(s, actions).replies && r.result.Ok?
        ensures r.result.output.routing == r.input.routing
      {
        if policy != Use {
          EchoOutsideUse(build, policy, requests, s, actions, r);
        } else {
          AgreeingEcho(build, requests, s, actions, r);
        }
      }
    } else {
      var a, b :| a in Routed(requests, s) && b in Routed(requests, s) && SameContent(a, b) && a.routing != b.routing;
      var actions := CachedReplyKeepsFirstRouting(build, requests, s, Item(0, a), Item(1, b),
                                                  TaskOutput(body, a.routing));
      var r := Reply(1, b, Ok(TaskOutput(body, a.routing)));
      assert After(s, actions).replies[1] == r;
    }
  }

  lemma AgreeingEcho(build: string, requests: set<TaskInput>, s: Engine, actions: seq<Action>, r: Reply)
    requires Fresh(s) && Uniform(build, Use, s) && StoreCarried(build, s.store, requests) && Agree(Routed(requests, s))
    requires IsRun(s, actions) && EchoRun(build, requests, s, actions)
    requires r in After(s, actions).replies && r.result.Ok?
    ensures r.result.output.routing == r.input.routing
  {
    RunCarries(build, Use, requests, s, actions);
    assert ReplyCarried(r, requests, s.routes.Keys);
    var a := TaskInput(r.input.task, r.input.content, r.result.output.routing);
    assert a in Routed(requests, s) && r.input in Routed(requests, s) && SameContent(a, r.input);
  }

  // ----- The run that breaks the echo

  /** After the run nobody waits, and backend `b`, which serves `task`, is where these values say. */
  ghost predicate Stands(build: string, requests: set<TaskInput>, s: Engine, actions: seq<Action>, b: nat, task: Task,
                         c: Config, queue: seq<Item>, l: Local, store: Store, issued: seq<Item>, replies: seq<Reply>)
  {
    IsRun(s, actions) && EchoRun(build, requests, s, actions) &&
    var e := After(s, actions);
    && !e.cancelled && e.capacity > 0 && task in e.routes && e.routes[task] == b && b < |e.backends|
    && e.backends[b].config == c && e.backends[b].waiting == [] && e.backends[b].queue == queue &&
       e.backends[b].local == l
    && e.store == store && e.issued == issued && e.replies == replies
  }

  lemma OneMore(build: string, requests: set<TaskInput>, s: Engine, actions: seq<Action>, a: Action)
    requires IsRun(s, actions) && EchoRun(build, requests, s, actions)
    requires CanAct(After(s, actions), a) && EchoAction(build, requests, After(s, actions), a)
    ensures IsRun(s, actions + [a]) && EchoRun(build, requests, s, actions + [a])
    ensures After(s, actions + [a]) == Act(After(s, actions), a)
  {
    assert (actions + [a])[..|actions|] == actions;
  }

  /** A caller hands one request to an idle backend's queue. */
  lemma Deliver(build: string, requests: set<TaskInput>, s: Engine, actions: seq<Action>, b: nat, task: Task,
                c: Config, store: Store, issued: seq<Item>, replies: seq<Reply>, item: Item)
    returns (longer: seq<Action>)
    requires Stands(build, requests, s, actions, b, task, c, [], START, store, issued, replies)
    requires item.input in requests && item.input.task == task
    ensures Stands(build, requests, s, longer, b, task, c, [item], START, store, issued + [item], replies)
  {
    OneMore(build, requests, s, actions, Dispatch(item));
    longer := actions + [Dispatch(item)];
    var d := After(s, longer).backends[b];
    assert d.waiting == [item] && d.waiting[..0] + d.waiting[1..] == [];
    OneMore(build, requests, s, longer, Send(b, 0));
    longer := longer + [Send(b, 0)];
  }

  /** The batcher takes one event of its own. */
  lemma Take(build: string, requests: set<TaskInput>, s: Engine, actions: seq<Action>, b: nat, task: Task,
             c: Config, queue: seq<Item>, l: Local, store: Store, issued: seq<Item>, replies: seq<Reply>, e: Event)
    returns (longer: seq<Action>)
    requires Stands(build, requests, s, actions, b, task, c, queue, l, store, issued, replies)
    requires Enabled(l, e) && !e.ChannelClosed? && !e.QueueEmpty? && (e.Arrived? ==> |queue| > 0 && e.item == queue[0])
    requires e.BackendReturned? ==> EchoReturn(l.batch, e.returned)
    ensures var o := Step(c, l, store, e);
            Stands(build, requests, s, longer, b, task, c, if e.Arrived? then queue[1..] else queue, o.local, o.store,
                   issued, replies + o.replies)
  {
    OneMore(build, requests, s, actions, Advance(b, e));
    longer := actions + [Advance(b, e)];
  }

  /** Under `Use`, whatever the batch limit and whatever is stored: a request missed and answered, and then
      another with the same task and content. The second is answered with the first one's routing. */
  lemma CachedReplyKeepsFirstRouting(build: string, requests: set<TaskInput>, s: Engine, first: Item, second: Item,
                                     output: TaskOutput)
    returns (actions: seq<Action>)
    requires Fresh(s) && Uniform(build, Use, s) && first.input.task in s.routes
    requires first.input in requests && second.input in requests && SameContent(first.input, second.input)
    requires output.routing == first.input.routing
    ensures IsRun(s, actions) && EchoRun(build, requests, s, actions) && After(s, actions).issued == [first, second]
    ensures After(s, actions).replies ==
            [Reply(first.ticket, first.input, Ok(output)), Reply(second.ticket, second.input, Ok(output))]
  {
    var task := first.input.task;
    var b := s.routes[task];
    var c := s.backends[b].config;
    assert s.backends[b] in s.backends;
    actions := [];
    assert Stands(build, requests, s, actions, b, task, c, [], START, s.store, [], []);
    actions := Deliver(build, requests, s, actions, b, task, c, s.store, [], [], first);
    actions := MissAndAnswer(build, requests, s, actions, b, c, s.store, first, output);
    var stored := s.store[KeyOf(c, first.input) := output];
    var replies := [Reply(first.ticket, first.input, Ok(output))];
    actions := Deliver(build, requests, s, actions, b, task, c, stored, [first], replies, second);
    actions := Take(build, requests, s, actions, b, task, c, [second], START, stored, [first] + [second], replies,
                    Arrived(second, true));
  }

  /** A failed read misses, the batch closes at its limit or at the deadline, and its answer is cached. */
  lemma MissAndAnswer(build: string, requests: set<TaskInput>, s: Engine, actions0: seq<Action>, b: nat, c: Config,
                      store: Store, first: Item, output: TaskOutput)
    returns (actions: seq<Action>)
    requires Stands(build, requests, s, actions0, b, first.input.task, c, [first], START, store, [first], [])
    requires c.policy == Use && output.routing == first.input.routing
    ensures Stands(build, requests, s, actions, b, first.input.task, c, [], START,
                   store[KeyOf(c, first.input) := output],
                   [first], [Reply(first.ticket, first.input, Ok(output))])
  {
    actions := UntilCalling(build, requests, s, actions0, b, c, store, first);
    actions := AnswerAndPut(build, requests, s, actions, b, c, store, first, output);
  }

  lemma UntilCalling(build: string, requests: set<TaskInput>, s: Engine, actions0: seq<Action>, b: nat, c: Config,
                     store: Store, first: Item)
    returns (actions: seq<Action>)
    requires Stands(build, requests, s, actions0, b, first.input.task, c, [first], START, store, [first], [])
    ensures Stands(build, requests, s, actions, b, first.input.task, c, [], Local(Calling, [first], []), store,
                   [first], [])
  {
    var task := first.input.task;
    actions := Take(build, requests, s, actions0, b, task, c, [first], START, store, [first], [],
                    Arrived(first, false));
    if MaxSize(c) > 1 {
      var window := Local(Window, [first], []);
      actions := Take(build, requests, s, actions, b, task, c, [], window, store, [first], [], DeadlinePassed);
    }
  }

  lemma AnswerAndPut(build: string, requests: set<TaskInput>, s: Engine, actions0: seq<Action>, b: nat, c: Config,
                     store: Store, first: Item, output: TaskOutput)
    returns (actions: seq<Action>)
    requires Stands(build, requests, s, actions0, b, first.input.task, c, [], Local(Calling, [first], []), store,
                    [first], [])
    requires c.policy == Use && output.routing == first.input.routing
    ensures Stands(build, requests, s, actions, b, first.input.task, c, [], START,
                   store[KeyOf(c, first.input) := output],
                   [first], [Reply(first.ticket, first.input, Ok(output))])
  {
    var task, calling := first.input.task, Local(Calling, [first], []);
    AnswerOf(first, output);
    actions := Take(build, requests, s, actions0, b, task, c, [], calling, store, [first], [],
                    BackendReturned(Outputs([output])));
    var putting, replies := Local(Putting, [], [(first.input, output)]), [Reply(first.ticket, first.input, Ok(output))];
    actions := Take(build, requests, s, actions, b, task, c, [], putting, store, [first], replies, PutDone(true));
    assert replies + [] == replies;
  }

  lemma AnswerOf(item: Item, output: TaskOutput)
    ensures var call := Call([item], Outputs([output]));
            Distribute(call) == [Reply(item.ticket, item.input, Ok(output))] && ToCache(call) == [(item.input, output)]
  {
  }
}
