/**
 One backend's batcher: the steps it takes, the shared cache it consults, and the loop that takes
 them.

 What the loop waits for (arrivals, the window's deadline, an empty or closed channel, the backend,
 the cache) is a script of events; every property is about every script.
 */
module BatchProtocol {
  import opened Options

  type Task(==, !new)
  type Content(==, !new)
  type Routing(==, !new)
  type Body(==, !new)

  /** `routing` is what a request carries only to route its answer back. */
  datatype TaskInput = TaskInput(task: Task, content: Content, routing: Routing)
  datatype TaskOutput = TaskOutput(body: Body, routing: Routing)

  /** The cache key before hashing; the hash is taken to be injective. */
  datatype Key = Key(build: string, task: Task, backend: string, content: Content)

  type Store = map<Key, TaskOutput>

  datatype CachePolicy = Use | Bypass | Refresh

  /** `batchLimit` is the policy's maximal batch size as configured, 0 included. */
  datatype Config = Config(build: string, backend: string, policy: CachePolicy, batchLimit: nat)

  function MaxSize(c: Config): nat {
    if c.batchLimit > 1 then c.batchLimit else 1
  }

  function KeyOf(c: Config, input: TaskInput): Key {
    Key(c.build, input.task, c.backend, input.content)
  }

  // ----- The cache

  function CacheGet(c: Config, store: Store, input: TaskInput, readOk: bool): Option<TaskOutput> {
    if c.policy != Use || !readOk || KeyOf(c, input) !in store then None else Some(store[KeyOf(c, input)])
  }

  function CachePut(c: Config, store: Store, input: TaskInput, output: TaskOutput, writeOk: bool): Store {
    if c.policy == Bypass || !writeOk then store else store[KeyOf(c, input) := output]
  }

  /** Reading answers only under `Use`; it finds what was last written for the same task and content by a
      backend of the same build and name, under any policy that writes, and nothing else has changed. */
  lemma GetAfterPut(c: Config, d: Config, store: Store, input: TaskInput, output: TaskOutput, writeOk: bool,
                    other: TaskInput)
    ensures var found := CacheGet(d, CachePut(c, store, input, output, writeOk), other, true);
            if d.policy != Use then found == None
            else if (c.policy == Use || c.policy == Refresh) && writeOk && d.build == c.build &&
              d.backend == c.backend && other.task == input.task && other.content == input.content
            then found == Some(output)
            else found == CacheGet(d, store, other, true)
    ensures CacheGet(d, store, other, false) == None
  {
  }

  /** The store every handle on one path shares. Reading and writing may fail: a failed read is a miss,
      a failed write is dropped. */
  class Cache {
    var store: Store

    method Get(c: Config, input: TaskInput, readOk: bool) returns (r: Option<TaskOutput>)
      ensures r == CacheGet(c, store, input, readOk)
    {
      if c.policy == Bypass || c.policy == Refresh {
        return None;
      }
      if !readOk || KeyOf(c, input) !in store {
        return None;
      }
      return Some(store[KeyOf(c, input)]);
    }

    method Put(c: Config, input: TaskInput, output: TaskOutput, writeOk: bool)
      modifies this
      ensures store == CachePut(c, old(store), input, output, writeOk)
    {
      if c.policy == Bypass {
        return;
      }
      if writeOk {
        store := store[KeyOf(c, input) := output];
      }
    }

    /** What other batchers and other processes wrote meanwhile. */
    method Observe(others: Store)
      modifies this
      ensures store == old(store) + others
    {
      store := store + others;
    }
  }

  // ----- Steps

  datatype Item = Item(ticket: nat, input: TaskInput)

  datatype Error = WrongLength(got: nat, expected: nat) | BackendError(message: string) | Panicked(message: string)
    | Cancelled | NoBackend(task: Task)

  datatype Result = Ok(output: TaskOutput) | Err(error: Error)

  datatype Reply = Reply(ticket: nat, input: TaskInput, result: Result)

  datatype Returned = Outputs(outputs: seq<TaskOutput>) | Failed(message: string) | Panic(message: string)

  /** A backend call, with what came back. */
  datatype Call = Call(items: seq<Item>, returned: Returned)

  predicate Succeeded(call: Call) {
    call.returned.Outputs? && |call.returned.outputs| == |call.items|
  }

  function ErrorOf(call: Call): Error {
    match call.returned
    case Outputs(outputs) => WrongLength(|outputs|, |call.items|)
    case Failed(message) => BackendError(message)
    case Panic(message) => Panicked(message)
  }

  datatype Phase = Idle | Window | Drain | Calling | Putting | Stopped

  /** `batch` are the misses of the batch being gathered; `pending` the cache writes still to do. */
  datatype Local = Local(phase: Phase, batch: seq<Item>, pending: seq<(TaskInput, TaskOutput)>)

  datatype Event =
    | Arrived(item: Item, readOk: bool)
    | ChannelClosed
    | DeadlinePassed
    | QueueEmpty
    | BackendReturned(returned: Returned)
    | PutDone(writeOk: bool)

  datatype Outcome = Outcome(local: Local, store: Store, replies: seq<Reply>, calls: seq<Call>)

  const START := Local(Idle, [], [])

  predicate Enabled(l: Local, e: Event) {
    match e
    case Arrived(_, _) => l.phase in {Idle, Window, Drain}
    case ChannelClosed => l.phase in {Idle, Window}
    case DeadlinePassed => l.phase == Window
    case QueueEmpty => l.phase == Drain
    case BackendReturned(_) => l.phase == Calling
    case PutDone(_) => l.phase == Putting && |l.pending| > 0
  }

  function Distribute(call: Call): seq<Reply> {
    seq(|call.items|, i requires 0 <= i < |call.items| =>
      Reply(call.items[i].ticket, call.items[i].input, if Succeeded(call) then Ok(call.returned.outputs[i])
            else Err(ErrorOf(call))))
  }

  function ToCache(call: Call): seq<(TaskInput, TaskOutput)>
    requires Succeeded(call)
  {
    seq(|call.items|, i requires 0 <= i < |call.items| => (call.items[i].input, call.returned.outputs[i]))
  }

  function AfterMiss(c: Config, phase: Phase, batch: seq<Item>): Phase {
    if |batch| >= MaxSize(c) then Calling else if phase == Drain then Drain else Window
  }

  function Step(c: Config, l: Local, store: Store, e: Event): Outcome
    requires Enabled(l, e)
  {
    match e
    case Arrived(item, readOk) =>
      var got := CacheGet(c, store, item.input, readOk);
      if got.Some? then
        Outcome(l.(phase := if l.phase == Idle then Drain else l.phase), store,
                [Reply(item.ticket, item.input, Ok(got.value))], [])
      else
        var batch := l.batch + [item];
        Outcome(l.(phase := AfterMiss(c, l.phase, batch), batch := batch), store, [], [])
    case ChannelClosed =>
      Outcome(l.(phase := if l.phase == Idle then Stopped else Calling), store, [], [])
    case DeadlinePassed =>
      Outcome(l.(phase := Calling), store, [], [])
    case QueueEmpty =>
      Outcome(l.(phase := if |l.batch| == 0 then Idle else Calling), store, [], [])
    case BackendReturned(returned) =>
      var call := Call(l.batch, returned);
      var pending := if Succeeded(call) then ToCache(call) else [];
      Outcome(Local(if |pending| > 0 then Putting else Idle, [], pending), store, Distribute(call), [call])
    case PutDone(writeOk) =>
      var (input, output) := l.pending[0];
      var rest := l.pending[1..];
      Outcome(Local(if |rest| > 0 then Putting else Idle, l.batch, rest), CachePut(c, store, input, output, writeOk),
              [], [])
  }

  /** What holds of a batcher between any two steps. */
  predicate LocalOk(c: Config, l: Local) {
    && (l.phase != Putting ==> l.pending == [])
    && match l.phase
       case Idle => l.batch == []
       case Window => 1 <= |l.batch| < MaxSize(c)
       case Drain => |l.batch| < MaxSize(c)
       case Calling => 1 <= |l.batch| <= MaxSize(c)
       case Putting => l.batch == [] && l.pending != []
       case Stopped => l.batch == []
  }

  /** Every call carries at least one item and at most the maximal batch size. */
  lemma StepKeepsLocalOk(c: Config, l: Local, store: Store, e: Event)
    requires LocalOk(c, l) && Enabled(l, e)
    ensures LocalOk(c, Step(c, l, store, e).local)
    ensures forall call :: call in Step(c, l, store, e).calls ==> 1 <= |call.items| <= MaxSize(c)
  {
  }

  /** A miss joins the batch, and the call follows exactly when that makes as many as the configured limit,
      or the first one when that is 0; before that, a batch that began with a miss waits for its window,
      and one that began with a hit for what is queued. */
  lemma MissFills(c: Config, l: Local, store: Store, item: Item, readOk: bool)
    requires LocalOk(c, l) && Enabled(l, Arrived(item, readOk)) && CacheGet(c, store, item.input, readOk) == None
    ensures var o := Step(c, l, store, Arrived(item, readOk));
            && o.local.batch == l.batch + [item] && o.replies == []
            && (o.local.phase == Calling <==> |l.batch| + 1 == c.batchLimit || c.batchLimit == 0)
            && (o.local.phase != Calling ==> o.local.phase == if l.phase == Drain then Drain else Window)
  {
  }

  /** A hit is answered at once and gathers nothing; the first one of a batch makes it take only what is queued. */
  lemma HitAnswers(c: Config, l: Local, store: Store, item: Item, output: TaskOutput)
    requires Enabled(l, Arrived(item, true)) && CacheGet(c, store, item.input, true) == Some(output)
    ensures var o := Step(c, l, store, Arrived(item, true));
            && o.replies == [Reply(item.ticket, item.input, Ok(output))] && o.calls == [] && o.store == store
            && o.local == Local(if l.phase == Idle then Drain else l.phase, l.batch, l.pending)
  {
  }

  /** What ends a batch that is not full: its deadline, a closed channel or an empty queue, and then it is called
      as it is; with nothing gathered the batcher waits again, or stops when the channel has closed. */
  lemma BatchCloses(c: Config, l: Local, store: Store, e: Event)
    requires LocalOk(c, l) && Enabled(l, e) && (e.DeadlinePassed? || e.ChannelClosed? || e.QueueEmpty?)
    ensures var o := Step(c, l, store, e);
            && o.local.batch == l.batch && o.local.pending == [] && o.replies == [] && o.calls == [] && o.store == store
            && (o.local.phase == Calling <==> |l.batch| > 0)
            && (o.local.phase == Stopped <==> l.batch == [] && e.ChannelClosed?)
            && (o.local.phase == Idle <==> l.batch == [] && e.QueueEmpty?)
  {
  }

  /** What each member of a call is told: its own output, or one error that says what went wrong. */
  lemma SharesOfCall(call: Call, i: nat)
    requires i < |call.items|
    ensures var replies, item := Distribute(call), call.items[i];
            && |replies| == |call.items| && replies[i].ticket == item.ticket && replies[i].input == item.input
            && match call.returned
               case Outputs(outputs) =>
                 replies[i].result == (if |outputs| == |call.items| then Ok(outputs[i])
                                       else Err(WrongLength(|outputs|, |call.items|)))
               case Failed(message) => replies[i].result == Err(BackendError(message))
               case Panic(message) => replies[i].result == Err(Panicked(message))
  {
  }

  // ----- Scripts

  /** An event, and what others wrote to the store since the one before. */
  datatype Tick = Tick(others: Store, event: Event)

  /** The run of a script from the start; each event must be one the batcher is waiting for. */
  ghost predicate IsScript(c: Config, store: Store, script: seq<Tick>)
    decreases |script|, 0
  {
    |script| == 0 ||
    var n := |script| - 1;
    IsScript(c, store, script[..n]) && Enabled(Run(c, store, script[..n]).local, script[n].event)
  }

  ghost function Run(c: Config, store: Store, script: seq<Tick>): Outcome
    requires IsScript(c, store, script)
    decreases |script|, 1
  {
    if |script| == 0 then Outcome(START, store, [], [])
    else
      var n := |script| - 1;
      var before := Run(c, store, script[..n]);
      var step := Step(c, before.local, before.store + script[n].others, script[n].event);
      Outcome(step.local, step.store, before.replies + step.replies, before.calls + step.calls)
  }

  lemma {:induction false} RunKeepsLocalOk(c: Config, store: Store, script: seq<Tick>)
    requires IsScript(c, store, script)
    ensures LocalOk(c, Run(c, store, script).local)
    decreases |script|
  {
    if |script| > 0 {
      var n := |script| - 1;
      RunKeepsLocalOk(c, store, script[..n]);
      var before := Run(c, store, script[..n]);
      StepKeepsLocalOk(c, before.local, before.store + script[n].others, script[n].event);
    }
  }

  lemma {:induction false} PrefixIsScript(c: Config, store: Store, script: seq<Tick>, n: nat)
    requires IsScript(c, store, script) && n <= |script|
    ensures IsScript(c, store, script[..n])
    decreases |script|
  {
    if n < |script| {
      PrefixIsScript(c, store, script[..|script| - 1], n);
      assert script[..|script| - 1][..n] == script[..n];
    } else {
      assert script[..n] == script;
    }
  }

  /** One more event of the script. */
  lemma RunSnoc(c: Config, store: Store, script: seq<Tick>, n: nat)
    requires IsScript(c, store, script) && n < |script|
    ensures IsScript(c, store, script[..n]) && IsScript(c, store, script[..n + 1])
    ensures var before := Run(c, store, script[..n]);
            && LocalOk(c, before.local) && Enabled(before.local, script[n].event)
            && var step := Step(c, before.local, before.store + script[n].others, script[n].event);
               Run(c, store, script[..n + 1]) ==
                 Outcome(step.local, step.store, before.replies + step.replies, before.calls + step.calls)
  {
    PrefixIsScript(c, store, script, n);
    PrefixIsScript(c, store, script, n + 1);
    RunKeepsLocalOk(c, store, script[..n]);
    assert script[..n + 1][..n] == script[..n];
  }

  // ----- The loop

  /** After `n` events of the script the run is where these values say. */
  ghost predicate At(c: Config, store0: Store, script: seq<Tick>, n: nat, l: Local, store: Store, replies: seq<Reply>,
                     calls: seq<Call>)
  {
    n <= |script| && IsScript(c, store0, script[..n]) &&
      Run(c, store0, script[..n]) == Outcome(l, store, replies, calls)
  }

  lemma Advance(c: Config, store0: Store, script: seq<Tick>, n: nat, l: Local, store: Store, replies: seq<Reply>,
                calls: seq<Call>)
    requires IsScript(c, store0, script) && n < |script| && At(c, store0, script, n, l, store, replies, calls)
    ensures LocalOk(c, l) && Enabled(l, script[n].event)
    ensures replies + [] == replies && calls + [] == calls
    ensures var step := Step(c, l, store + script[n].others, script[n].event);
            At(c, store0, script, n + 1, step.local, step.store, replies + step.replies, calls + step.calls)
  {
    RunSnoc(c, store0, script, n);
  }

  /** The window: more items until the batch is full, the deadline passes or the channel closes. The
      script may end first. */
  method GatherInWindow(c: Config, script: seq<Tick>, cache: Cache, n0: nat, batch0: seq<Item>, replies0: seq<Reply>,
                        calls: seq<Call>, ghost store0: Store)
    returns (n: nat, phase: Phase, batch: seq<Item>, replies: seq<Reply>)
    requires IsScript(c, store0, script) && |batch0| > 0
    requires At(c, store0, script, n0, Local(AfterMiss(c, Window, batch0), batch0, []), cache.store, replies0, calls)
    modifies cache
    ensures At(c, store0, script, n, Local(phase, batch, []), cache.store, replies, calls)
    ensures n >= n0 && |batch| > 0 && (phase == Calling || (phase == Window && n == |script|))
  {
    n, batch, replies := n0, batch0, replies0;
    while |batch| < MaxSize(c)
      invariant |batch| > 0
      invariant At(c, store0, script, n, Local(AfterMiss(c, Window, batch), batch, []), cache.store, replies, calls)
      invariant n >= n0
      decreases |script| - n
    {
      if n == |script| {
        return n, Window, batch, replies;
      }
      Advance(c, store0, script, n, Local(Window, batch, []), cache.store, replies, calls);
      var tick := script[n];
      cache.Observe(tick.others);
      n := n + 1;
      if !tick.event.Arrived? {
        return n, Calling, batch, replies;
      }
      var item := tick.event.item;
      var cached := cache.Get(c, item.input, tick.event.readOk);
      if cached.Some? {
        replies := replies + [Reply(item.ticket, item.input, Ok(cached.value))];
      } else {
        batch := batch + [item];
      }
    }
    phase := Calling;
  }

  /** After a first hit: whatever is already queued, until the batch is full or the queue is empty. */
  method DrainQueued(c: Config, script: seq<Tick>, cache: Cache, n0: nat, replies0: seq<Reply>, calls: seq<Call>,
                     ghost store0: Store)
    returns (n: nat, phase: Phase, batch: seq<Item>, replies: seq<Reply>)
    requires IsScript(c, store0, script)
    requires At(c, store0, script, n0, Local(Drain, [], []), cache.store, replies0, calls)
    modifies cache
    ensures At(c, store0, script, n, Local(phase, batch, []), cache.store, replies, calls)
    ensures n >= n0
    ensures (phase == Calling && |batch| > 0) || (phase == Idle && batch == []) || (phase == Drain && n == |script|)
  {
    n, batch, replies := n0, [], replies0;
    while |batch| < MaxSize(c)
      invariant At(c, store0, script, n, Local(AfterMiss(c, Drain, batch), batch, []), cache.store, replies, calls)
      invariant n >= n0
      decreases |script| - n
    {
      if n == |script| {
        return n, Drain, batch, replies;
      }
      Advance(c, store0, script, n, Local(Drain, batch, []), cache.store, replies, calls);
      var tick := script[n];
      cache.Observe(tick.others);
      n := n + 1;
      if !tick.event.Arrived? {
        return n, if |batch| == 0 then Idle else Calling, batch, replies;
      }
      var item := tick.event.item;
      var cached := cache.Get(c, item.input, tick.event.readOk);
      if cached.Some? {
        replies := replies + [Reply(item.ticket, item.input, Ok(cached.value))];
      } else {
        batch := batch + [item];
      }
    }
    phase := Calling;
  }

  /** The awaited cache writes of one successful batch, one after the other. */
  method PutAll(c: Config, script: seq<Tick>, cache: Cache, n0: nat, toCache: seq<(TaskInput, TaskOutput)>,
                replies: seq<Reply>, calls: seq<Call>, ghost store0: Store)
    returns (n: nat, pending: seq<(TaskInput, TaskOutput)>)
    requires IsScript(c, store0, script)
    requires At(c, store0, script, n0, Local(if |toCache| > 0 then Putting else Idle, [], toCache), cache.store,
                replies, calls)
    modifies cache
    ensures At(c, store0, script, n, Local(if |pending| > 0 then Putting else Idle, [], pending), cache.store, replies,
               calls)
    ensures n >= n0 && (|pending| == 0 || n == |script|)
  {
    n, pending := n0, toCache;
    while |pending| > 0
      invariant At(c, store0, script, n, Local(if |pending| > 0 then Putting else Idle, [], pending), cache.store,
                   replies, calls)
      invariant n >= n0
      decreases |pending|
    {
      if n == |script| {
        return;
      }
      Advance(c, store0, script, n, Local(Putting, [], pending), cache.store, replies, calls);
      cache.Observe(script[n].others);
      cache.Put(c, pending[0].0, pending[0].1, script[n].event.writeOk);
      n, pending := n + 1, pending[1..];
    }
  }

  /** The replies of one backend call, in batch order, and the cache writes a successful one asks for. */
  method DistributeOutputs(call: Call) returns (replies: seq<Reply>, toCache: seq<(TaskInput, TaskOutput)>)
    ensures replies == Distribute(call)
    ensures toCache == if Succeeded(call) then ToCache(call) else []
  {
    replies, toCache := [], [];
    var good := call.returned.Outputs? && |call.returned.outputs| == |call.items|;
    for i := 0 to |call.items|
      invariant |replies| == i && replies == Distribute(call)[..i]
      invariant toCache == if Succeeded(call) then ToCache(call)[..i] else []
    {
      var item := call.items[i];
      if good {
        toCache := toCache + [(item.input, call.returned.outputs[i])];
        replies := replies + [Reply(item.ticket, item.input, Ok(call.returned.outputs[i]))];
      } else {
        replies := replies + [Reply(item.ticket, item.input, Err(ErrorOf(call)))];
      }
    }
  }

  /** One backend call: its replies first, then its cache writes. */
  method CallBackend(c: Config, script: seq<Tick>, cache: Cache, n0: nat, batch: seq<Item>, replies0: seq<Reply>,
                     calls0: seq<Call>, ghost store0: Store)
    returns (n: nat, replies: seq<Reply>, calls: seq<Call>, pending: seq<(TaskInput, TaskOutput)>)
    requires IsScript(c, store0, script) && n0 < |script|
    requires At(c, store0, script, n0, Local(Calling, batch, []), cache.store, replies0, calls0)
    modifies cache
    ensures n > n0 && At(c, store0, script, n, Local(if |pending| > 0 then Putting else Idle, [], pending),
                         cache.store, replies, calls)
    ensures |pending| == 0 || n == |script|
  {
    Advance(c, store0, script, n0, Local(Calling, batch, []), cache.store, replies0, calls0);
    cache.Observe(script[n0].others);
    var call := Call(batch, script[n0].event.returned);
    var answers, toCache := DistributeOutputs(call);
    replies, calls := replies0 + answers, calls0 + [call];
    n, pending := PutAll(c, script, cache, n0 + 1, toCache, replies, calls, store0);
  }

  /** The batcher loop does what the steps say, on every script. */
  method BatcherLoop(c: Config, script: seq<Tick>, cache: Cache)
    returns (local: Local, replies: seq<Reply>, calls: seq<Call>)
    requires IsScript(c, cache.store, script)
    modifies cache
    ensures Outcome(local, cache.store, replies, calls) == Run(c, old(cache.store), script)
  {
    ghost var store0 := cache.store;
    replies, calls := [], [];
    var n := 0;
    while n < |script|
      invariant At(c, store0, script, n, START, cache.store, replies, calls)
      decreases |script| - n
    {
      Advance(c, store0, script, n, START, cache.store, replies, calls);
      var first := script[n];
      cache.Observe(first.others);
      n := n + 1;
      if first.event.ChannelClosed? {
        NothingAfterStop(c, store0, script, n, cache.store, replies, calls);
        return Local(Stopped, [], []), replies, calls;
      }
      var item := first.event.item;
      var cached := cache.Get(c, item.input, first.event.readOk);
      var phase, batch;
      if cached.None? {
        n, phase, batch, replies := GatherInWindow(c, script, cache, n, [item], replies, calls, store0);
      } else {
        replies := replies + [Reply(item.ticket, item.input, Ok(cached.value))];
        n, phase, batch, replies := DrainQueued(c, script, cache, n, replies, calls, store0);
      }
      if n == |script| {
        assert script[..n] == script;
        return Local(phase, batch, []), replies, calls;
      }
      if |batch| == 0 {
        assert Local(phase, batch, []) == START;
        continue;
      }
      var toCache;
      n, replies, calls, toCache := CallBackend(c, script, cache, n, batch, replies, calls, store0);
      if |toCache| > 0 {
        assert script[..n] == script;
        return Local(Putting, [], toCache), replies, calls;
      }
      assert toCache == [];
    }
    assert script[..n] == script;
    local := START;
  }

  lemma NothingAfterStop(c: Config, store0: Store, script: seq<Tick>, n: nat, store: Store, replies: seq<Reply>,
                         calls: seq<Call>)
    requires IsScript(c, store0, script) && At(c, store0, script, n, Local(Stopped, [], []), store, replies, calls)
    ensures n == |script| && script[..n] == script
  {
    if n < |script| { Advance(c, store0, script, n, Local(Stopped, [], []), store, replies, calls); }
  }
}
