/**
 What the shared cache may and may not change: answers are the backend's up to routing, a batcher does
 not recompute what it has answered, and only a successful batch writes.
 */
module CacheTransparency {
  import opened BatchProtocol
  import opened EngineProtocol
  import opened Options

  // ----- Answers

  /** What a backend answers, up to routing: it depends on the kind of request and its content only. */
  type Truth = (string, Task, Content) -> Body

  function TrueBody(truth: Truth, c: Config, input: TaskInput): Body {
    truth(c.backend, input.task, input.content)
  }

  /** Entries of this build hold true answers; entries of other builds may hold anything. */
  ghost predicate HonestStore(truth: Truth, build: string, store: Store) {
    forall k :: k in store && k.build == build ==> store[k].body == truth(k.backend, k.task, k.content)
  }

  /** A batch of the right length answers each input truly; any other return may be anything. */
  ghost predicate HonestReturn(truth: Truth, c: Config, batch: seq<Item>, returned: Returned) {
    Succeeded(Call(batch, returned)) ==>
      forall i :: 0 <= i < |batch| ==> returned.outputs[i].body == TrueBody(truth, c, batch[i].input)
  }

  ghost predicate HonestAction(truth: Truth, build: string, s: Engine, a: Action)
    requires CanAct(s, a)
  {
    match a
    case ForeignWrite(writes) => HonestStore(truth, build, writes)
    case Advance(b, BackendReturned(returned)) => HonestReturn(truth, s.backends[b].config, s.backends[b].local.batch,
                                                               returned)
    case _ => true
  }

  ghost predicate HonestRun(truth: Truth, build: string, s: Engine, actions: seq<Action>)
    requires IsRun(s, actions)
    decreases |actions|
  {
    |actions| == 0 ||
    var n := |actions| - 1;
    HonestRun(truth, build, s, actions[..n]) && HonestAction(truth, build, After(s, actions[..n]), actions[n])
  }

  ghost predicate HonestPending(truth: Truth, c: Config, pending: seq<(TaskInput, TaskOutput)>) {
    forall i :: 0 <= i < |pending| ==> pending[i].1.body == TrueBody(truth, c, pending[i].0)
  }

  ghost predicate HonestReply(truth: Truth, c: Config, r: Reply) {
    r.result.Ok? ==> r.result.output.body == TrueBody(truth, c, r.input)
  }

  /** One batcher's step keeps the store and its pending writes honest, and answers honestly. */
  lemma StepHonest(truth: Truth, c: Config, l: Local, store: Store, e: Event)
    requires Enabled(l, e) && HonestStore(truth, c.build, store) && HonestPending(truth, c, l.pending)
    requires e.BackendReturned? ==> HonestReturn(truth, c, l.batch, e.returned)
    ensures var o := Step(c, l, store, e);
            && HonestStore(truth, c.build, o.store) && HonestPending(truth, c, o.local.pending)
            && forall r :: r in o.replies ==> HonestReply(truth, c, r)
  {
  }

  /** Where each request is held: at the backend its task is routed to at registration. */
  ghost predicate AtHome(d: Backend, b: nat, home: map<Task, nat>) {
    && (forall x :: x in d.waiting || x in d.queue || x in d.local.batch ==>
        x.input.task in home && home[x.input.task] == b)
  }

  ghost predicate Transparent(truth: Truth, build: string, policy: CachePolicy, home: map<Task, nat>, s: Engine) {
    && HonestStore(truth, build, s.store)
    && (forall t :: t in s.routes ==> t in home && home[t] == s.routes[t])
    && (forall t :: t in home ==> home[t] < |s.backends|)
    && (forall b :: 0 <= b < |s.backends| ==>
          s.backends[b].config.build == build && s.backends[b].config.policy == policy &&
          HonestPending(truth, s.backends[b].config, s.backends[b].local.pending) && AtHome(s.backends[b], b, home))
    && (forall r :: r in s.replies ==>
          r.result.Ok? ==> r.input.task in home && HonestReply(truth, s.backends[home[r.input.task]].config, r))
  }

  lemma StepStaysHome(d: Backend, b: nat, home: map<Task, nat>, store: Store, e: Event)
    requires AtHome(d, b, home) && Enabled(d.local, e) && (e.Arrived? ==> |d.queue| > 0 && e.item == d.queue[0])
    ensures AtHome(AdvanceBackend(d, store, e), b, home)
    ensures forall r :: r in Step(d.config, d.local, store, e).replies ==>
            r.input.task in home && home[r.input.task] == b
  {
    if e.BackendReturned? {
      var call := Call(d.local.batch, e.returned);
      forall r | r in Distribute(call)
        ensures r.input.task in home && home[r.input.task] == b
      {
        var i :| 0 <= i < |call.items| && Distribute(call)[i] == r;
        assert call.items[i] in d.local.batch;
      }
    }
  }

  lemma ReplyTransparent(truth: Truth, s: Engine, s': Engine, home: map<Task, nat>, b: nat, replies: seq<Reply>)
    requires b < |s.backends| && |s'.backends| == |s.backends|
    requires forall k :: 0 <= k < |s.backends| ==> s'.backends[k].config == s.backends[k].config
    requires forall t :: t in home ==> home[t] < |s.backends|
    requires forall r :: r in s.replies ==> r.result.Ok? ==>
             r.input.task in home && HonestReply(truth, s.backends[home[r.input.task]].config, r)
    requires forall r :: r in replies ==>
             r.input.task in home && home[r.input.task] == b && HonestReply(truth, s.backends[b].config, r)
    requires s'.replies == s.replies + replies
    ensures forall r :: r in s'.replies ==> r.result.Ok? ==>
            r.input.task in home && HonestReply(truth, s'.backends[home[r.input.task]].config, r)
  {
  }

  lemma StepTransparent(truth: Truth, build: string, policy: CachePolicy, home: map<Task, nat>, s: Engine, a: Action)
    requires Transparent(truth, build, policy, home, s) && CanAct(s, a) && HonestAction(truth, build, s, a)
    ensures Transparent(truth, build, policy, home, Act(s, a))
  {
    match a
    case Dispatch(item) => DispatchTransparent(truth, build, policy, home, s, item);
    case Send(b, k) => SendTransparent(truth, build, policy, home, s, b, k);
    case Advance(b, e) => AdvanceTransparent(truth, build, policy, home, s, b, e);
    case _ =>
  }

  lemma DispatchTransparent(truth: Truth, build: string, policy: CachePolicy, home: map<Task, nat>, s: Engine,
                            item: Item)
    requires Transparent(truth, build, policy, home, s) && CanAct(s, Dispatch(item))
    ensures Transparent(truth, build, policy, home, Act(s, Dispatch(item)))
  {
  }

  lemma SendTransparent(truth: Truth, build: string, policy: CachePolicy, home: map<Task, nat>, s: Engine, b: nat,
                        k: nat)
    requires Transparent(truth, build, policy, home, s) && CanAct(s, Send(b, k))
    ensures Transparent(truth, build, policy, home, Act(s, Send(b, k)))
  {
  }

  lemma AdvanceTransparent(truth: Truth, build: string, policy: CachePolicy, home: map<Task, nat>, s: Engine, b: nat,
                           e: Event)
    requires Transparent(truth, build, policy, home, s) && CanAct(s, Advance(b, e)) &&
             HonestAction(truth, build, s, Advance(b, e))
    ensures Transparent(truth, build, policy, home, Act(s, Advance(b, e)))
  {
    var d, s' := s.backends[b], Act(s, Advance(b, e));
    StepHonest(truth, d.config, d.local, s.store, e);
    StepStaysHome(d, b, home, s.store, e);
    ReplyTransparent(truth, s, s', home, b, Step(d.config, d.local, s.store, e).replies);
  }

  ghost predicate Uniform(build: string, policy: CachePolicy, s: Engine) {
    forall d :: d in s.backends ==> d.config.build == build && d.config.policy == policy
  }

  lemma {:induction false} RunKeepsTransparent(truth: Truth, build: string, policy: CachePolicy, s: Engine,
                                               actions: seq<Action>)
    requires Fresh(s) && Uniform(build, policy, s) && HonestStore(truth, build, s.store)
    requires IsRun(s, actions) && HonestRun(truth, build, s, actions)
    ensures Transparent(truth, build, policy, s.routes, After(s, actions))
    decreases |actions|
  {
    if |actions| == 0 {
      forall b | 0 <= b < |s.backends|
        ensures AtHome(s.backends[b], b, s.routes)
      {
        assert s.backends[b] in s.backends;
      }
    } else {
      var n := |actions| - 1;
      RunKeepsTransparent(truth, build, policy, s, actions[..n]);
      StepTransparent(truth, build, policy, s.routes, After(s, actions[..n]), actions[n]);
    }
  }

  lemma {:induction false} ConfigsKept(s: Engine, actions: seq<Action>)
    requires IsRun(s, actions)
    ensures var e := After(s, actions);
            |e.backends| == |s.backends| && forall b :: 0 <= b < |s.backends| ==>
              e.backends[b].config == s.backends[b].config
    decreases |actions|
  {
    if |actions| > 0 {
      ConfigsKept(s, actions[..|actions| - 1]);
      StepKeepsConfigs(After(s, actions[..|actions| - 1]), actions[|actions| - 1]);
    }
  }

  lemma StepKeepsConfigs(s: Engine, a: Action)
    requires CanAct(s, a)
    ensures |Act(s, a).backends| == |s.backends|
    ensures forall b :: 0 <= b < |s.backends| ==> Act(s, a).backends[b].config == s.backends[b].config
  {
  }

  /** Cache transparency: in every run, under every policy, whatever the batch boundaries and whichever
      cache reads and writes fail, every successful reply is what the backend registered for its task
      answers, up to routing. */
  lemma CacheIsTransparent(truth: Truth, build: string, policy: CachePolicy, s: Engine, actions: seq<Action>, r: Reply)
    requires Fresh(s) && Uniform(build, policy, s) && HonestStore(truth, build, s.store)
    requires IsRun(s, actions) && HonestRun(truth, build, s, actions)
    requires r in After(s, actions).replies && r.result.Ok?
    ensures r.input.task in s.routes
    ensures r.result.output.body ==
            truth(s.backends[s.routes[r.input.task]].config.backend, r.input.task, r.input.content)
  {
    RunKeepsTransparent(truth, build, policy, s, actions);
    ConfigsKept(s, actions);
  }

  // ----- No recomputation

  function KeysOf(c: Config, items: seq<Item>): set<Key> {
    set x | x in items :: KeyOf(c, x.input)
  }

  function AnsweredKeys(c: Config, calls: seq<Call>): set<Key> {
    if |calls| == 0 then {}
    else
      var call := calls[|calls| - 1];
      AnsweredKeys(c, calls[..|calls| - 1]) + if Succeeded(call) then KeysOf(c, call.items) else {}
  }

  function PendingKeys(c: Config, pending: seq<(TaskInput, TaskOutput)>): set<Key> {
    set p | p in pending :: KeyOf(c, p.0)
  }

  /** No call repeats what an earlier successful call of the same backend has answered. */
  ghost predicate NoRepeats(c: Config, calls: seq<Call>) {
    forall i :: 0 <= i < |calls| ==> AnsweredKeys(c, calls[..i]) !! KeysOf(c, calls[i].items)
  }

  /** What has been answered is stored or about to be, and nothing answered is being gathered. */
  ghost predicate Settled(d: Backend, store: Store) {
    && AnsweredKeys(d.config, d.calls) <= store.Keys + PendingKeys(d.config, d.local.pending)
    && AnsweredKeys(d.config, d.calls) !! KeysOf(d.config, d.local.batch)
    && NoRepeats(d.config, d.calls)
  }

  /** Cache reads and writes succeed. */
  predicate Reliable(a: Action) {
    match a
    case Advance(_, Arrived(_, readOk)) => readOk
    case Advance(_, PutDone(writeOk)) => writeOk
    case _ => true
  }

  lemma StoreGrows(s: Engine, a: Action)
    requires CanAct(s, a)
    ensures s.store.Keys <= Act(s, a).store.Keys
  {
  }

  lemma AnsweredSnoc(c: Config, calls: seq<Call>, call: Call)
    ensures AnsweredKeys(c, calls + [call]) == AnsweredKeys(c, calls) +
            if Succeeded(call) then KeysOf(c, call.items) else {}
    ensures NoRepeats(c, calls) && AnsweredKeys(c, calls) !! KeysOf(c, call.items) ==> NoRepeats(c, calls + [call])
  {
    assert (calls + [call])[..|calls|] == calls;
    if NoRepeats(c, calls) && AnsweredKeys(c, calls) !! KeysOf(c, call.items) {
      forall i | 0 <= i < |calls + [call]|
        ensures AnsweredKeys(c, (calls + [call])[..i]) !! KeysOf(c, (calls + [call])[i].items)
      {
        if i < |calls| { assert (calls + [call])[..i] == calls[..i]; }
      }
    }
  }

  lemma AdvanceSettled(d: Backend, store: Store, e: Event)
    requires Settled(d, store) && LocalOk(d.config, d.local) && d.config.policy == Use
    requires Enabled(d.local, e) && (e.Arrived? ==> |d.queue| > 0 && e.item == d.queue[0] && e.readOk) &&
             (e.PutDone? ==> e.writeOk)
    ensures Settled(AdvanceBackend(d, store, e), Step(d.config, d.local, store, e).store)
  {
    match e
    case Arrived(item, _) => ArrivedSettled(d, store, item);
    case BackendReturned(returned) => ReturnedSettled(d, store, returned);
    case PutDone(_) => PutSettled(d, store);
    case _ => assert d.calls + [] == d.calls;
  }

  /** Nothing answered misses: it is stored, and nothing is pending while requests arrive. */
  lemma ArrivedSettled(d: Backend, store: Store, item: Item)
    requires Settled(d, store) && LocalOk(d.config, d.local) && d.config.policy == Use
    requires Enabled(d.local, Arrived(item, true)) && |d.queue| > 0
    ensures Settled(AdvanceBackend(d, store, Arrived(item, true)), store)
  {
    assert d.calls + [] == d.calls;
    assert KeysOf(d.config, d.local.batch + [item]) == KeysOf(d.config, d.local.batch) + {KeyOf(d.config, item.input)};
  }

  lemma PutSettled(d: Backend, store: Store)
    requires Settled(d, store) && d.config.policy == Use && Enabled(d.local, PutDone(true))
    ensures Settled(AdvanceBackend(d, store, PutDone(true)), Step(d.config, d.local, store, PutDone(true)).store)
  {
    assert d.calls + [] == d.calls;
    PendingCons(d.config, d.local.pending);
  }

  lemma PendingCons(c: Config, pending: seq<(TaskInput, TaskOutput)>)
    requires |pending| > 0
    ensures PendingKeys(c, pending) == {KeyOf(c, pending[0].0)} + PendingKeys(c, pending[1..])
  {
    assert pending == [pending[0]] + pending[1..];
  }

  lemma ReturnedSettled(d: Backend, store: Store, returned: Returned)
    requires Settled(d, store) && LocalOk(d.config, d.local) && Enabled(d.local, BackendReturned(returned))
    ensures Settled(AdvanceBackend(d, store, BackendReturned(returned)), store)
  {
    var call := Call(d.local.batch, returned);
    AnsweredSnoc(d.config, d.calls, call);
    if Succeeded(call) {
      forall x | x in call.items
        ensures KeyOf(d.config, x.input) in PendingKeys(d.config, ToCache(call))
      {
        var i :| 0 <= i < |call.items| && call.items[i] == x;
        assert ToCache(call)[i] in ToCache(call);
      }
    }
    assert KeysOf(d.config, []) == {} && PendingKeys(d.config, []) == {};
  }

  ghost predicate AllSettled(s: Engine) {
    forall d :: d in s.backends ==> Settled(d, s.store)
  }

  lemma SettledGrows(d: Backend, d': Backend, store: Store, store': Store)
    requires Settled(d, store) && store.Keys <= store'.Keys
    requires d'.config == d.config && d'.calls == d.calls && d'.local == d.local
    ensures Settled(d', store')
  {
  }

  /** What others do leaves a backend's own record where it is. */
  lemma OthersKeep(s: Engine, a: Action, b: nat)
    requires CanAct(s, a) && b < |s.backends| && !(a.Advance? && a.b == b)
    ensures var d, d' := s.backends[b], Act(s, a).backends[b];
            d'.config == d.config && d'.calls == d.calls && d'.local == d.local
  {
  }

  lemma BackendSettled(s: Engine, a: Action, b: nat)
    requires CanAct(s, a) && Reliable(a) && b < |s.backends|
    requires Settled(s.backends[b], s.store) && LocalOk(s.backends[b].config, s.backends[b].local) &&
             s.backends[b].config.policy == Use
    ensures Settled(Act(s, a).backends[b], Act(s, a).store)
  {
    if a.Advance? && a.b == b {
      AdvanceSettled(s.backends[b], s.store, a.event);
    } else {
      StoreGrows(s, a);
      OthersKeep(s, a, b);
      SettledGrows(s.backends[b], Act(s, a).backends[b], s.store, Act(s, a).store);
    }
  }

  lemma StepSettled(build: string, s: Engine, a: Action)
    requires AllSettled(s) && AllInOrder(s) && Uniform(build, Use, s) && CanAct(s, a) && Reliable(a)
    ensures AllSettled(Act(s, a)) && Uniform(build, Use, Act(s, a))
  {
    StepKeepsConfigs(s, a);
    forall b | 0 <= b < |s.backends|
      ensures Settled(Act(s, a).backends[b], Act(s, a).store)
      ensures Act(s, a).backends[b].config.build == build && Act(s, a).backends[b].config.policy == Use
    {
      assert s.backends[b] in s.backends;
      BackendSettled(s, a, b);
    }
  }

  lemma {:induction false} RunKeepsSettled(build: string, s: Engine, actions: seq<Action>)
    requires Fresh(s) && Uniform(build, Use, s) && IsRun(s, actions) && forall a :: a in actions ==> Reliable(a)
    ensures AllSettled(After(s, actions)) && Uniform(build, Use, After(s, actions))
    decreases |actions|
  {
    if |actions| == 0 {
      forall d | d in s.backends ensures Settled(d, s.store) { assert KeysOf(d.config, []) == {}; }
    } else {
      var n := |actions| - 1;
      assert actions == actions[..n] + [actions[n]];
      RunKeepsSettled(build, s, actions[..n]);
      RunKeepsOrder(s, actions[..n]);
      StepSettled(build, After(s, actions[..n]), actions[n]);
    }
  }

  /** Under `Use`, with a cache that does not fail: once a successful batch has answered a task and
      content, no later batch of that backend carries it again. */
  lemma NoRecomputation(build: string, s: Engine, actions: seq<Action>, d: Backend, i: nat, j: nat, x: Item, y: Item)
    requires Fresh(s) && Uniform(build, Use, s) && IsRun(s, actions) && forall a :: a in actions ==> Reliable(a)
    requires d in After(s, actions).backends && i < j < |d.calls|
    requires Succeeded(d.calls[i]) && x in d.calls[i].items && y in d.calls[j].items
    ensures !(x.input.task == y.input.task && x.input.content == y.input.content)
  {
    RunKeepsSettled(build, s, actions);
    AnsweredIn(d.config, d.calls, i, j, x);
  }

  lemma {:induction false} AnsweredIn(c: Config, calls: seq<Call>, i: nat, j: nat, x: Item)
    requires i < j <= |calls| && Succeeded(calls[i]) && x in calls[i].items
    ensures KeyOf(c, x.input) in AnsweredKeys(c, calls[..j])
    decreases j
  {
    assert calls[..j][..j - 1] == calls[..j - 1];
    if i < j - 1 { AnsweredIn(c, calls, i, j - 1, x); }
  }

  // ----- What reaches the cache

  type Entry = (Key, TaskOutput)

  function Entries(store: Store): set<Entry> {
    set k | k in store :: (k, store[k])
  }

  function EntriesOf(c: Config, pairs: seq<(TaskInput, TaskOutput)>): set<Entry> {
    set p | p in pairs :: (KeyOf(c, p.0), p.1)
  }

  /** The entries the successful calls of a backend have answered: each input's key with its output. */
  function AnsweredEntries(c: Config, calls: seq<Call>): set<Entry> {
    if |calls| == 0 then {}
    else
      var call := calls[|calls| - 1];
      AnsweredEntries(c, calls[..|calls| - 1]) + if Succeeded(call) then EntriesOf(c, ToCache(call)) else {}
  }

  function AllAnswered(backends: seq<Backend>): set<Entry> {
    set d, e | d in backends && e in AnsweredEntries(d.config, d.calls) :: e
  }

  /** The entries other processes wrote. */
  function ForeignEntries(actions: seq<Action>): set<Entry> {
    if |actions| == 0 then {} else ForeignEntries(actions[..|actions| - 1]) + WrittenBy(actions[|actions| - 1])
  }

  function WrittenBy(a: Action): set<Entry> {
    if a.ForeignWrite? then Entries(a.writes) else {}
  }

  /** Stored entries are known ones or answers of successful calls; so are pending writes. */
  ghost predicate Provenance(known: set<Entry>, s: Engine) {
    && Entries(s.store) <= known + AllAnswered(s.backends)
    && forall d :: d in s.backends ==> EntriesOf(d.config, d.local.pending) <= AnsweredEntries(d.config, d.calls)
  }

  lemma EntriesSnoc(c: Config, calls: seq<Call>, call: Call)
    ensures AnsweredEntries(c, calls + [call]) == AnsweredEntries(c, calls) +
            if Succeeded(call) then EntriesOf(c, ToCache(call)) else {}
  {
    assert (calls + [call])[..|calls|] == calls;
  }

  lemma EntriesOfUpdate(store: Store, k: Key, v: TaskOutput)
    ensures Entries(store[k := v]) <= Entries(store) + {(k, v)}
  {
  }

  lemma EntriesOfMerge(a: Store, b: Store)
    ensures Entries(a + b) <= Entries(a) + Entries(b)
  {
  }

  lemma AdvanceAnswers(d: Backend, store: Store, e: Event)
    requires Enabled(d.local, e) && (e.Arrived? ==> |d.queue| > 0) &&
             EntriesOf(d.config, d.local.pending) <= AnsweredEntries(d.config, d.calls)
    ensures var d' := AdvanceBackend(d, store, e);
            && AnsweredEntries(d.config, d.calls) <= AnsweredEntries(d.config, d'.calls)
            && EntriesOf(d.config, d'.local.pending) <= AnsweredEntries(d.config, d'.calls)
            && Entries(Step(d.config, d.local, store, e).store) <= Entries(store) + AnsweredEntries(d.config, d.calls)
  {
    assert d.calls + [] == d.calls;
    if e.BackendReturned? {
      EntriesSnoc(d.config, d.calls, Call(d.local.batch, e.returned));
    } else if e.PutDone? {
      PutAnswers(d, store, e.writeOk);
    }
  }

  lemma PutAnswers(d: Backend, store: Store, writeOk: bool)
    requires Enabled(d.local, PutDone(writeOk)) &&
             EntriesOf(d.config, d.local.pending) <= AnsweredEntries(d.config, d.calls)
    ensures Entries(Step(d.config, d.local, store, PutDone(writeOk)).store) <= Entries(store) +
            AnsweredEntries(d.config, d.calls)
  {
    var p := d.local.pending[0];
    assert p in d.local.pending && (KeyOf(d.config, p.0), p.1) in EntriesOf(d.config, d.local.pending);
    EntriesOfUpdate(store, KeyOf(d.config, p.0), p.1);
  }

  /** No step takes an answer back. */
  lemma AnswersStay(s: Engine, a: Action)
    requires CanAct(s, a) && forall d :: d in s.backends ==>
             EntriesOf(d.config, d.local.pending) <= AnsweredEntries(d.config, d.calls)
    ensures AllAnswered(s.backends) <= AllAnswered(Act(s, a).backends)
    ensures forall d :: d in Act(s, a).backends ==>
            EntriesOf(d.config, d.local.pending) <= AnsweredEntries(d.config, d.calls)
  {
    var s' := Act(s, a);
    forall b | 0 <= b < |s.backends|
      ensures AnsweredEntries(s.backends[b].config, s.backends[b].calls) <= AnsweredEntries(s'.backends[b].config,
              s'.backends[b].calls)
      ensures EntriesOf(s'.backends[b].config, s'.backends[b].local.pending) <= AnsweredEntries(s'.backends[b].config,
              s'.backends[b].calls)
    {
      assert s.backends[b] in s.backends;
      if a.Advance? && a.b == b { AdvanceAnswers(s.backends[b], s.store, a.event); }
    }
    forall e | e in AllAnswered(s.backends)
      ensures e in AllAnswered(s'.backends)
    {
      var d :| d in s.backends && e in AnsweredEntries(d.config, d.calls);
      var b :| 0 <= b < |s.backends| && s.backends[b] == d;
      assert s'.backends[b] in s'.backends;
    }
  }

  lemma StepProvenance(known: set<Entry>, s: Engine, a: Action)
    requires Provenance(known, s) && CanAct(s, a)
    ensures Provenance(known + WrittenBy(a), Act(s, a))
  {
    AnswersStay(s, a);
    if a.Advance? {
      assert s.backends[a.b] in s.backends;
      AdvanceAnswers(s.backends[a.b], s.store, a.event);
      assert AnsweredEntries(s.backends[a.b].config, s.backends[a.b].calls) <= AllAnswered(s.backends);
    } else if a.ForeignWrite? {
      EntriesOfMerge(s.store, a.writes);
    }
  }

  /** A failed or wrong-length batch leaves no trace in the cache: every stored entry was there at the
      start, came from another process, or is a key with the output a successful call gave for it. */
  lemma {:induction false} OnlySuccessIsCached(s: Engine, actions: seq<Action>)
    requires Fresh(s) && IsRun(s, actions)
    ensures Provenance(Entries(s.store) + ForeignEntries(actions), After(s, actions))
    decreases |actions|
  {
    if |actions| > 0 {
      var n := |actions| - 1;
      OnlySuccessIsCached(s, actions[..n]);
      StepProvenance(Entries(s.store) + ForeignEntries(actions[..n]), After(s, actions[..n]), actions[n]);
      assert Entries(s.store) + ForeignEntries(actions[..n]) + WrittenBy(actions[n]) ==
             Entries(s.store) + ForeignEntries(actions);
    }
  }

  // ----- Answers outside `Use`

  /** Outside `Use` nothing is answered from the cache. */
  lemma {:induction false} NoHitsOutsideUse(build: string, policy: CachePolicy, s: Engine, actions: seq<Action>)
    requires Fresh(s) && Uniform(build, policy, s) && policy != Use && IsRun(s, actions)
    ensures Uniform(build, policy, After(s, actions))
    ensures forall d, receipt :: d in After(s, actions).backends && receipt in d.received ==> receipt.hit == None
    decreases |actions|
  {
    if |actions| > 0 {
      var n := |actions| - 1;
      NoHitsOutsideUse(build, policy, s, actions[..n]);
      var e, a := After(s, actions[..n]), actions[n];
      forall d, receipt | d in Act(e, a).backends && receipt in d.received
        ensures receipt.hit == None
      {
        var b :| 0 <= b < |e.backends| && Act(e, a).backends[b] == d;
        assert e.backends[b] in e.backends;
      }
      forall d | d in Act(e, a).backends
        ensures d.config.build == build && d.config.policy == policy
      {
        var b :| 0 <= b < |e.backends| && Act(e, a).backends[b] == d;
        assert e.backends[b] in e.backends;
      }
    }
  }

  /** Under `Bypass` and `Refresh` every successful reply is an output of the call its request was in. */
  lemma AnsweredByOwnCall(build: string, policy: CachePolicy, s: Engine, actions: seq<Action>, r: Reply)
    returns (d: Backend, call: Call)
    requires Fresh(s) && Uniform(build, policy, s) && policy != Use && IsRun(s, actions)
    requires r in After(s, actions).replies && r.result.Ok?
    ensures d in After(s, actions).backends && call in d.calls && Succeeded(call)
    ensures exists i ::
              0 <= i < |call.items| && call.items[i].input == r.input && call.returned.outputs[i] == r.result.output
  {
    RepliesAreJustified(s, actions);
    NoHitsOutsideUse(build, policy, s, actions);
    d :| d in After(s, actions).backends && (FromCall(d, r) || FromCache(d, r));
    assert FromCall(d, r);
    call :| call in d.calls && r in Distribute(call);
    var i :| 0 <= i < |call.items| && Distribute(call)[i] == r;
    assert call.items[i].input == r.input;
  }
}
