/**
 What the cache keeps of a run: what a backend last answered stays stored until others replace it, a
 bypassed cache stays as it is, and a refreshed one answers the next run.
 */
module CachePersistence {
  import opened BatchProtocol
  import opened EngineProtocol
  import opened CacheTransparency
  import opened Options

  // ----- The last answer of a backend

  /** The last of the pairs with this key has this output. */
  ghost predicate LastPair(c: Config, pairs: seq<(TaskInput, TaskOutput)>, k: Key, o: TaskOutput) {
    exists j :: LastPairAt(c, pairs, k, o, j)
  }

  ghost predicate LastPairAt(c: Config, pairs: seq<(TaskInput, TaskOutput)>, k: Key, o: TaskOutput, j: int) {
    && 0 <= j < |pairs| && KeyOf(c, pairs[j].0) == k && pairs[j].1 == o
    && forall l :: j < l < |pairs| ==> KeyOf(c, pairs[l].0) != k
  }

  ghost predicate NoPair(c: Config, pairs: seq<(TaskInput, TaskOutput)>, k: Key) {
    forall j :: 0 <= j < |pairs| ==> KeyOf(c, pairs[j].0) != k
  }

  /** What the call answered the request at `j`, and nothing for the same key after it. */
  ghost predicate AnswersLast(c: Config, call: Call, k: Key, o: TaskOutput, j: int) {
    && Succeeded(call) && 0 <= j < |call.items| && KeyOf(c, call.items[j].input) == k && call.returned.outputs[j] == o
    && forall l :: j < l < |call.items| ==> KeyOf(c, call.items[l].input) != k
  }

  ghost predicate DoesNotAnswer(c: Config, call: Call, k: Key) {
    Succeeded(call) ==> forall j :: 0 <= j < |call.items| ==> KeyOf(c, call.items[j].input) != k
  }

  /** `o` is the output that the last successful call with a request of this key gave for the last of them. */
  ghost predicate IsLastAnswer(c: Config, calls: seq<Call>, k: Key, o: TaskOutput) {
    exists i, j :: 0 <= i < |calls| && AnswersLast(c, calls[i], k, o, j) && NoneAfter(c, calls, k, i)
  }

  ghost predicate NoneAfter(c: Config, calls: seq<Call>, k: Key, i: int) {
    forall l :: 0 <= l < |calls| && i < l ==> DoesNotAnswer(c, calls[l], k)
  }

  lemma LastAnswerSnoc(c: Config, calls: seq<Call>, call: Call, k: Key, o: TaskOutput)
    requires IsLastAnswer(c, calls + [call], k, o)
    ensures if DoesNotAnswer(c, call, k) then IsLastAnswer(c, calls, k, o)
            else Succeeded(call) && LastPair(c, ToCache(call), k, o)
  {
    var all := calls + [call];
    var i, j :| 0 <= i < |all| && AnswersLast(c, all[i], k, o, j) && NoneAfter(c, all, k, i);
    if i < |calls| {
      assert DoesNotAnswer(c, all[|calls|], k);
      forall l | 0 <= l < |calls| && i < l
        ensures DoesNotAnswer(c, calls[l], k)
      {
        assert DoesNotAnswer(c, all[l], k);
      }
      assert AnswersLast(c, calls[i], k, o, j) && NoneAfter(c, calls, k, i);
    } else {
      assert !DoesNotAnswer(c, call, k);
      assert LastPairAt(c, ToCache(call), k, o, j);
    }
  }

  // ----- Who writes a key

  /** Backend `b` writes this output under this key. */
  ghost predicate OwnPut(e: Engine, a: Action, b: nat, k: Key, o: TaskOutput) {
    a == Advance(b, PutDone(true)) && b < |e.backends| &&
    var d := e.backends[b];
    |d.local.pending| > 0 && KeyOf(d.config, d.local.pending[0].0) == k && d.local.pending[0].1 == o
  }

  /** Another process or another backend than `b` writes something under this key. */
  ghost predicate OthersPut(e: Engine, a: Action, b: nat, k: Key) {
    match a
    case ForeignWrite(writes) => k in writes
    case Advance(b', PutDone(writeOk)) =>
      b' != b && b' < |e.backends| && writeOk && e.backends[b'].config.policy != Bypass &&
      |e.backends[b'].local.pending| > 0 && KeyOf(e.backends[b'].config, e.backends[b'].local.pending[0].0) == k
    case _ => false
  }

  /** The writes of backend `b` succeed. */
  predicate PutsSucceed(actions: seq<Action>, b: nat) {
    Advance(b, PutDone(false)) !in actions
  }

  lemma {:induction false} PrefixIsRun(s: Engine, actions: seq<Action>, n: nat)
    requires IsRun(s, actions) && n <= |actions|
    ensures IsRun(s, actions[..n])
    decreases |actions|
  {
    if n < |actions| {
      PrefixIsRun(s, actions[..|actions| - 1], n);
      assert actions[..|actions| - 1][..n] == actions[..n];
    } else {
      assert actions[..n] == actions;
    }
  }

  /** Action `n` of the run is `b`'s write of this output. */
  ghost predicate PutAt(s: Engine, actions: seq<Action>, n: nat, b: nat, k: Key, o: TaskOutput) {
    n < |actions| && IsRun(s, actions[..n]) && OwnPut(After(s, actions[..n]), actions[n], b, k, o)
  }

  ghost predicate OthersPutAt(s: Engine, actions: seq<Action>, n: nat, b: nat, k: Key) {
    n < |actions| && IsRun(s, actions[..n]) && OthersPut(After(s, actions[..n]), actions[n], b, k)
  }

  ghost predicate NoOthersAfter(s: Engine, actions: seq<Action>, p: nat, b: nat, k: Key) {
    forall n: nat :: p < n < |actions| ==> !OthersPutAt(s, actions, n, b, k)
  }

  /** At `p` the backend wrote `o`; unless others have written the key since, it is what is stored. */
  ghost predicate WrittenAt(s: Engine, actions: seq<Action>, p: nat, b: nat, k: Key, o: TaskOutput)
    requires IsRun(s, actions)
  {
    && PutAt(s, actions, p, b, k, o)
    && (NoOthersAfter(s, actions, p, b, k) ==> Holds(After(s, actions).store, k, o))
  }

  predicate Holds(store: Store, k: Key, o: TaskOutput) {
    k in store && store[k] == o
  }

  lemma PutAtSnoc(s: Engine, actions: seq<Action>, a: Action, n: nat, b: nat, k: Key, o: TaskOutput)
    requires PutAt(s, actions, n, b, k, o)
    ensures PutAt(s, actions + [a], n, b, k, o)
  {
    assert (actions + [a])[..n] == actions[..n];
  }

  lemma OthersPutSnoc(s: Engine, actions: seq<Action>, a: Action, n: nat, b: nat, k: Key)
    requires OthersPutAt(s, actions, n, b, k)
    ensures OthersPutAt(s, actions + [a], n, b, k)
  {
    assert (actions + [a])[..n] == actions[..n];
  }

  lemma LastAction(s: Engine, actions: seq<Action>, a: Action)
    requires IsRun(s, actions + [a])
    ensures IsRun(s, actions) && CanAct(After(s, actions), a) && After(s, actions + [a]) == Act(After(s, actions), a)
  {
    assert (actions + [a])[..|actions|] == actions;
  }

  lemma NoOthersBefore(s: Engine, actions: seq<Action>, a: Action, p: nat, b: nat, k: Key)
    requires IsRun(s, actions) && p < |actions| && NoOthersAfter(s, actions + [a], p, b, k)
    ensures NoOthersAfter(s, actions, p, b, k) && !OthersPut(After(s, actions), a, b, k)
  {
    assert (actions + [a])[..|actions|] == actions;
    assert !OthersPutAt(s, actions + [a], |actions|, b, k);
    forall n: nat | p < n < |actions|
      ensures !OthersPutAt(s, actions, n, b, k)
    {
      if OthersPutAt(s, actions, n, b, k) { OthersPutSnoc(s, actions, a, n, b, k); }
    }
  }

  /** A step that writes nothing under a key leaves what is stored there. */
  lemma StoreKeeps(e: Engine, a: Action, b: nat, k: Key, o: TaskOutput)
    requires CanAct(e, a) && !OthersPut(e, a, b, k) && !OwnKey(e, a, b, k) && Holds(e.store, k, o)
    ensures Holds(Act(e, a).store, k, o)
  {
  }

  /** Backend `b` writes something under this key. */
  ghost predicate OwnKey(e: Engine, a: Action, b: nat, k: Key) {
    a == Advance(b, PutDone(true)) && b < |e.backends| &&
    |e.backends[b].local.pending| > 0 && KeyOf(e.backends[b].config, e.backends[b].local.pending[0].0) == k
  }

  lemma StaysWritten(s: Engine, actions: seq<Action>, a: Action, p: nat, b: nat, k: Key, o: TaskOutput)
    requires IsRun(s, actions + [a]) && IsRun(s, actions) && WrittenAt(s, actions, p, b, k, o)
    requires !OwnKey(After(s, actions), a, b, k)
    ensures WrittenAt(s, actions + [a], p, b, k, o)
  {
    LastAction(s, actions, a);
    PutAtSnoc(s, actions, a, p, b, k, o);
    if NoOthersAfter(s, actions + [a], p, b, k) {
      NoOthersBefore(s, actions, a, p, b, k);
      StoreKeeps(After(s, actions), a, b, k, o);
    }
  }

  lemma NowWritten(s: Engine, actions: seq<Action>, a: Action, b: nat, k: Key, o: TaskOutput)
    requires IsRun(s, actions + [a]) && IsRun(s, actions) && OwnPut(After(s, actions), a, b, k, o)
    requires After(s, actions).backends[b].config.policy != Bypass
    ensures WrittenAt(s, actions + [a], |actions|, b, k, o)
  {
    LastAction(s, actions, a);
    assert (actions + [a])[..|actions|] == actions;
  }

  // ----- The last answer is stored

  /** The last answer under the key is still to be written, or has been. */
  ghost predicate Recorded(s: Engine, actions: seq<Action>, b: nat, k: Key, o: TaskOutput)
    requires IsRun(s, actions) && b < |After(s, actions).backends|
  {
    var d := After(s, actions).backends[b];
    LastPair(d.config, d.local.pending, k, o) ||
    (NoPair(d.config, d.local.pending, k) && exists p :: WrittenAt(s, actions, p, b, k, o))
  }

  ghost predicate AnswerRecorded(s: Engine, actions: seq<Action>, b: nat, k: Key, o: TaskOutput)
    requires IsRun(s, actions) && b < |After(s, actions).backends|
  {
    var d := After(s, actions).backends[b];
    IsLastAnswer(d.config, d.calls, k, o) ==> Recorded(s, actions, b, k, o)
  }

  lemma OthersStep(s: Engine, actions: seq<Action>, a: Action, b: nat, k: Key, o: TaskOutput)
    requires IsRun(s, actions + [a]) && IsRun(s, actions) && b < |After(s, actions).backends|
    requires Recorded(s, actions, b, k, o)
    requires CanAct(After(s, actions), a) && |Act(After(s, actions), a).backends| == |After(s, actions).backends|
    requires !OwnKey(After(s, actions), a, b, k)
    requires var d, d' := After(s, actions).backends[b], Act(After(s, actions), a).backends[b];
             d'.config == d.config && d'.local.pending == d.local.pending
    ensures b < |After(s, actions + [a]).backends| && Recorded(s, actions + [a], b, k, o)
  {
    LastAction(s, actions, a);
    var d := After(s, actions).backends[b];
    if !LastPair(d.config, d.local.pending, k, o) {
      var p :| WrittenAt(s, actions, p, b, k, o);
      StaysWritten(s, actions, a, p, b, k, o);
    }
  }

  lemma PutLeaves(e: Engine, b: nat)
    requires CanAct(e, Advance(b, PutDone(true)))
    ensures |Act(e, Advance(b, PutDone(true))).backends| == |e.backends| && |e.backends[b].local.pending| > 0
    ensures var d, d' := e.backends[b], Act(e, Advance(b, PutDone(true))).backends[b];
            d'.config == d.config && d'.local.pending == d.local.pending[1..]
  {
  }

  lemma ReturnLeaves(e: Engine, b: nat, returned: Returned)
    requires CanAct(e, Advance(b, BackendReturned(returned)))
    ensures |Act(e, Advance(b, BackendReturned(returned))).backends| == |e.backends|
    ensures var d, d' := e.backends[b], Act(e, Advance(b, BackendReturned(returned))).backends[b];
            var call := Call(d.local.batch, returned);
            && d'.config == d.config && d'.calls == d.calls + [call]
            && d'.local.pending == if Succeeded(call) then ToCache(call) else []
  {
  }

  /** The pending writes with the first one done. */
  lemma PendingTail(c: Config, pending: seq<(TaskInput, TaskOutput)>, k: Key, o: TaskOutput)
    requires |pending| > 0 && (LastPair(c, pending, k, o) || NoPair(c, pending, k))
    ensures LastPair(c, pending[1..], k, o) || NoPair(c, pending[1..], k)
    ensures NoPair(c, pending, k) ==> NoPair(c, pending[1..], k) && KeyOf(c, pending[0].0) != k
    ensures LastPair(c, pending, k, o) && !LastPair(c, pending[1..], k, o) ==>
              KeyOf(c, pending[0].0) == k && pending[0].1 == o
  {
    var rest := pending[1..];
    if LastPair(c, pending, k, o) {
      var j :| LastPairAt(c, pending, k, o, j);
      if j > 0 {
        LastPairTail(c, pending, k, o, j);
      } else {
        forall l | 0 <= l < |rest|
          ensures KeyOf(c, rest[l].0) != k
        {
          assert rest[l] == pending[l + 1];
        }
      }
    } else {
      assert KeyOf(c, pending[0].0) != k;
    }
  }

  lemma PutStep(s: Engine, actions: seq<Action>, b: nat, k: Key, o: TaskOutput)
    requires var a := Advance(b, PutDone(true));
             IsRun(s, actions + [a]) && IsRun(s, actions) && CanAct(After(s, actions), a)
    requires After(s, actions).backends[b].config.policy != Bypass && Recorded(s, actions, b, k, o)
    ensures var actions' := actions + [Advance(b, PutDone(true))];
            b < |After(s, actions').backends| && Recorded(s, actions', b, k, o)
  {
    var a := Advance(b, PutDone(true));
    LastAction(s, actions, a);
    var d := After(s, actions).backends[b];
    PutLeaves(After(s, actions), b);
    PendingTail(d.config, d.local.pending, k, o);
    if LastPair(d.config, d.local.pending, k, o) {
      if !LastPair(d.config, d.local.pending[1..], k, o) { NowWritten(s, actions, a, b, k, o); }
    } else {
      var p :| WrittenAt(s, actions, p, b, k, o);
      StaysWritten(s, actions, a, p, b, k, o);
    }
  }

  lemma LastPairTail(c: Config, pairs: seq<(TaskInput, TaskOutput)>, k: Key, o: TaskOutput, j: nat)
    requires j > 0 && LastPairAt(c, pairs, k, o, j)
    ensures LastPair(c, pairs[1..], k, o)
  {
    assert LastPairAt(c, pairs[1..], k, o, j - 1);
  }

  lemma ReturnStep(s: Engine, actions: seq<Action>, b: nat, returned: Returned, k: Key, o: TaskOutput)
    requires var a := Advance(b, BackendReturned(returned));
             IsRun(s, actions + [a]) && IsRun(s, actions) && CanAct(After(s, actions), a)
    requires LocalOk(After(s, actions).backends[b].config, After(s, actions).backends[b].local)
    requires AnswerRecorded(s, actions, b, k, o)
    ensures var actions' := actions + [Advance(b, BackendReturned(returned))];
            b < |After(s, actions').backends| && AnswerRecorded(s, actions', b, k, o)
  {
    var a := Advance(b, BackendReturned(returned));
    LastAction(s, actions, a);
    ReturnLeaves(After(s, actions), b, returned);
    var d := After(s, actions).backends[b];
    var call := Call(d.local.batch, returned);
    if IsLastAnswer(d.config, d.calls + [call], k, o) {
      LastAnswerSnoc(d.config, d.calls, call, k, o);
      if DoesNotAnswer(d.config, call, k) { UnansweredReturn(s, actions, b, returned, k, o); }
    }
  }

  lemma UnansweredPairs(c: Config, call: Call, k: Key)
    requires DoesNotAnswer(c, call, k)
    ensures NoPair(c, if Succeeded(call) then ToCache(call) else [], k)
  {
  }

  /** Nothing is pending during a call, so the answer before it has been written. */
  lemma {:induction false} UnansweredReturn(s: Engine, actions: seq<Action>, b: nat, returned: Returned, k: Key,
                                            o: TaskOutput)
    requires var a := Advance(b, BackendReturned(returned));
             IsRun(s, actions + [a]) && IsRun(s, actions) && CanAct(After(s, actions), a)
    requires After(s, actions).backends[b].local.pending == [] && Recorded(s, actions, b, k, o)
    requires var d := After(s, actions).backends[b]; DoesNotAnswer(d.config, Call(d.local.batch, returned), k)
    ensures var actions' := actions + [Advance(b, BackendReturned(returned))];
            b < |After(s, actions').backends| && Recorded(s, actions', b, k, o)
  {
    var a := Advance(b, BackendReturned(returned));
    var d := After(s, actions).backends[b];
    assert !LastPair(d.config, d.local.pending, k, o);
    var p :| WrittenAt(s, actions, p, b, k, o);
    StaysWritten(s, actions, a, p, b, k, o);
    LastAction(s, actions, a);
    ReturnLeaves(After(s, actions), b, returned);
    UnansweredPairs(d.config, Call(d.local.batch, returned), k);
  }

  lemma StepRecords(s: Engine, actions: seq<Action>, a: Action, b: nat, k: Key, o: TaskOutput)
    requires IsRun(s, actions + [a]) && IsRun(s, actions) && CanAct(After(s, actions), a)
    requires b < |After(s, actions).backends| && After(s, actions).backends[b].config.policy != Bypass
    requires LocalOk(After(s, actions).backends[b].config, After(s, actions).backends[b].local)
    requires AnswerRecorded(s, actions, b, k, o) && a != Advance(b, PutDone(false))
    ensures b < |After(s, actions + [a]).backends| && AnswerRecorded(s, actions + [a], b, k, o)
  {
    LastAction(s, actions, a);
    var e := After(s, actions);
    if a.Advance? && a.b == b && a.event.BackendReturned? {
      ReturnStep(s, actions, b, a.event.returned, k, o);
    } else {
      CallsKept(e, a, b);
      if IsLastAnswer(e.backends[b].config, e.backends[b].calls, k, o) {
        if a == Advance(b, PutDone(true)) {
          PutStep(s, actions, b, k, o);
        } else {
          OthersStep(s, actions, a, b, k, o);
        }
      }
    }
  }

  lemma CallsKept(e: Engine, a: Action, b: nat)
    requires CanAct(e, a) && b < |e.backends| && !(a.Advance? && a.b == b && a.event.BackendReturned?)
    ensures |Act(e, a).backends| == |e.backends|
    ensures var d, d' := e.backends[b], Act(e, a).backends[b];
            && d'.config == d.config && d'.calls == d.calls
            && (!(a.Advance? && a.b == b && a.event.PutDone?) ==> d'.local.pending == d.local.pending)
  {
    assert e.backends[b].calls + [] == e.backends[b].calls;
  }

  lemma {:induction false} RunRecords(s: Engine, actions: seq<Action>, b: nat, k: Key, o: TaskOutput)
    requires Fresh(s) && IsRun(s, actions) && PutsSucceed(actions, b)
    requires b < |s.backends| && s.backends[b].config.policy != Bypass
    ensures |After(s, actions).backends| == |s.backends| && AnswerRecorded(s, actions, b, k, o)
    decreases |actions|
  {
    if |actions| == 0 {
      assert s.backends[b] in s.backends;
    } else {
      var n := |actions| - 1;
      assert actions == actions[..n] + [actions[n]];
      RunRecords(s, actions[..n], b, k, o);
      RunKeepsOrder(s, actions[..n]);
      ConfigsKept(s, actions[..n]);
      ConfigsKept(s, actions);
      assert InOrder(After(s, actions[..n]).backends[b]);
      StepRecords(s, actions[..n], actions[n], b, k, o);
    }
  }

  /** Under `Use` and under `Refresh`, once a backend whose writes succeed has none left to do, it has written
      the last answer it gave under each key, and that is what is stored unless others wrote the key since. */
  lemma LastAnswerIsStored(s: Engine, actions: seq<Action>, b: nat, k: Key, o: TaskOutput) returns (p: nat)
    requires Fresh(s) && IsRun(s, actions) && PutsSucceed(actions, b)
    requires b < |s.backends| && s.backends[b].config.policy in {Use, Refresh}
    requires b < |After(s, actions).backends| && After(s, actions).backends[b].local.pending == []
    requires IsLastAnswer(s.backends[b].config, After(s, actions).backends[b].calls, k, o)
    ensures PutAt(s, actions, p, b, k, o)
    ensures (forall n: nat :: p < n < |actions| ==> !OthersPutAt(s, actions, n, b, k)) ==>
              k in After(s, actions).store && After(s, actions).store[k] == o
  {
    RunRecords(s, actions, b, k, o);
    ConfigsKept(s, actions);
    assert !LastPair(s.backends[b].config, [], k, o);
    p :| WrittenAt(s, actions, p, b, k, o);
  }

  // ----- Bypass

  /** What other processes wrote, later writes over earlier ones. */
  function ForeignStore(actions: seq<Action>): Store {
    if |actions| == 0 then map[]
    else
      var a := actions[|actions| - 1];
      ForeignStore(actions[..|actions| - 1]) + if a.ForeignWrite? then a.writes else map[]
  }

  /** Under `Bypass` the batchers change nothing: what is stored is what was, and what others wrote. */
  lemma {:induction false} BypassWritesNothing(build: string, s: Engine, actions: seq<Action>)
    requires Fresh(s) && Uniform(build, Bypass, s) && IsRun(s, actions)
    ensures After(s, actions).store == s.store + ForeignStore(actions)
    decreases |actions|
  {
    if |actions| > 0 {
      var n := |actions| - 1;
      BypassWritesNothing(build, s, actions[..n]);
      ConfigsKept(s, actions[..n]);
      var e, a := After(s, actions[..n]), actions[n];
      var writes := if a.ForeignWrite? then a.writes else map[];
      BypassStep(build, s, e, a, writes);
      MergeAssociates(s.store, ForeignStore(actions[..n]), writes);
    }
  }

  lemma MergeAssociates(a: Store, b: Store, c: Store)
    ensures a + b + c == a + (b + c)
  {
  }

  lemma BypassStep(build: string, s: Engine, e: Engine, a: Action, writes: Store)
    requires Uniform(build, Bypass, s) && CanAct(e, a) && |e.backends| == |s.backends|
    requires forall b :: 0 <= b < |s.backends| ==> e.backends[b].config == s.backends[b].config
    requires writes == if a.ForeignWrite? then a.writes else map[]
    ensures Act(e, a).store == e.store + writes
  {
    assert e.store + map[] == e.store;
    if a.Advance? { assert s.backends[a.b] in s.backends; }
  }

  // ----- The next run

  /** The action writes under this key. */
  ghost predicate WritesKey(e: Engine, a: Action, k: Key) {
    match a
    case ForeignWrite(writes) => k in writes
    case Advance(b, PutDone(writeOk)) =>
      b < |e.backends| && writeOk && e.backends[b].config.policy != Bypass &&
      |e.backends[b].local.pending| > 0 && KeyOf(e.backends[b].config, e.backends[b].local.pending[0].0) == k
    case _ => false
  }

  ghost predicate KeyUntouched(s: Engine, actions: seq<Action>, k: Key) {
    forall n: nat :: n < |actions| && IsRun(s, actions[..n]) ==> !WritesKey(After(s, actions[..n]), actions[n], k)
  }

  lemma {:induction false} UntouchedStays(s: Engine, actions: seq<Action>, k: Key, o: TaskOutput)
    requires IsRun(s, actions) && KeyUntouched(s, actions, k) && Holds(s.store, k, o)
    ensures Holds(After(s, actions).store, k, o)
    decreases |actions|
  {
    if |actions| > 0 {
      var n := |actions| - 1;
      forall m: nat | m < n && IsRun(s, actions[..n][..m])
        ensures !WritesKey(After(s, actions[..n][..m]), actions[..n][m], k)
      {
        assert actions[..n][..m] == actions[..m];
      }
      UntouchedStays(s, actions[..n], k, o);
    }
  }

  /** After a run under `Refresh`, an engine under `Use` over the same store, with a backend of the same build
      and name, answers every request of that content with the new output, as long as nothing writes the key:
      reads that succeed hit, and reply at once. */
  lemma {:induction false} RefreshedAnswerIsUsed(s: Engine, actions: seq<Action>, b: nat, o: TaskOutput, s': Engine,
                                                 actions': seq<Action>,
                              b': nat, item: Item)
    requires Fresh(s) && IsRun(s, actions) && PutsSucceed(actions, b)
    requires b < |s.backends| && s.backends[b].config.policy == Refresh
    requires b < |After(s, actions).backends| && After(s, actions).backends[b].local.pending == []
    requires var c := s.backends[b].config;
             var k := Key(c.build, item.input.task, c.backend, item.input.content);
             && IsLastAnswer(c, After(s, actions).backends[b].calls, k, o)
             && (forall n: nat :: n < |actions| ==> !OthersPutAt(s, actions, n, b, k))
             && KeyUntouched(s', actions', k)
    requires Fresh(s') && s'.store == After(s, actions).store && IsRun(s', actions')
    requires b' < |s'.backends| && s'.backends[b'].config.policy == Use
    requires s'.backends[b'].config.build == s.backends[b].config.build
    requires s'.backends[b'].config.backend == s.backends[b].config.backend
    requires CanAct(After(s', actions'), Advance(b', Arrived(item, true)))
    ensures Act(After(s', actions'), Advance(b', Arrived(item, true))).replies ==
            After(s', actions').replies + [Reply(item.ticket, item.input, Ok(o))]
  {
    var c := s.backends[b].config;
    var k := Key(c.build, item.input.task, c.backend, item.input.content);
    var p := LastAnswerIsStored(s, actions, b, k, o);
    UntouchedStays(s', actions', k, o);
    ConfigsKept(s', actions');
    assert KeyOf(s'.backends[b'].config, item.input) == k;
  }
}
