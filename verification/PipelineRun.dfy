/**
 The pipeline: its closed task set and their prerequisites, the run of one input through the ordered
 stages with its stage gates and poison pill, and the collection of outcomes in input order.
 */
module PipelineRun {
  import opened Options
  import opened TopoSort

  // ----- Tasks

  datatype Task = Ai | Asr | Fa | Speaker | UtSeg | Utr | Morphosyntax | Translate | Coref | Compare | Convert
    | Phonetic

  function Requires(t: Task): seq<Task> {
    match t
    case Ai => []
    case Asr => []
    case Speaker => []
    case UtSeg => [Asr]
    case Utr => []
    case Fa => [UtSeg, Utr]
    case Morphosyntax => [UtSeg]
    case Phonetic => [UtSeg, Utr, Fa]
    case Coref => [Morphosyntax]
    case Translate => [Morphosyntax]
    case Compare => []
    case Convert => []
  }

  function Ordinal(t: Task): nat {
    match t
    case Ai => 0 case Asr => 1 case Fa => 2 case Speaker => 3 case UtSeg => 4 case Utr => 5
    case Morphosyntax => 6 case Translate => 7 case Coref => 8 case Compare => 9 case Convert => 10 case Phonetic => 11
  }

  /** Only declared tasks run: prerequisites order them, they do not add any. */
  function TaskGraph(declared: seq<Task>): Graph<Task> {
    Graph(declared, Elems(declared), Requires, Ordinal)
  }

  /** Longest chain of prerequisites below a task. */
  function Depth(t: Task): nat {
    match t
    case UtSeg => 1
    case Fa => 2
    case Morphosyntax => 2
    case Phonetic => 3
    case Coref => 3
    case Translate => 3
    case _ => 0
  }

  lemma NoDeadlock(g: Graph<Task>, s: set<Task>, t: Task)
    requires g.prerequisites == Requires && t in s
    ensures !IsDeadlock(g, s)
    decreases Depth(t)
  {
    if IsDeadlock(g, s) {
      assert t in s && g.prerequisites(t) == Requires(t);
      var r :| r in Requires(t) && r in s;
      NoDeadlock(g, s, r);
    }
  }

  lemma TasksNeverDeadlock(declared: seq<Task>, order: seq<Task>)
    requires IsGreedy(TaskGraph(declared), order)
    ensures IsOrder(TaskGraph(declared), order)
  {
    var g := TaskGraph(declared);
    forall s
      ensures !IsDeadlock(g, s)
    {
      if s != {} { var t :| t in s; NoDeadlock(g, s, t); }
    }
    GreedyCompleteIffNoDeadlock(g, order);
  }

  lemma PrerequisitesFirst(declared: seq<Task>, order: seq<Task>, i: nat, r: Task)
    requires IsSchedule(TaskGraph(declared), order) && i < |order| && r in Requires(order[i]) && r in declared
    ensures r in order[..i]
  {
    assert Available(TaskGraph(declared), Elems(order[..i]), order[i]);
  }

  lemma OrderMeaning(declared: seq<Task>, order: seq<Task>)
    requires IsGreedy(TaskGraph(declared), order)
    ensures Elems(order) == Elems(declared) && Once(order)
    ensures forall i :: 0 <= i < |order| ==> forall r :: r in Requires(order[i]) && r in declared ==> r in order[..i]
  {
    GreedyIsSchedule(TaskGraph(declared), order);
    TasksNeverDeadlock(declared, order);
    forall i, r | 0 <= i < |order| && r in Requires(order[i]) && r in declared
      ensures r in order[..i]
    {
      PrerequisitesFirst(declared, order, i, r);
    }
  }

  lemma OrdinalsDistinct(declared: seq<Task>)
    ensures DistinctOrdinals(TaskGraph(declared))
  {
  }

  lemma OrderIsLeast(declared: seq<Task>, order: seq<Task>)
    requires IsGreedy(TaskGraph(declared), order)
    ensures forall other :: IsOrder(TaskGraph(declared), other) ==> LexAtMost(TaskGraph(declared), order, other)
    ensures IsOrder(TaskGraph(declared), declared) ==> order == declared
  {
    var g := TaskGraph(declared);
    OrdinalsDistinct(declared);
    forall other | IsOrder(g, other)
      ensures LexAtMost(g, order, other)
    {
      GreedyIsLexLeast(g, order, other);
    }
    if IsOrder(g, declared) { ConsistentDeclarationIsKept(g, order); }
  }

  /** Wherever both occur, `a` comes before `b`. */
  predicate Before(order: seq<Task>, a: Task, b: Task) {
    forall i, j :: 0 <= i < |order| && 0 <= j < |order| && order[i] == a && order[j] == b ==> i < j
  }

  predicate Once(order: seq<Task>) {
    forall i, j :: 0 <= i < j < |order| ==> order[i] != order[j]
  }

  /** What has to run before what. */
  predicate InStageOrder(order: seq<Task>) {
    && Before(order, Asr, UtSeg)
    && Before(order, UtSeg, Fa) && Before(order, UtSeg, Morphosyntax) && Before(order, UtSeg, Phonetic)
    && Before(order, Utr, Fa) && Before(order, Utr, Phonetic)
    && Before(order, Fa, Phonetic)
    && Before(order, Morphosyntax, Coref) && Before(order, Morphosyntax, Translate)
  }

  lemma RequiredComesBefore(declared: seq<Task>, order: seq<Task>, a: Task, b: Task)
    requires Elems(order) == Elems(declared) && Once(order) && a in Requires(b)
    requires forall i :: 0 <= i < |order| ==> forall r :: r in Requires(order[i]) && r in declared ==> r in order[..i]
    ensures Before(order, a, b)
  {
    forall i, j | 0 <= i < |order| && 0 <= j < |order| && order[i] == a && order[j] == b
      ensures i < j
    {
      assert a in Elems(order) && a in order[..j];
      var k :| 0 <= k < j && order[..j][k] == a;
      assert order[k] == a;
    }
  }

  lemma OrderIsInStageOrder(declared: seq<Task>, order: seq<Task>)
    requires Elems(order) == Elems(declared) && Once(order)
    requires forall i :: 0 <= i < |order| ==> forall r :: r in Requires(order[i]) && r in declared ==> r in order[..i]
    ensures InStageOrder(order)
  {
    RequiredComesBefore(declared, order, Asr, UtSeg);
    RequiredComesBefore(declared, order, UtSeg, Fa);
    RequiredComesBefore(declared, order, UtSeg, Morphosyntax);
    RequiredComesBefore(declared, order, UtSeg, Phonetic);
    RequiredComesBefore(declared, order, Utr, Fa);
    RequiredComesBefore(declared, order, Utr, Phonetic);
    RequiredComesBefore(declared, order, Fa, Phonetic);
    RequiredComesBefore(declared, order, Morphosyntax, Coref);
    RequiredComesBefore(declared, order, Morphosyntax, Translate);
  }

  lemma StagePairs(declared: seq<Task>, i: nat, r: Task)
    requires InStageOrder(declared) && i < |declared| && r in Requires(declared[i])
    ensures Before(declared, r, declared[i])
  {
  }

  lemma StageOrderIsOrder(declared: seq<Task>)
    requires Once(declared) && InStageOrder(declared)
    ensures IsOrder(TaskGraph(declared), declared)
  {
    var g := TaskGraph(declared);
    forall i | 0 <= i < |declared|
      ensures Available(g, Elems(declared[..i]), declared[i])
    {
      forall r | r in Requires(declared[i]) && r in Elems(declared)
        ensures r in Elems(declared[..i])
      {
        StagePairs(declared, i, r);
        var k :| 0 <= k < |declared| && declared[k] == r;
        assert declared[..i][k] == r;
      }
    }
  }

  /** The declared tasks in the order the pipeline runs them, prerequisites first: the
      lexicographically least valid order, and the declaration itself when that is valid. */
  method PipelineOrder(declared: seq<Task>, nodes: seq<Task>, initial: seq<Task>) returns (order: seq<Task>)
    requires IsPermutation(nodes, Elems(declared)) && IsPermutation(initial, Elems(declared))
    ensures Elems(order) == Elems(declared) && Once(order)
    ensures InStageOrder(order)
    ensures Once(declared) && InStageOrder(declared) ==> order == declared
    ensures forall i :: 0 <= i < |order| ==> forall r :: r in Requires(order[i]) && r in declared ==> r in order[..i]
    ensures forall other :: IsOrder(TaskGraph(declared), other) ==> LexAtMost(TaskGraph(declared), order, other)
    ensures IsOrder(TaskGraph(declared), declared) ==> order == declared
  {
    OrdinalsDistinct(declared);
    order := TopoSortStable(TaskGraph(declared), nodes, initial);
    OrderMeaning(declared, order);
    OrderIsLeast(declared, order);
    OrderIsInStageOrder(declared, order);
    if Once(declared) && InStageOrder(declared) { StageOrderIsOrder(declared); }
  }

  // ----- Values

  type SourceId(==, !new)
  type Content(==, !new)
  type Error(==, !new)

  datatype Document = Document(sourceId: SourceId, content: Content)

  datatype BAValue =
    | Media(sourceId: SourceId)
    | MediaOutput(sourceId: SourceId)
    | Chat(doc: Document)
    | AiChat(instruction: string, doc: Document)
    | Paired(main: Document, gold: Document)
    | Metrics(sourceId: SourceId)
    | Cons(head: BAValue, tail: BAValue)
    | Nil
    | Failed(sourceId: SourceId, error: Error, partial: Option<BAValue>)

  predicate IsFailed(v: BAValue) {
    match v
    case Failed(_, _, _) => true
    case Cons(head, tail) => IsFailed(head) || IsFailed(tail)
    case _ => false
  }

  /** The CHAT documents a gate looks at, left to right; a failed value shows none. */
  function Documents(v: BAValue): seq<Document> {
    match v
    case Chat(doc) => [doc]
    case AiChat(_, doc) => [doc]
    case Paired(main, gold) => [main, gold]
    case Cons(head, tail) => Documents(head) + Documents(tail)
    case _ => []
  }

  datatype Gate = Pre | Post

  /** A progress tick is a start with counters. */
  datatype Event =
    | StageStarted(sourceId: SourceId, task: Task, completed: nat, total: nat)
    | StageInjected(sourceId: SourceId, task: Task)
    | StageFailed(sourceId: SourceId, task: Task, error: Error)
    | SourceCompleted(sourceId: SourceId)

  /** What a runner does: the value it leaves, its error, and the events it emits into the run's sink. */
  datatype Applied = Applied(value: BAValue, error: Option<Error>, events: seq<Event>)

  /** Everything a run takes from outside: the registered runners and what they do, the document
      validator, the provenance stamp, and the source id of an empty list. */
  datatype Pipeline = Pipeline(
    order: seq<Task>,
    runners: set<Task>,
    apply: (Task, BAValue) -> Applied,
    validate: (Document, Task, Gate) -> Option<Error>,
    stamp: Document -> Document,
    missingRunner: Task -> Error,
    nilSource: SourceId)

  function SourceOf(p: Pipeline, v: BAValue): SourceId {
    match v
    case Media(s) => s
    case MediaOutput(s) => s
    case Chat(doc) => doc.sourceId
    case AiChat(_, doc) => doc.sourceId
    case Paired(main, _) => main.sourceId
    case Metrics(s) => s
    case Failed(s, _, _) => s
    case Cons(head, _) => SourceOf(p, head)
    case Nil => p.nilSource
  }

  function ValidateValue(p: Pipeline, v: BAValue, task: Task, gate: Gate): Option<Error> {
    match v
    case Chat(doc) => p.validate(doc, task, gate)
    case AiChat(_, doc) => p.validate(doc, task, gate)
    case Paired(main, gold) =>
      var e := p.validate(main, task, gate);
      if e.Some? then e else p.validate(gold, task, gate)
    case Cons(head, tail) =>
      var e := ValidateValue(p, head, task, gate);
      if e.Some? then e else ValidateValue(p, tail, task, gate)
    case _ => None
  }

  /** `e` is what the first of `docs` that does not validate reports, or none when all do. */
  ghost predicate Reports(p: Pipeline, docs: seq<Document>, task: Task, gate: Gate, e: Option<Error>) {
    if e == None then forall i :: 0 <= i < |docs| ==> p.validate(docs[i], task, gate) == None
    else exists i :: ReportedBy(p, docs, task, gate, e, i)
  }

  ghost predicate ReportedBy(p: Pipeline, docs: seq<Document>, task: Task, gate: Gate, e: Option<Error>, i: int) {
    0 <= i < |docs| && p.validate(docs[i], task, gate) == e && forall j :: 0 <= j < i ==>
      p.validate(docs[j], task, gate) == None
  }

  lemma ReportsConcat(p: Pipeline, a: seq<Document>, b: seq<Document>, task: Task, gate: Gate, ea: Option<Error>,
                      eb: Option<Error>)
    requires Reports(p, a, task, gate, ea) && Reports(p, b, task, gate, eb)
    ensures Reports(p, a + b, task, gate, if ea.Some? then ea else eb)
  {
    if ea.Some? {
      var i :| ReportedBy(p, a, task, gate, ea, i);
      assert ReportedBy(p, a + b, task, gate, ea, i);
    } else if eb.Some? {
      var i :| ReportedBy(p, b, task, gate, eb, i);
      assert ReportedBy(p, a + b, task, gate, eb, |a| + i);
    }
  }

  lemma ReportsOne(p: Pipeline, d: Document, task: Task, gate: Gate)
    ensures Reports(p, [d], task, gate, p.validate(d, task, gate))
  {
    assert p.validate(d, task, gate).Some? ==> ReportedBy(p, [d], task, gate, p.validate(d, task, gate), 0);
  }

  /** A gate reports the first document, from the left, that does not validate, and passes exactly when
      there is none. */
  lemma {:induction false} GateReportsFirstInvalid(p: Pipeline, v: BAValue, task: Task, gate: Gate)
    ensures Reports(p, Documents(v), task, gate, ValidateValue(p, v, task, gate))
  {
    match v
    case Chat(doc) => ReportsOne(p, doc, task, gate);
    case AiChat(_, doc) => ReportsOne(p, doc, task, gate);
    case Paired(main, gold) =>
      ReportsOne(p, main, task, gate);
      ReportsOne(p, gold, task, gate);
      ReportsConcat(p, [main], [gold], task, gate, p.validate(main, task, gate), p.validate(gold, task, gate));
      assert [main] + [gold] == [main, gold];
    case Cons(head, tail) =>
      GateReportsFirstInvalid(p, head, task, gate);
      GateReportsFirstInvalid(p, tail, task, gate);
      ReportsConcat(p, Documents(head), Documents(tail), task, gate, ValidateValue(p, head, task, gate),
                    ValidateValue(p, tail, task, gate));
    case _ =>
  }

  // ----- One run

  class Sink {
    var events: seq<Event>

    method Emit(e: Event)
      modifies this
      ensures events == old(events) + [e]
    {
      events := events + [e];
    }
  }

  /** One stage: the value it leaves, and the events it and its runner emit. */
  function Step(p: Pipeline, task: Task, v: BAValue): (BAValue, seq<Event>) {
    var s := SourceOf(p, v);
    var started := StageStarted(s, task, 0, 0);
    if task !in p.runners then (Failed(s, p.missingRunner(task), Some(v)), [started])
    else
      match ValidateValue(p, v, task, Pre)
      case Some(e) => (Failed(s, e, Some(v)), [started, StageFailed(s, task, e)])
      case None =>
        var a := p.apply(task, v);
        match a.error
        case Some(e) => (Failed(s, e, Some(a.value)), [started] + a.events + [StageFailed(s, task, e)])
        case None =>
          match ValidateValue(p, a.value, task, Post)
          case Some(e) => (Failed(s, e, Some(a.value)), [started] + a.events + [StageFailed(s, task, e)])
          case None => (a.value, [started] + a.events + [StageInjected(s, task)])
  }

  function StampChats(p: Pipeline, v: BAValue): BAValue {
    match v
    case Chat(doc) => Chat(p.stamp(doc))
    case AiChat(instruction, doc) => AiChat(instruction, p.stamp(doc))
    case Cons(head, tail) => Cons(StampChats(p, head), StampChats(p, tail))
    case _ => v
  }

  /** What is at the end of a path through a list: left is false, right is true. */
  function Leaf(v: BAValue, path: seq<bool>): Option<BAValue> {
    if v.Cons? then
      if path == [] then None else Leaf(if path[0] then v.tail else v.head, path[1..])
    else if path == [] then Some(v) else None
  }

  /** The part at the end of the path has failed. */
  ghost predicate FailedAt(v: BAValue, path: seq<bool>) {
    var part := Leaf(v, path);
    part.Some? && part.value.Failed?
  }

  /** The part at the end of the path holds the document. */
  ghost predicate HoldsAt(v: BAValue, path: seq<bool>, d: Document) {
    match Leaf(v, path)
    case Some(Chat(doc)) => d == doc
    case Some(AiChat(_, doc)) => d == doc
    case Some(Paired(main, gold)) => d == main || d == gold
    case _ => false
  }

  lemma {:induction false} FailedIsReached(v: BAValue, path: seq<bool>)
    requires FailedAt(v, path)
    ensures IsFailed(v)
    decreases v
  {
    if v.Cons? { FailedIsReached(if path[0] then v.tail else v.head, path[1..]); }
  }

  lemma {:induction false} HeldIsReached(v: BAValue, path: seq<bool>, d: Document)
    requires HoldsAt(v, path, d)
    ensures d in Documents(v)
    decreases v
  {
    if v.Cons? { HeldIsReached(if path[0] then v.tail else v.head, path[1..], d); }
  }

  /** Down the list by one step. */
  lemma LeafBelow(v: BAValue, right: bool, path: seq<bool>)
    requires v.Cons?
    ensures Leaf(v, [right] + path) == Leaf(if right then v.tail else v.head, path)
  {
    assert ([right] + path)[1..] == path;
  }

  lemma {:induction false} FailedPath(v: BAValue) returns (path: seq<bool>)
    requires IsFailed(v)
    ensures FailedAt(v, path)
    decreases v
  {
    path := [];
    if v.Cons? {
      var right := !IsFailed(v.head);
      var rest := FailedPath(if right then v.tail else v.head);
      LeafBelow(v, right, rest);
      path := [right] + rest;
    }
  }

  lemma {:induction false} HeldPath(v: BAValue, d: Document) returns (path: seq<bool>)
    requires d in Documents(v)
    ensures HoldsAt(v, path, d)
    decreases v
  {
    path := [];
    if v.Cons? {
      var right := d !in Documents(v.head);
      var rest := HeldPath(if right then v.tail else v.head, d);
      LeafBelow(v, right, rest);
      path := [right] + rest;
    }
  }

  /** A value has failed exactly when some part of it has, and shows a gate exactly the documents its parts hold. */
  lemma PartsDecide(v: BAValue, d: Document)
    ensures IsFailed(v) <==> exists path :: FailedAt(v, path)
    ensures d in Documents(v) <==> exists path :: HoldsAt(v, path, d)
  {
    if IsFailed(v) {
      var path := FailedPath(v);
      assert FailedAt(v, path);
    }
    forall path | FailedAt(v, path)
      ensures IsFailed(v)
    {
      FailedIsReached(v, path);
    }
    if d in Documents(v) {
      var path := HeldPath(v, d);
      assert HoldsAt(v, path, d);
    }
    forall path | HoldsAt(v, path, d)
      ensures d in Documents(v)
    {
      HeldIsReached(v, path, d);
    }
  }

  /** A transcript, or an AI request with its transcript, carries the stamp; anything else is untouched. */
  predicate LeafStamped(p: Pipeline, was: Option<BAValue>, now: Option<BAValue>) {
    match was
    case Some(Chat(doc)) => now == Some(Chat(p.stamp(doc)))
    case Some(AiChat(instruction, doc)) => now == Some(AiChat(instruction, p.stamp(doc)))
    case _ => now == was
  }

  /** The same list as `v`, with exactly its transcripts stamped. */
  ghost predicate IsStamped(p: Pipeline, v: BAValue, w: BAValue) {
    forall path :: LeafStamped(p, Leaf(v, path), Leaf(w, path))
  }

  lemma {:induction false} StampReachesLeaf(p: Pipeline, v: BAValue, path: seq<bool>)
    ensures LeafStamped(p, Leaf(v, path), Leaf(StampChats(p, v), path))
    decreases v
  {
    if v.Cons? && path != [] { StampReachesLeaf(p, if path[0] then v.tail else v.head, path[1..]); }
  }

  ghost predicate SameLeaf(v: BAValue, w: BAValue, path: seq<bool>) {
    Leaf(v, path) == Leaf(w, path)
  }

  lemma {:induction false} LeavesDetermine(v: BAValue, w: BAValue)
    requires forall path :: SameLeaf(v, w, path)
    ensures v == w
    decreases v
  {
    assert SameLeaf(v, w, []);
    if v.Cons? {
      forall path
        ensures SameLeaf(v.head, w.head, path) && SameLeaf(v.tail, w.tail, path)
      {
        assert SameLeaf(v, w, [false] + path) && SameLeaf(v, w, [true] + path);
        assert ([false] + path)[1..] == path && ([true] + path)[1..] == path;
      }
      LeavesDetermine(v.head, w.head);
      LeavesDetermine(v.tail, w.tail);
    }
  }

  /** Stamping reaches every transcript of a list and nothing else, and only its result is like that. */
  lemma StampIsExact(p: Pipeline, v: BAValue)
    ensures forall w :: IsStamped(p, v, w) <==> w == StampChats(p, v)
  {
    forall path
      ensures LeafStamped(p, Leaf(v, path), Leaf(StampChats(p, v), path))
    {
      StampReachesLeaf(p, v, path);
    }
    forall w | IsStamped(p, v, w)
      ensures w == StampChats(p, v)
    {
      forall path
        ensures SameLeaf(w, StampChats(p, v), path)
      {
        assert LeafStamped(p, Leaf(v, path), Leaf(w, path));
      }
      LeavesDetermine(w, StampChats(p, v));
    }
  }

  /** The leftmost part of a list. */
  function Leftmost(v: BAValue): (first: BAValue)
    ensures !first.Cons?
  {
    if v.Cons? then Leftmost(v.head) else v
  }

  /** A value's source is that of its leftmost part: of the first transcript where that holds transcripts. */
  lemma {:induction false} SourceIsLeftmost(p: Pipeline, v: BAValue)
    ensures var first := Leftmost(v);
            if first.Chat? || first.AiChat? || first.Paired? then
              |Documents(v)| > 0 && SourceOf(p, v) == Documents(v)[0].sourceId
            else SourceOf(p, v) == if first.Nil? then p.nilSource else first.sourceId
  {
    if v.Cons? { SourceIsLeftmost(p, v.head); }
  }

  // ----- What a stage does, without naming its steps

  /** The runner is there and reports no error, every transcript before and after it validates, and `w` is
      what it left. */
  ghost predicate Passes(p: Pipeline, task: Task, v: BAValue, w: BAValue) {
    && task in p.runners
    && (forall i :: 0 <= i < |Documents(v)| ==> p.validate(Documents(v)[i], task, Pre) == None)
    && p.apply(task, v).error == None && w == p.apply(task, v).value
    && (forall i :: 0 <= i < |Documents(w)| ==> p.validate(Documents(w)[i], task, Post) == None)
  }

  /** `w` carries the source, the error and what there was when the stage failed: the value it was given
      when no runner is there or an incoming transcript is refused, what the runner left otherwise. */
  ghost predicate Fails(p: Pipeline, task: Task, v: BAValue, w: BAValue) {
    && w.Failed? && w.sourceId == SourceOf(p, v)
    && if task !in p.runners then w.error == p.missingRunner(task) && w.partial == Some(v)
       else if !Reports(p, Documents(v), task, Pre, None) then
         Reports(p, Documents(v), task, Pre, Some(w.error)) && w.partial == Some(v)
       else
         var left := p.apply(task, v);
         && w.partial == Some(left.value)
         && if left.error != None then left.error == Some(w.error)
            else Reports(p, Documents(left.value), task, Post, Some(w.error))
  }

  /** The stage's own start and closing event around what its runner emitted; no closing event without a
      runner. */
  ghost predicate Emits(p: Pipeline, task: Task, v: BAValue, w: BAValue, block: seq<Event>) {
    var s := SourceOf(p, v);
    var start := [StageStarted(s, task, 0, 0)];
    if task !in p.runners then block == start
    else if !Reports(p, Documents(v), task, Pre, None) then w.Failed? &&
      block == start + [StageFailed(s, task, w.error)]
    else if Passes(p, task, v, w) then block == start + p.apply(task, v).events + [StageInjected(s, task)]
    else w.Failed? && block == start + p.apply(task, v).events + [StageFailed(s, task, w.error)]
  }

  lemma ReportsOnce(p: Pipeline, docs: seq<Document>, task: Task, gate: Gate, e: Option<Error>, e': Option<Error>)
    requires Reports(p, docs, task, gate, e) && Reports(p, docs, task, gate, e')
    ensures e == e'
  {
    if e.Some? && e'.Some? {
      var i :| ReportedBy(p, docs, task, gate, e, i);
      var j :| ReportedBy(p, docs, task, gate, e', j);
      assert i == j;
    }
  }

  lemma GateIs(p: Pipeline, v: BAValue, task: Task, gate: Gate)
    ensures forall e :: Reports(p, Documents(v), task, gate, e) <==> e == ValidateValue(p, v, task, gate)
  {
    GateReportsFirstInvalid(p, v, task, gate);
    forall e | Reports(p, Documents(v), task, gate, e)
      ensures e == ValidateValue(p, v, task, gate)
    {
      ReportsOnce(p, Documents(v), task, gate, e, ValidateValue(p, v, task, gate));
    }
  }

  lemma StepIs(p: Pipeline, task: Task, v: BAValue)
    ensures forall w :: Passes(p, task, v, w) || Fails(p, task, v, w) <==> w == Step(p, task, v).0
    ensures !(exists w :: Passes(p, task, v, w) && Fails(p, task, v, w))
  {
    GateIs(p, v, task, Pre);
    GateIs(p, p.apply(task, v).value, task, Post);
    assert Reports(p, Documents(v), task, Pre, None) <==>
      forall i :: 0 <= i < |Documents(v)| ==> p.validate(Documents(v)[i], task, Pre) == None;
    var w' := p.apply(task, v).value;
    assert Reports(p, Documents(w'), task, Post, None) <==>
      forall i :: 0 <= i < |Documents(w')| ==> p.validate(Documents(w')[i], task, Post) == None;
  }

  /** The stage passes or fails, and says so in its events. */
  ghost predicate IsStep(p: Pipeline, task: Task, v: BAValue, w: BAValue, block: seq<Event>) {
    (Passes(p, task, v, w) || Fails(p, task, v, w)) && Emits(p, task, v, w, block)
  }

  lemma StepEmits(p: Pipeline, task: Task, v: BAValue)
    ensures Emits(p, task, v, Step(p, task, v).0, Step(p, task, v).1)
  {
    StepIs(p, task, v);
    GateIs(p, v, task, Pre);
  }

  /** The stages from `i` on, and what follows the last one. */
  function RunFrom(p: Pipeline, i: nat, v: BAValue): (BAValue, seq<Event>)
    requires i <= |p.order|
    decreases |p.order| - i
  {
    if i == |p.order| then
      var stamped := if IsFailed(v) then v else StampChats(p, v);
      (stamped, [SourceCompleted(SourceOf(p, stamped))])
    else if IsFailed(v) then (v, [])
    else
      var (v', events) := Step(p, p.order[i], v);
      var (result, rest) := RunFrom(p, i + 1, v');
      (result, events + rest)
  }

  method TryStep(p: Pipeline, task: Task, v: BAValue, sink: Sink) returns (result: BAValue)
    modifies sink
    ensures result == Step(p, task, v).0
    ensures sink.events == old(sink.events) + Step(p, task, v).1
    ensures IsStep(p, task, v, result, Step(p, task, v).1)
  {
    StepIs(p, task, v);
    StepEmits(p, task, v);
    var sourceId := SourceOf(p, v);
    sink.Emit(StageStarted(sourceId, task, 0, 0));
    if task !in p.runners {
      return Failed(sourceId, p.missingRunner(task), Some(v));
    }
    var pre := ValidateValue(p, v, task, Pre);
    if pre.Some? {
      sink.Emit(StageFailed(sourceId, task, pre.value));
      return Failed(sourceId, pre.value, Some(v));
    }
    var applied := ApplyRunner(p, task, v, sink);
    if applied.error.Some? {
      sink.Emit(StageFailed(sourceId, task, applied.error.value));
      return Failed(sourceId, applied.error.value, Some(applied.value));
    }
    var post := ValidateValue(p, applied.value, task, Post);
    if post.Some? {
      sink.Emit(StageFailed(sourceId, task, post.value));
      return Failed(sourceId, post.value, Some(applied.value));
    }
    sink.Emit(StageInjected(sourceId, task));
    return applied.value;
  }

  /** The runner writes to the run's own sink. */
  method ApplyRunner(p: Pipeline, task: Task, v: BAValue, sink: Sink) returns (applied: Applied)
    modifies sink
    ensures applied == p.apply(task, v) && sink.events == old(sink.events) + applied.events
  {
    applied := p.apply(task, v);
    assert applied.events[..0] == [];
    for k := 0 to |applied.events|
      invariant sink.events == old(sink.events) + applied.events[..k]
    {
      sink.Emit(applied.events[k]);
    }
    assert applied.events[..|applied.events|] == applied.events;
  }

  lemma RunStep(p: Pipeline, i: nat, v: BAValue, emitted: seq<Event>)
    requires i < |p.order| && !IsFailed(v)
    ensures var (v', events) := Step(p, p.order[i], v);
            RunFrom(p, i, v).0 == RunFrom(p, i + 1, v').0 &&
            emitted + RunFrom(p, i, v).1 == (emitted + events) + RunFrom(p, i + 1, v').1
  {
  }

  lemma RunEnds(p: Pipeline, i: nat, v: BAValue)
    requires i <= |p.order| && (i == |p.order| || IsFailed(v))
    ensures var (result, events) := RunFrom(p, i, v);
            && result == (if IsFailed(v) then v else StampChats(p, v))
            && events == if i == |p.order| then [SourceCompleted(SourceOf(p, result))] else []
  {
  }

  /** With `emitted` behind it and `v` before stage `i`, a run will have left `all`. */
  ghost predicate Running(p: Pipeline, all: (BAValue, seq<Event>), i: nat, v: BAValue, emitted: seq<Event>) {
    i <= |p.order| && all == (RunFrom(p, i, v).0, emitted + RunFrom(p, i, v).1)
  }

  lemma RunningNext(p: Pipeline, all: (BAValue, seq<Event>), i: nat, v: BAValue, emitted: seq<Event>)
    requires Running(p, all, i, v, emitted) && i < |p.order| && !IsFailed(v)
    ensures var (v', events) := Step(p, p.order[i], v); Running(p, all, i + 1, v', emitted + events)
  {
    RunStep(p, i, v, emitted);
  }

  lemma RunningStops(p: Pipeline, all: (BAValue, seq<Event>), i: nat, v: BAValue, emitted: seq<Event>)
    requires Running(p, all, i, v, emitted) && (i == |p.order| || IsFailed(v))
    ensures var result := if IsFailed(v) then v else StampChats(p, v);
            all == (result, if i == |p.order| then emitted + [SourceCompleted(SourceOf(p, result))] else emitted)
  {
    RunEnds(p, i, v);
    assert emitted + [] == emitted;
  }

  method RunOne(p: Pipeline, input: BAValue, sink: Sink) returns (value: BAValue)
    modifies sink
    ensures value == RunFrom(p, 0, input).0
    ensures sink.events == old(sink.events) + RunFrom(p, 0, input).1
    ensures IsRun(p, input, value, RunFrom(p, 0, input).1)
  {
    RunSucceedsExactlyWhen(p, input);
    value := input;
    ghost var all := (RunFrom(p, 0, input).0, sink.events + RunFrom(p, 0, input).1);
    for i := 0 to |p.order|
      invariant Running(p, all, i, value, sink.events)
    {
      if IsFailed(value) {
        RunningStops(p, all, i, value, sink.events);
        return;
      }
      RunningNext(p, all, i, value, sink.events);
      value := TryStep(p, p.order[i], value, sink);
    }
    RunningStops(p, all, |p.order|, value, sink.events);
    if !IsFailed(value) {
      value := StampChats(p, value);
    }
    sink.Emit(SourceCompleted(SourceOf(p, value)));
  }

  // ----- What a run's trace looks like

  /** The value after the first `k` stages; a failed one goes through untouched. */
  function ValueAfter(p: Pipeline, input: BAValue, k: nat): BAValue
    requires k <= |p.order|
  {
    if k == 0 then input
    else
      var v := ValueAfter(p, input, k - 1);
      if IsFailed(v) then v else Step(p, p.order[k - 1], v).0
  }

  function Flat(blocks: seq<seq<Event>>): seq<Event> {
    if |blocks| == 0 then [] else Flat(blocks[..|blocks| - 1]) + blocks[|blocks| - 1]
  }

  /** Stage `k` is entered, with a value that has not failed, and emits the block. */
  ghost predicate IsStage(p: Pipeline, input: BAValue, k: nat, block: seq<Event>)
    requires k < |p.order|
  {
    var v := ValueAfter(p, input, k);
    !IsFailed(v) && block == Step(p, p.order[k], v).1
  }

  /** What the first |blocks| stages emitted. */
  ghost predicate AreStages(p: Pipeline, input: BAValue, blocks: seq<seq<Event>>) {
    |blocks| <= |p.order| && forall k :: 0 <= k < |blocks| ==> IsStage(p, input, k, blocks[k])
  }

  /** The run entered these stages and no others, and then reported completion exactly when they are all. */
  ghost predicate IsRunOf(p: Pipeline, input: BAValue, blocks: seq<seq<Event>>)
    requires AreStages(p, input, blocks)
  {
    var (result, events) := RunFrom(p, 0, input);
    var last := ValueAfter(p, input, |blocks|);
    && (|blocks| < |p.order| ==> IsFailed(last))
    && result == (if IsFailed(last) then last else StampChats(p, last))
    && events == Flat(blocks) + if |blocks| == |p.order| then [SourceCompleted(SourceOf(p, result))] else []
  }

  lemma FlatSnoc(blocks: seq<seq<Event>>, block: seq<Event>)
    ensures Flat(blocks + [block]) == Flat(blocks) + block
  {
    assert (blocks + [block])[..|blocks|] == blocks;
  }

  /** After `i` stages the run stands at `v` and has emitted the blocks. */
  ghost predicate Entered(p: Pipeline, input: BAValue, i: nat, v: BAValue, blocks: seq<seq<Event>>) {
    && i <= |p.order| && |blocks| == i && v == ValueAfter(p, input, i) && AreStages(p, input, blocks)
    && Running(p, RunFrom(p, 0, input), i, v, Flat(blocks))
  }

  lemma EnterNext(p: Pipeline, input: BAValue, i: nat, v: BAValue, blocks: seq<seq<Event>>)
    requires Entered(p, input, i, v, blocks) && i < |p.order| && !IsFailed(v)
    ensures var (v', block) := Step(p, p.order[i], v); Entered(p, input, i + 1, v', blocks + [block])
  {
    var (v', block) := Step(p, p.order[i], v);
    RunningNext(p, RunFrom(p, 0, input), i, v, Flat(blocks));
    FlatSnoc(blocks, block);
    StagesSnoc(p, input, blocks);
  }

  lemma StagesSnoc(p: Pipeline, input: BAValue, blocks: seq<seq<Event>>)
    requires AreStages(p, input, blocks) && |blocks| < |p.order| && !IsFailed(ValueAfter(p, input, |blocks|))
    ensures AreStages(p, input, blocks + [Step(p, p.order[|blocks|], ValueAfter(p, input, |blocks|)).1])
  {
    assert IsStage(p, input, |blocks|, Step(p, p.order[|blocks|], ValueAfter(p, input, |blocks|)).1);
  }

  /** Every run, whatever its runners do, is a block of events for each stage it enters. */
  lemma RunInBlocks(p: Pipeline, input: BAValue) returns (blocks: seq<seq<Event>>)
    ensures AreStages(p, input, blocks) && IsRunOf(p, input, blocks)
  {
    blocks := [];
    var i, v := 0, input;
    assert Flat(blocks) + RunFrom(p, 0, input).1 == RunFrom(p, 0, input).1;
    while i < |p.order| && !IsFailed(v)
      invariant Entered(p, input, i, v, blocks)
    {
      EnterNext(p, input, i, v, blocks);
      blocks := blocks + [Step(p, p.order[i], v).1];
      v := Step(p, p.order[i], v).0;
      i := i + 1;
    }
    RunningStops(p, RunFrom(p, 0, input), i, v, Flat(blocks));
    if i < |p.order| { assert Flat(blocks) + [] == Flat(blocks); }
  }

  /** A runner reports starts, ticks and injections of its own stage. */
  predicate OfRunner(e: Event, task: Task) {
    (e.StageStarted? || e.StageInjected?) && e.task == task
  }

  /** What the canonical runners keep to. On a value that has already failed they may do anything. */
  ghost predicate Canonical(p: Pipeline) {
    && (forall t :: t in p.order ==> t in p.runners)
    && (forall t, v, e :: t in p.order && !IsFailed(v) && e in p.apply(t, v).events ==> OfRunner(e, t))
    && (forall t, v :: t in p.order && !IsFailed(v) && p.apply(t, v).error == None ==> !IsFailed(p.apply(t, v).value))
  }

  /** The stage's own start, the runner's events, and one closing event, with the stage's source. */
  ghost predicate IsBlock(block: seq<Event>, source: SourceId, task: Task, passed: bool) {
    && |block| >= 2 && block[0] == StageStarted(source, task, 0, 0)
    && (forall k :: 0 < k < |block| - 1 ==> OfRunner(block[k], task))
    && var close := block[|block| - 1];
       close.sourceId == source && !close.SourceCompleted? && close.task == task &&
       if passed then close.StageInjected? else close.StageFailed?
  }

  lemma Enclosed(source: SourceId, task: Task, inner: seq<Event>, close: Event)
    requires forall e :: e in inner ==> OfRunner(e, task)
    requires (close.StageInjected? || close.StageFailed?) && close.task == task && close.sourceId == source
    ensures var block := [StageStarted(source, task, 0, 0)] + inner + [close];
            IsBlock(block, source, task, close.StageInjected?) && block[|block| - 1] == close
  {
    var block := [StageStarted(source, task, 0, 0)] + inner + [close];
    forall k | 0 < k < |block| - 1
      ensures OfRunner(block[k], task)
    {
      assert block[k] == inner[k - 1] && inner[k - 1] in inner;
    }
  }

  lemma StepIsBlock(p: Pipeline, task: Task, v: BAValue)
    requires Canonical(p) && task in p.order && !IsFailed(v)
    ensures var (v', block) := Step(p, task, v);
            && IsBlock(block, SourceOf(p, v), task, !IsFailed(v'))
            && (IsFailed(v') ==> FailsWith(v', task, block))
  {
    var (v', block) := Step(p, task, v);
    var inner := if ValidateValue(p, v, task, Pre).Some? then [] else p.apply(task, v).events;
    var close := block[|block| - 1];
    assert block == [StageStarted(SourceOf(p, v), task, 0, 0)] + inner + [close];
    Enclosed(SourceOf(p, v), task, inner, close);
  }

  /** The value is the failure that the block's closing event reports. */
  ghost predicate FailsWith(v: BAValue, task: Task, block: seq<Event>) {
    v.Failed? && |block| > 0 && block[|block| - 1] == StageFailed(v.sourceId, task, v.error)
  }

  /** Block `k` is that of stage `k`; only the last one can be that of a failed stage. */
  ghost predicate HasBlock(p: Pipeline, input: BAValue, blocks: seq<seq<Event>>, k: nat, failed: bool) {
    k < |blocks| && k < |p.order| &&
    IsBlock(blocks[k], SourceOf(p, ValueAfter(p, input, k)), p.order[k], k < |blocks| - 1 || !failed)
  }

  /** Every run from an input that has not failed: a prefix of the stages, each a block that starts with
      the stage's own start and closes last; all blocks but the last close as injected, and the last one
      closes as failed exactly when the outcome is failed, with the outcome's source and error; after the
      last block comes nothing but the completion, exactly when every stage was entered. */
  lemma RunTrace(p: Pipeline, input: BAValue) returns (blocks: seq<seq<Event>>)
    requires Canonical(p) && !IsFailed(input)
    ensures AreStages(p, input, blocks) && IsRunOf(p, input, blocks)
    ensures var result := RunFrom(p, 0, input).0;
            && (forall k :: 0 <= k < |blocks| ==> HasBlock(p, input, blocks, k, IsFailed(result)))
            && (IsFailed(result) ==> |blocks| > 0 && FailsWith(result, p.order[|blocks| - 1], blocks[|blocks| - 1]))
  {
    blocks := RunInBlocks(p, input);
    var last, failed := |blocks| - 1, IsFailed(ValueAfter(p, input, |blocks|));
    StampKeepsFailed(p, ValueAfter(p, input, |blocks|));
    forall k | 0 <= k < |blocks|
      ensures HasBlock(p, input, blocks, k, failed)
    {
      if k < last { InnerBlock(p, input, blocks, k, failed); } else { LastBlock(p, input, blocks); }
    }
    if |blocks| > 0 { LastBlock(p, input, blocks); }
  }

  lemma InnerBlock(p: Pipeline, input: BAValue, blocks: seq<seq<Event>>, k: nat, failed: bool)
    requires Canonical(p) && AreStages(p, input, blocks) && k < |blocks| - 1
    ensures HasBlock(p, input, blocks, k, failed)
  {
    assert IsStage(p, input, k, blocks[k]) && IsStage(p, input, k + 1, blocks[k + 1]);
    StepIsBlock(p, p.order[k], ValueAfter(p, input, k));
  }

  lemma LastBlock(p: Pipeline, input: BAValue, blocks: seq<seq<Event>>)
    requires Canonical(p) && AreStages(p, input, blocks) && |blocks| > 0
    ensures var last, v := |blocks| - 1, ValueAfter(p, input, |blocks|);
            && HasBlock(p, input, blocks, last, IsFailed(v))
            && (IsFailed(v) ==> FailsWith(v, p.order[last], blocks[last]))
  {
    var last := |blocks| - 1;
    assert IsStage(p, input, last, blocks[last]);
    StepIsBlock(p, p.order[last], ValueAfter(p, input, last));
  }

  lemma {:induction false} StampKeepsFailed(p: Pipeline, v: BAValue)
    ensures IsFailed(StampChats(p, v)) == IsFailed(v)
  {
    if v.Cons? {
      StampKeepsFailed(p, v.head);
      StampKeepsFailed(p, v.tail);
    }
  }

  // ----- What a run leaves, without naming how it is computed

  /** The value after each stage that was entered, from the input on: no entered value has failed, each
      stage passes or fails, and the run ends with the last stage or with a failed value. */
  ghost predicate AreValues(p: Pipeline, input: BAValue, values: seq<BAValue>) {
    && 0 < |values| <= |p.order| + 1 && values[0] == input
    && (forall k :: 0 <= k < |values| - 1 ==> Enters(p, values, k))
    && (|values| == |p.order| + 1 || IsFailed(values[|values| - 1]))
  }

  ghost predicate Enters(p: Pipeline, values: seq<BAValue>, k: nat)
    requires k < |values| - 1 && k < |p.order|
  {
    && !IsFailed(values[k])
    && (Passes(p, p.order[k], values[k], values[k + 1]) || Fails(p, p.order[k], values[k], values[k + 1]))
  }

  /** The last value as it is if it has failed, otherwise with exactly its transcripts stamped. */
  ghost predicate IsOutcome(p: Pipeline, last: BAValue, outcome: BAValue) {
    if IsFailed(last) then outcome == last else IsStamped(p, last, outcome)
  }

  /** Every stage was entered with a value that had not failed, and passed. */
  ghost predicate AllPass(p: Pipeline, input: BAValue, values: seq<BAValue>) {
    && |values| == |p.order| + 1 && values[0] == input && !IsFailed(values[|p.order|])
    && forall k :: 0 <= k < |p.order| ==> !IsFailed(values[k]) && Passes(p, p.order[k], values[k], values[k + 1])
  }

  lemma {:induction false} ValuesAre(p: Pipeline, input: BAValue, values: seq<BAValue>, k: nat)
    requires AreValues(p, input, values) && k < |values|
    ensures values[k] == ValueAfter(p, input, k)
    decreases k
  {
    if k > 0 {
      ValuesAre(p, input, values, k - 1);
      assert Enters(p, values, k - 1);
      StepIs(p, p.order[k - 1], values[k - 1]);
    }
  }

  lemma ValuesOf(p: Pipeline, input: BAValue, blocks: seq<seq<Event>>) returns (values: seq<BAValue>)
    requires AreStages(p, input, blocks) && (|blocks| < |p.order| ==> IsFailed(ValueAfter(p, input, |blocks|)))
    ensures AreValues(p, input, values) && |values| == |blocks| + 1
    ensures forall k :: 0 <= k < |values| ==> values[k] == ValueAfter(p, input, k)
  {
    values := seq(|blocks| + 1, k requires 0 <= k <= |p.order| => ValueAfter(p, input, k));
    forall k | 0 <= k < |values| - 1
      ensures Enters(p, values, k)
    {
      assert IsStage(p, input, k, blocks[k]);
      StepIs(p, p.order[k], values[k]);
    }
  }

  lemma NotShorter(p: Pipeline, input: BAValue, a: seq<BAValue>, b: seq<BAValue>)
    requires AreValues(p, input, a) && AreValues(p, input, b)
    ensures |a| >= |b|
  {
    if |a| < |b| {
      assert Enters(p, b, |a| - 1);
      ValuesAre(p, input, b, |a| - 1);
      ValuesAre(p, input, a, |a| - 1);
    }
  }

  /** Each entered stage emitted its block, and completion follows when every stage was entered. */
  ghost predicate IsTrace(p: Pipeline, values: seq<BAValue>, blocks: seq<seq<Event>>, outcome: BAValue,
                          events: seq<Event>) {
    && |values| == |blocks| + 1 && |blocks| <= |p.order|
    && (forall k :: 0 <= k < |blocks| ==> Emits(p, p.order[k], values[k], values[k + 1], blocks[k]))
    && events == Flat(blocks) + if |blocks| == |p.order| then [SourceCompleted(SourceOf(p, outcome))] else []
  }

  lemma BlocksEmitted(p: Pipeline, input: BAValue, values: seq<BAValue>, blocks: seq<seq<Event>>)
    requires AreStages(p, input, blocks) && |values| == |blocks| + 1
    requires forall k :: 0 <= k < |values| ==> values[k] == ValueAfter(p, input, k)
    ensures forall k :: 0 <= k < |blocks| ==> Emits(p, p.order[k], values[k], values[k + 1], blocks[k])
  {
    forall k | 0 <= k < |blocks|
      ensures Emits(p, p.order[k], values[k], values[k + 1], blocks[k])
    {
      assert IsStage(p, input, k, blocks[k]);
      StepEmits(p, p.order[k], values[k]);
    }
  }

  ghost predicate IsHistory(p: Pipeline, input: BAValue, values: seq<BAValue>, blocks: seq<seq<Event>>,
                            outcome: BAValue, events: seq<Event>) {
    AreValues(p, input, values) && IsTrace(p, values, blocks, outcome, events)
  }

  ghost predicate Leaves(p: Pipeline, input: BAValue, outcome: BAValue, events: seq<Event>) {
    && (exists values, blocks :: IsHistory(p, input, values, blocks, outcome, events))
    && (forall values :: AreValues(p, input, values) ==> IsOutcome(p, values[|values| - 1], outcome))
  }

  /** The outcome is the value after `n` stages, stamped if it has not failed. */
  ghost predicate EndsOn(p: Pipeline, input: BAValue, n: int, outcome: BAValue) {
    0 <= n <= |p.order| &&
    var last := ValueAfter(p, input, n);
    outcome == if IsFailed(last) then last else StampChats(p, last)
  }

  lemma {:induction false} ValuesLeadTo(p: Pipeline, input: BAValue, found: seq<BAValue>, values: seq<BAValue>,
                                        outcome: BAValue)
    requires AreValues(p, input, found) && AreValues(p, input, values) && EndsOn(p, input, |found| - 1, outcome)
    ensures IsOutcome(p, values[|values| - 1], outcome)
  {
    NotShorter(p, input, found, values);
    NotShorter(p, input, values, found);
    ValuesAre(p, input, values, |values| - 1);
    StampIsExact(p, values[|values| - 1]);
  }

  lemma TraceOf(p: Pipeline, input: BAValue, values: seq<BAValue>, blocks: seq<seq<Event>>, outcome: BAValue,
                events: seq<Event>)
    requires AreStages(p, input, blocks) && IsRunOf(p, input, blocks) && RunFrom(p, 0, input) == (outcome, events)
    requires |values| == |blocks| + 1 && forall k :: 0 <= k < |values| ==> values[k] == ValueAfter(p, input, k)
    ensures IsTrace(p, values, blocks, outcome, events) && EndsOn(p, input, |blocks|, outcome)
  {
    BlocksEmitted(p, input, values, blocks);
  }

  lemma {:induction false} RunHistory(p: Pipeline, input: BAValue, outcome: BAValue, events: seq<Event>)
    returns (values: seq<BAValue>, blocks: seq<seq<Event>>)
    requires RunFrom(p, 0, input) == (outcome, events)
    ensures AreValues(p, input, values) && IsTrace(p, values, blocks, outcome, events)
    ensures EndsOn(p, input, |values| - 1, outcome)
  {
    blocks := RunInBlocks(p, input);
    values := ValuesOf(p, input, blocks);
    TraceOf(p, input, values, blocks, outcome, events);
  }

  /** There is such a sequence of values, and any such sequence ends on what the run leaves; the events are
      those of its stages, and completion when every stage was entered. */
  lemma {:induction false} RunLeaves(p: Pipeline, input: BAValue)
    ensures Leaves(p, input, RunFrom(p, 0, input).0, RunFrom(p, 0, input).1)
  {
    var (outcome, events) := RunFrom(p, 0, input);
    var found, blocks := RunHistory(p, input, outcome, events);
    assert IsHistory(p, input, found, blocks, outcome, events);
    forall values | AreValues(p, input, values)
      ensures IsOutcome(p, values[|values| - 1], outcome)
    {
      ValuesLeadTo(p, input, found, values, outcome);
    }
  }

  lemma AllPassAreValues(p: Pipeline, input: BAValue, values: seq<BAValue>)
    requires AllPass(p, input, values)
    ensures AreValues(p, input, values)
  {
    forall k | 0 <= k < |values| - 1
      ensures Enters(p, values, k)
    {
    }
  }

  lemma UnfailedAllPass(p: Pipeline, input: BAValue, values: seq<BAValue>)
    requires AreValues(p, input, values) && !IsFailed(values[|values| - 1])
    ensures AllPass(p, input, values)
  {
    forall k | 0 <= k < |p.order|
      ensures !IsFailed(values[k]) && Passes(p, p.order[k], values[k], values[k + 1])
    {
      assert Enters(p, values, k);
      if k + 1 < |p.order| { assert Enters(p, values, k + 1); }
    }
  }

  /** A run succeeds exactly when there are values, one per stage and each what the stage's runner left of
      the one before, such that every stage passes and none has failed; it then leaves the last of them
      with exactly its transcripts stamped. */
  ghost predicate SucceedsWhenAllPass(p: Pipeline, input: BAValue, outcome: BAValue) {
    && (!IsFailed(outcome) <==> exists values :: AllPass(p, input, values))
    && (forall values :: AllPass(p, input, values) ==> IsStamped(p, values[|p.order|], outcome))
  }

  ghost predicate IsRun(p: Pipeline, input: BAValue, outcome: BAValue, events: seq<Event>) {
    Leaves(p, input, outcome, events) && SucceedsWhenAllPass(p, input, outcome)
  }

  lemma RunSucceedsExactlyWhen(p: Pipeline, input: BAValue)
    ensures IsRun(p, input, RunFrom(p, 0, input).0, RunFrom(p, 0, input).1)
  {
    RunLeaves(p, input);
    SucceedsExactlyWhen(p, input, RunFrom(p, 0, input).0, RunFrom(p, 0, input).1);
  }

  lemma SucceedsExactlyWhen(p: Pipeline, input: BAValue, outcome: BAValue, events: seq<Event>)
    requires Leaves(p, input, outcome, events)
    ensures SucceedsWhenAllPass(p, input, outcome)
  {
    var found, blocks :| IsHistory(p, input, found, blocks, outcome, events);
    OutcomeFailed(p, found[|found| - 1], outcome);
    if !IsFailed(outcome) { UnfailedAllPass(p, input, found); }
    forall values | AllPass(p, input, values)
      ensures IsStamped(p, values[|p.order|], outcome) && !IsFailed(outcome)
    {
      AllPassAreValues(p, input, values);
      OutcomeFailed(p, values[|p.order|], outcome);
    }
  }

  lemma OutcomeFailed(p: Pipeline, last: BAValue, outcome: BAValue)
    requires IsOutcome(p, last, outcome)
    ensures IsFailed(outcome) == IsFailed(last)
  {
    if !IsFailed(last) {
      StampIsExact(p, last);
      StampKeepsFailed(p, last);
    }
  }

  // ----- When completion is reported

  /** No runner reports a source as completed. */
  ghost predicate OnlyRunsComplete(p: Pipeline) {
    forall t, v, e :: t in p.order && !IsFailed(v) && e in p.apply(t, v).events ==> !e.SourceCompleted?
  }

  lemma {:induction false} NoCompletion(p: Pipeline, input: BAValue, blocks: seq<seq<Event>>)
    requires OnlyRunsComplete(p) && AreStages(p, input, blocks)
    ensures forall e :: e in Flat(blocks) ==> !e.SourceCompleted?
    decreases |blocks|
  {
    if |blocks| > 0 {
      var n := |blocks| - 1;
      NoCompletion(p, input, blocks[..n]);
      assert IsStage(p, input, n, blocks[n]);
      StepDoesNotComplete(p, p.order[n], ValueAfter(p, input, n));
    }
  }

  lemma StepDoesNotComplete(p: Pipeline, task: Task, v: BAValue)
    requires OnlyRunsComplete(p) && task in p.order && !IsFailed(v)
    ensures forall e :: e in Step(p, task, v).1 ==> !e.SourceCompleted?
  {
  }

  lemma {:induction false} FailureStays(p: Pipeline, input: BAValue, j: nat, k: nat)
    requires j <= k <= |p.order| && IsFailed(ValueAfter(p, input, j))
    ensures ValueAfter(p, input, k) == ValueAfter(p, input, j)
    decreases k
  {
    if j < k { FailureStays(p, input, j, k - 1); }
  }

  ghost predicate Completes(events: seq<Event>) {
    exists i :: 0 <= i < |events| && events[i].SourceCompleted?
  }

  lemma CompletesInTail(flat: seq<Event>, tail: seq<Event>)
    requires (forall e :: e in flat ==> !e.SourceCompleted?) &&
             (tail == [] || (|tail| == 1 && tail[0].SourceCompleted?))
    ensures Completes(flat + tail) <==> tail != []
    ensures forall i :: 0 <= i < |flat + tail| && (flat + tail)[i].SourceCompleted? ==> i == |flat + tail| - 1
  {
    forall i | 0 <= i < |flat|
      ensures !(flat + tail)[i].SourceCompleted?
    {
      assert flat[i] in flat;
    }
    if tail != [] { assert (flat + tail)[|flat|].SourceCompleted?; }
  }

  /** No stage before the final one leaves a failed value. */
  ghost predicate NoEarlyFailure(p: Pipeline, input: BAValue) {
    forall k :: 0 <= k < |p.order| ==> !IsFailed(ValueAfter(p, input, k))
  }

  lemma AllEntered(p: Pipeline, input: BAValue, blocks: seq<seq<Event>>)
    requires AreStages(p, input, blocks) && (|blocks| < |p.order| ==> IsFailed(ValueAfter(p, input, |blocks|)))
    ensures |blocks| == |p.order| <==> NoEarlyFailure(p, input)
  {
    if |blocks| == |p.order| {
      forall k | 0 <= k < |p.order|
        ensures !IsFailed(ValueAfter(p, input, k))
      {
        assert IsStage(p, input, k, blocks[k]);
      }
    }
  }

  /** Completion is reported, once and last, exactly when no stage before the final one leaves a failed
      value. What the final stage does is of no account. */
  lemma CompletionReported(p: Pipeline, input: BAValue)
    requires OnlyRunsComplete(p)
    ensures var events := RunFrom(p, 0, input).1;
            && (Completes(events) <==> NoEarlyFailure(p, input))
            && (forall i :: 0 <= i < |events| && events[i].SourceCompleted? ==> i == |events| - 1)
  {
    var blocks := RunInBlocks(p, input);
    NoCompletion(p, input, blocks);
    var (result, events) := RunFrom(p, 0, input);
    CompletesInTail(Flat(blocks), if |blocks| == |p.order| then [SourceCompleted(SourceOf(p, result))] else []);
    AllEntered(p, input, blocks);
  }

  /** A pipeline over any stages in which stage `m` fails. */
  function FailingAt(order: seq<Task>, m: nat, s: SourceId, e: Error): Pipeline
    requires m < |order|
  {
    Pipeline(order, Elems(order), (t, v) => Applied(v, if t == order[m] then Some(e) else None, []),
             (_, _, _) => None, d => d, _ => e, s)
  }

  lemma {:induction false} FailsAtStage(order: seq<Task>, m: nat, s: SourceId, e: Error, k: nat)
    requires m < |order| && k <= |order| && forall i, j :: 0 <= i < j < |order| ==> order[i] != order[j]
    ensures ValueAfter(FailingAt(order, m, s, e), Media(s), k) == if k <= m then Media(s)
            else Failed(s, e, Some(Media(s)))
    decreases k
  {
    if k > 0 { FailsAtStage(order, m, s, e, k - 1); }
  }

  /** A run whose final stage fails still reports completion, after the failure; a run that fails at any
      earlier stage does not. */
  lemma FinalFailureStillCompletes(order: seq<Task>, m: nat, s: SourceId, e: Error)
    requires m < |order| && forall i, j :: 0 <= i < j < |order| ==> order[i] != order[j]
    ensures var p := FailingAt(order, m, s, e);
            var (result, events) := RunFrom(p, 0, Media(s));
            && Canonical(p) && result == Failed(s, e, Some(Media(s)))
            && (Completes(events) <==> m == |order| - 1)
  {
    var p := FailingAt(order, m, s, e);
    forall k | 0 <= k <= |order|
      ensures ValueAfter(p, Media(s), k) == if k <= m then Media(s) else Failed(s, e, Some(Media(s)))
    {
      FailsAtStage(order, m, s, e, k);
    }
    CompletionReported(p, Media(s));
    if m < |order| - 1 { assert IsFailed(ValueAfter(p, Media(s), m + 1)); }
    var blocks := RunInBlocks(p, Media(s));
    assert IsFailed(ValueAfter(p, Media(s), |blocks|));
  }

  // ----- Outcomes in input order

  datatype Completion<+V> = Done(index: nat, value: V, callbackError: Option<Error>) | Aborted(error: Error)

  datatype Collected<+V> = Outcomes(outcomes: seq<V>) | Stopped(error: Error)

  /** A completion that does not stop the collection. */
  predicate Accepted<V>(c: Completion<V>, isFailed: V -> bool) {
    c.Done? && (isFailed(c.value) || c.callbackError == None)
  }

  /** The first completion that is not accepted, and the error it stops the collection with. */
  ghost predicate StopsAt<V>(arrivals: seq<Completion<V>>, isFailed: V -> bool, n: int, error: Error) {
    && 0 <= n < |arrivals| && !Accepted(arrivals[n], isFailed)
    && (forall i :: 0 <= i < n ==> Accepted(arrivals[i], isFailed))
    && error == if arrivals[n].Aborted? then arrivals[n].error else arrivals[n].callbackError.value
  }

  /** Completions arrive in any order, one per input; the retained outcomes come back in input order,
      and the callback sees the ones that have not failed, as they arrive. */
  method CollectOutcomes<V(0)>(total: nat, arrivals: seq<Completion<V>>, isFailed: V -> bool, retain: bool)
    returns (r: Collected<V>, called: seq<V>)
    requires |arrivals| == total
    requires forall i :: 0 <= i < total && arrivals[i].Done? ==> arrivals[i].index < total
    requires forall i, j :: 0 <= i < j < total && arrivals[i].Done? && arrivals[j].Done? ==>
             arrivals[i].index != arrivals[j].index
    ensures r.Outcomes? <==> forall i :: 0 <= i < total ==> Accepted(arrivals[i], isFailed)
    ensures r.Outcomes? && retain ==> |r.outcomes| == total && forall i :: 0 <= i < total ==>
            r.outcomes[arrivals[i].index] == arrivals[i].value
    ensures r.Outcomes? && !retain ==> r.outcomes == []
    ensures r.Outcomes? ==> called == Called(arrivals, isFailed)
    ensures r.Stopped? ==>
              exists n :: StopsAt(arrivals, isFailed, n, r.error) && called == Called(arrivals[..n + 1], isFailed)
  {
    called := [];
    var slots := new Option<V>[if retain then total else 0](_ => None);
    for n := 0 to total
      invariant forall i :: 0 <= i < n ==> Accepted(arrivals[i], isFailed)
      invariant retain ==> forall i :: 0 <= i < n ==> slots[arrivals[i].index] == Some(arrivals[i].value)
      invariant called == Called(arrivals[..n], isFailed)
    {
      var c := arrivals[n];
      assert arrivals[..n + 1][..n] == arrivals[..n];
      if c.Aborted? {
        assert StopsAt(arrivals, isFailed, n, c.error);
        return Stopped(c.error), called;
      }
      if !isFailed(c.value) {
        called := called + [c.value];
        if c.callbackError.Some? {
          assert StopsAt(arrivals, isFailed, n, c.callbackError.value);
          return Stopped(c.callbackError.value), called;
        }
      }
      if retain {
        slots[c.index] := Some(c.value);
      }
    }
    assert arrivals[..total] == arrivals;
    if retain {
      EverySlotFilled(total, arrivals);
      assert forall k :: 0 <= k < total ==> IsIndex(arrivals, k) ==> slots[k].Some?;
      r := Outcomes(seq(total, i requires 0 <= i < total && slots[i].Some? reads slots => slots[i].value));
    } else {
      r := Outcomes([]);
    }
  }

  /** The values the callback is given for these arrivals. */
  function Called<V>(arrivals: seq<Completion<V>>, isFailed: V -> bool): seq<V> {
    if |arrivals| == 0 then []
    else
      var c := arrivals[|arrivals| - 1];
      Called(arrivals[..|arrivals| - 1], isFailed) + if c.Done? && !isFailed(c.value) then [c.value] else []
  }

  /** The callback sees, of each arrival on its own and in turn, the value of one that is done and has not
      failed. */
  lemma {:induction false} CalledInTurn<V>(a: seq<Completion<V>>, b: seq<Completion<V>>, c: Completion<V>,
                                           isFailed: V -> bool)
    ensures Called(a + b, isFailed) == Called(a, isFailed) + Called(b, isFailed)
    ensures Called([c], isFailed) == if c.Done? && !isFailed(c.value) then [c.value] else []
  {
    if b == [] {
      assert a + b == a;
    } else {
      var n := |b| - 1;
      CalledInTurn(a, b[..n], c, isFailed);
      assert (a + b)[..|a| + n] == a + b[..n] && (a + b)[|a| + n] == b[n];
    }
    assert [c][..0] == [];
  }

  ghost predicate IsIndex<V>(arrivals: seq<Completion<V>>, k: nat) {
    exists i :: 0 <= i < |arrivals| && arrivals[i].Done? && arrivals[i].index == k
  }

  /** As many distinct indices below `total` as there are inputs leave no slot empty. */
  lemma EverySlotFilled<V>(total: nat, arrivals: seq<Completion<V>>)
    requires |arrivals| == total
    requires forall i :: 0 <= i < total ==> arrivals[i].Done? && arrivals[i].index < total
    requires forall i, j :: 0 <= i < j < total ==> arrivals[i].index != arrivals[j].index
    ensures forall k: nat :: k < total ==> IsIndex(arrivals, k)
  {
    var indices := Indices(arrivals);
    assert indices <= Below(total);
    SubsetOfSameSize(indices, Below(total));
    forall k: nat | k < total
      ensures IsIndex(arrivals, k)
    {
      assert k in Below(total);
    }
  }

  ghost function Indices<V>(arrivals: seq<Completion<V>>): (s: set<nat>)
    requires forall i :: 0 <= i < |arrivals| ==> arrivals[i].Done?
    requires forall i, j :: 0 <= i < j < |arrivals| ==> arrivals[i].index != arrivals[j].index
    ensures |s| == |arrivals|
    ensures forall k :: k in s ==> IsIndex(arrivals, k)
  {
    if |arrivals| == 0 then {}
    else
      var n := |arrivals| - 1;
      var rest := Indices(arrivals[..n]);
      assert forall k :: k in rest ==> IsIndex(arrivals[..n], k);
      rest + {arrivals[n].index}
  }

  ghost function Below(n: nat): (s: set<nat>)
    ensures |s| == n && forall k: nat :: k in s <==> k < n
  {
    if n == 0 then {} else Below(n - 1) + {n - 1}
  }

  lemma {:induction false} SubsetOfSameSize(a: set<nat>, b: set<nat>)
    requires a <= b && |a| == |b|
    ensures a == b
    decreases |b|
  {
    if a == {} {
      assert |b| == 0;
    } else {
      var x :| x in a;
      SubsetOfSameSize(a - {x}, b - {x});
      assert a == a - {x} + {x} && b == b - {x} + {x};
    }
  }
}
