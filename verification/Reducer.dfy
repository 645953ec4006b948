/**
 The desktop app's reducer: open batches and their tabs, the files of a batch and their stages, and the
 progress events of a running job.
 */
module Reducer {
  import opened Options

  datatype Verb = Transcribe | Diarize | Align | Morphotag | Translate | Compare

  datatype ProgressTask = Asr | Fa | Speaker | UtSeg | Morphosyntax | TranslateTask | Coref | CompareTask | OpenSmile
    | Avqi

  function VerbToTask(v: Verb): ProgressTask {
    match v
    case Transcribe => Asr
    case Diarize => Speaker
    case Align => Fa
    case Morphotag => Morphosyntax
    case Translate => TranslateTask
    case Compare => CompareTask
  }

  datatype StageState = StageQueued | StageRunning | StageDone | StageFail
  datatype FileStatus = FileQueued | FileRunning | FileDone | FileFailed
  datatype BatchState = BatchIdle | BatchRunning | BatchDone | BatchFailed

  datatype StageRow = StageRow(verb: Verb, state: StageState, pct: real)
  datatype LogEntry = LogEntry(ts: int, isError: bool, text: string)
  datatype FileRow = FileRow(sourceId: string, status: FileStatus, stages: seq<StageRow>, log: seq<LogEntry>)

  type Settings(==, !new)   // in-place flag, output path and verb configuration

  datatype Batch = Batch(
    id: string,
    settings: Settings,
    pipeline: seq<Verb>,
    files: map<string, FileRow>,
    fileOrder: seq<string>,
    state: BatchState,
    jobId: Option<string>,
    needsDiscovery: bool,
    expanded: Option<string>)

  datatype AppState = AppState(batches: map<string, Batch>, tabOrder: seq<string>, activeBatchId: Option<string>,
                               showSettings: bool)

  /** A JavaScript number. */
  datatype Number = Finite(value: real) | NonFinite

  datatype ProgressKind = StageStarted | StageInjected | StageSkipped | StageFailed | SourceCompleted

  datatype ProgressEvent = ProgressEvent(sourceId: string, kind: ProgressKind, task: Option<ProgressTask>,
                                         completed: Number, total: Number, text: Option<string>)

  datatype Action =
    | BatchOpened(batch: Batch)
    | BatchClosed(batchId: string)
    | BatchActivated(batchId: string)
    | SettingsChanged(batchId: string, settings: Settings)
    | PipelineChanged(batchId: string, pipeline: seq<Verb>)
    | FilesRediscovered(batchId: string, firstStep: Option<Verb>, jobId: Option<string>, rows: seq<FileRow>)
    | DiscoveryFailed(batchId: string, firstStep: Option<Verb>, jobId: Option<string>)
    | BatchStarted(batchId: string, startedJob: string, rows: seq<FileRow>)
    | Progressed(batchId: string, jobId: Option<string>, event: ProgressEvent, now: int)
    | BatchFinished(batchId: string, finishedJob: string, error: Option<string>, now: int)
    | FileExpanded(batchId: string, sourceId: Option<string>)
    | SettingsToggled(show: bool)
    | OutsideBatches   // daemon, capabilities and preferences

  // ----- Helpers

  function MakeStages(pipeline: seq<Verb>): seq<StageRow> {
    seq(|pipeline|, i requires 0 <= i < |pipeline| => StageRow(pipeline[i], StageQueued, 0.0))
  }

  /** The first stage of `task` from `i` on, or -1. */
  function FindStage(stages: seq<StageRow>, task: Option<ProgressTask>, i: nat): (k: int)
    requires i <= |stages|
    ensures -1 <= k < |stages|
    decreases |stages| - i
  {
    if task.None? || i == |stages| then -1
    else if VerbToTask(stages[i].verb) == task.value then i
    else FindStage(stages, task, i + 1)
  }

  predicate HasState(stages: seq<StageRow>, state: StageState) {
    exists i :: 0 <= i < |stages| && stages[i].state == state
  }

  predicate AllDone(stages: seq<StageRow>) {
    forall i :: 0 <= i < |stages| ==> stages[i].state == StageDone
  }

  function RecomputeStatus(stages: seq<StageRow>): FileStatus {
    if AllDone(stages) then FileDone
    else if HasState(stages, StageFail) then FileFailed
    else if HasState(stages, StageRunning) then FileRunning
    else FileQueued
  }

  const LOG_LIMIT := 200

  function LastEntries(log: seq<LogEntry>): seq<LogEntry> {
    if |log| > LOG_LIMIT then log[|log| - LOG_LIMIT..] else log
  }

  function NonEmpty(text: Option<string>): bool {
    text.Some? && text.value != ""
  }

  /** Half rounds up. */
  function Round(x: real): real {
    (x + 0.5).Floor as real
  }

  function Percent(completed: Number, total: Number, otherwise: real): real {
    if completed.Finite? && total.Finite? && total.value > 0.0 then
      var p := Round(completed.value / total.value * 100.0);
      if p > 100.0 then 100.0 else if p < 0.0 then 0.0 else p
    else otherwise
  }

  // ----- Progress of one file

  function StagesAfter(stages: seq<StageRow>, e: ProgressEvent): (r: seq<StageRow>)
    ensures |r| == |stages|
  {
    var k := FindStage(stages, e.task, 0);
    match e.kind
    case StageStarted =>
      seq(|stages|, i requires 0 <= i < |stages| =>
        if i < k then stages[i].(state := StageDone) else if i == k then stages[i].(state := StageRunning, pct := 0.0)
          else stages[i])
    case StageInjected =>
      if k < 0 then stages else stages[k := stages[k].(state := StageRunning,
                                                       pct := Percent(e.completed, e.total, stages[k].pct))]
    case StageSkipped => if k < 0 then stages else stages[k := stages[k].(state := StageDone, pct := 100.0)]
    case StageFailed => if k < 0 then stages else stages[k := stages[k].(state := StageFail)]
    case SourceCompleted =>
      seq(|stages|, i requires 0 <= i < |stages| =>
        if stages[i].state == StageFail then stages[i] else stages[i].(state := StageDone, pct := 100.0))
  }

  function LogAfter(log: seq<LogEntry>, e: ProgressEvent, now: int): seq<LogEntry> {
    match e.kind
    case StageFailed => log + [LogEntry(now, true, if e.text.Some? then e.text.value else "stage failed")]
    case StageSkipped => log
    case SourceCompleted => log
    case _ => if NonEmpty(e.text) then log + [LogEntry(now, false, e.text.value)] else log
  }

  function RowAfter(row: FileRow, e: ProgressEvent, now: int): FileRow {
    var stages := StagesAfter(row.stages, e);
    row.(stages := stages,
         log := LastEntries(LogAfter(row.log, e, now)),
         status := if e.kind == SourceCompleted then RecomputeStatus(stages)
                   else if HasState(stages, StageFail) then FileFailed else FileRunning)
  }

  function RowFinished(row: FileRow, error: Option<string>, now: int): FileRow {
    if NonEmpty(error) then
      if row.status == FileDone then row
      else row.(status := FileFailed,
                stages := seq(|row.stages|, i requires 0 <= i < |row.stages| =>
                  if row.stages[i].state == StageDone then row.stages[i] else row.stages[i].(state := StageFail)),
                log := LastEntries(row.log + [LogEntry(now, true, error.value)]))
    else row.(status := FileDone,
              stages := seq(|row.stages|, i requires 0 <= i < |row.stages| => row.stages[i].(state := StageDone,
                pct := 100.0)))
  }

  // ----- Rows of a batch

  function SourceIds(rows: seq<FileRow>): seq<string> {
    seq(|rows|, i requires 0 <= i < |rows| => rows[i].sourceId)
  }

  /** By source id; the last of several rows with one id counts. */
  function RowsById(rows: seq<FileRow>): map<string, FileRow> {
    if |rows| == 0 then map[] else RowsById(rows[..|rows| - 1])[rows[|rows| - 1].sourceId := rows[|rows| - 1]]
  }

  function Restaged(rows: seq<FileRow>, pipeline: seq<Verb>): seq<FileRow> {
    seq(|rows|, i requires 0 <= i < |rows| => rows[i].(stages := MakeStages(pipeline)))
  }

  function First(pipeline: seq<Verb>): Option<Verb> {
    if |pipeline| == 0 then None else Some(pipeline[0])
  }

  function Without(ids: seq<string>, id: string): seq<string> {
    if |ids| == 0 then []
    else Without(ids[..|ids| - 1], id) + if ids[|ids| - 1] == id then [] else [ids[|ids| - 1]]
  }

  function FilesRestaged(batch: Batch, pipeline: seq<Verb>): map<string, FileRow> {
    map id | id in batch.fileOrder && id in batch.files :: batch.files[id].(stages := MakeStages(pipeline))
  }

  // ----- The reducer

  predicate Stale(batch: Batch, firstStep: Option<Verb>, jobId: Option<string>) {
    batch.state == BatchRunning || batch.jobId != jobId || First(batch.pipeline) != firstStep
  }

  /** The batch an action is about, after it; an action about no open batch changes nothing. */
  function ReduceBatch(batch: Batch, a: Action): Batch {
    match a
    case SettingsChanged(_, settings) => batch.(settings := settings)
    case PipelineChanged(_, pipeline) =>
      if batch.state == BatchRunning then batch
      else batch.(pipeline := pipeline, files := FilesRestaged(batch, pipeline),
                  needsDiscovery := batch.needsDiscovery || First(batch.pipeline) != First(pipeline))
    case FilesRediscovered(_, firstStep, jobId, rows) =>
      if Stale(batch, firstStep, jobId) then batch
      else batch.(files := RowsById(Restaged(rows, batch.pipeline)), fileOrder := SourceIds(rows),
                  state := BatchIdle, jobId := None, expanded := None, needsDiscovery := false)
    case DiscoveryFailed(_, firstStep, jobId) =>
      if Stale(batch, firstStep, jobId) then batch else batch.(state := BatchIdle, needsDiscovery := true)
    case BatchStarted(_, jobId, rows) =>
      batch.(files := RowsById(rows), fileOrder := SourceIds(rows), state := BatchRunning, jobId := Some(jobId))
    case Progressed(_, jobId, event, now) =>
      if (jobId.Some? && batch.jobId != jobId) || event.sourceId !in batch.files then batch
      else
        var row := batch.files[event.sourceId];
        if row.status in {FileDone, FileFailed} then batch
        else batch.(files := batch.files[row.sourceId := RowAfter(row, event, now)])
    case BatchFinished(_, jobId, error, now) =>
      if batch.jobId != Some(jobId) then batch
      else batch.(files := map id | id in batch.files :: RowFinished(batch.files[id], error, now),
                  state := if NonEmpty(error) then BatchFailed else BatchDone)
    case FileExpanded(_, sourceId) => batch.(expanded := sourceId)
    case _ => batch
  }

  function Reduce(s: AppState, a: Action): AppState {
    match a
    case BatchOpened(batch) =>
      AppState(s.batches[batch.id := batch], if batch.id in s.tabOrder then s.tabOrder
               else s.tabOrder + [batch.id], Some(batch.id), false)
    case BatchClosed(id) =>
      var tabOrder := Without(s.tabOrder, id);
      AppState(s.batches - {id}, tabOrder,
               if s.activeBatchId != Some(id) then s.activeBatchId
                 else if |tabOrder| > 0 then Some(tabOrder[|tabOrder| - 1]) else None,
               s.showSettings)
    case BatchActivated(id) => if id in s.batches then s.(activeBatchId := Some(id), showSettings := false) else s
    case SettingsToggled(show) => s.(showSettings := show)
    case OutsideBatches => s
    case _ =>
      if a.batchId in s.batches then s.(batches := s.batches[a.batchId := ReduceBatch(s.batches[a.batchId], a)]) else s
  }

  // ----- The loops

  method IndexRows(rows: seq<FileRow>) returns (files: map<string, FileRow>, fileOrder: seq<string>)
    ensures files == RowsById(rows) && fileOrder == SourceIds(rows)
  {
    files, fileOrder := map[], [];
    for i := 0 to |rows|
      invariant files == RowsById(rows[..i]) && fileOrder == SourceIds(rows[..i])
    {
      assert rows[..i + 1][..i] == rows[..i];
      files := files[rows[i].sourceId := rows[i]];
      fileOrder := fileOrder + [rows[i].sourceId];
    }
    assert rows[..|rows|] == rows;
  }

  method RestageFiles(batch: Batch, pipeline: seq<Verb>) returns (files: map<string, FileRow>)
    requires forall id :: id in batch.fileOrder ==> id in batch.files
    ensures files == FilesRestaged(batch, pipeline)
  {
    files := map[];
    for i := 0 to |batch.fileOrder|
      invariant files == map id | id in batch.fileOrder[..i] &&
                id in batch.files :: batch.files[id].(stages := MakeStages(pipeline))
    {
      var id := batch.fileOrder[i];
      assert batch.fileOrder[..i + 1] == batch.fileOrder[..i] + [id];
      files := files[id := batch.files[id].(stages := MakeStages(pipeline))];
    }
    assert batch.fileOrder[..|batch.fileOrder|] == batch.fileOrder;
  }

  method AdvanceStages(stages0: seq<StageRow>, e: ProgressEvent) returns (stages: seq<StageRow>)
    ensures stages == StagesAfter(stages0, e)
  {
    stages := stages0;
    var k := FindStage(stages, e.task, 0);
    match e.kind
    case StageStarted =>
      if k >= 0 {
        for i := 0 to k
          invariant |stages| == |stages0|
          invariant forall j :: 0 <= j < |stages| ==>
                    stages[j] == if j < i then stages0[j].(state := StageDone) else stages0[j]
        {
          stages := stages[i := stages[i].(state := StageDone)];
        }
        stages := stages[k := stages[k].(state := StageRunning)];
        stages := stages[k := stages[k].(pct := 0.0)];
      }
    case StageInjected =>
      if k >= 0 {
        stages := stages[k := stages[k].(state := StageRunning)];
        stages := stages[k := stages[k].(pct := Percent(e.completed, e.total, stages[k].pct))];
      }
    case StageSkipped =>
      if k >= 0 {
        stages := stages[k := stages[k].(state := StageDone, pct := 100.0)];
      }
    case StageFailed =>
      if k >= 0 {
        stages := stages[k := stages[k].(state := StageFail)];
      }
    case SourceCompleted =>
      for i := 0 to |stages|
        invariant |stages| == |stages0|
        invariant forall j :: 0 <= j < |stages| ==>
                  stages[j] == if j < i then StagesAfter(stages0, e)[j] else stages0[j]
      {
        if stages[i].state != StageFail {
          stages := stages[i := stages[i].(state := StageDone)];
        }
        if stages[i].state == StageDone {
          stages := stages[i := stages[i].(pct := 100.0)];
        }
      }
  }

  // ----- What an event does to a file

  /** The stage that a task's progress belongs to, by its verb. */
  predicate Serves(verb: Verb, task: ProgressTask) {
    (verb == Transcribe && task == Asr) || (verb == Diarize && task == Speaker) || (verb == Align && task == Fa) ||
    (verb == Morphotag && task == Morphosyntax) || (verb == Translate && task == TranslateTask) ||
    (verb == Compare && task == CompareTask)
  }

  ghost predicate IsFirstServing(stages: seq<StageRow>, task: Option<ProgressTask>, k: int) {
    task.Some? && 0 <= k < |stages| && Serves(stages[k].verb, task.value) &&
    forall i :: 0 <= i < k ==> !Serves(stages[i].verb, task.value)
  }

  ghost predicate NoneServes(stages: seq<StageRow>, task: Option<ProgressTask>) {
    task.Some? ==> forall i :: 0 <= i < |stages| ==> !Serves(stages[i].verb, task.value)
  }

  lemma {:induction false} FindsFirst(stages: seq<StageRow>, task: Option<ProgressTask>, i: nat)
    requires i <= |stages| && task.Some?
    ensures var k := FindStage(stages, task, i);
            if k < 0 then forall j :: i <= j < |stages| ==> !Serves(stages[j].verb, task.value)
            else i <= k && Serves(stages[k].verb, task.value) &&
                 forall j :: i <= j < k ==> !Serves(stages[j].verb, task.value)
    decreases |stages| - i
  {
    if i < |stages| && VerbToTask(stages[i].verb) != task.value { FindsFirst(stages, task, i + 1); }
  }

  /** An event about a task goes to the first stage that serves it; without one, none changes. A start finishes
      the stages before it and resets its own; an injection sets how far it is; a skip finishes it, a failure
      fails it; and no other stage changes. */
  lemma EventReachesStage(stages: seq<StageRow>, e: ProgressEvent, k: int, i: nat)
    requires i < |stages| && e.kind != SourceCompleted
    ensures NoneServes(stages, e.task) ==> StagesAfter(stages, e) == stages
    ensures IsFirstServing(stages, e.task, k) ==>
              var was, now := stages[i], StagesAfter(stages, e)[i];
              && now.verb == was.verb
              && (i < k && e.kind == StageStarted ==> now.state == StageDone && now.pct == was.pct)
              && (i > k || (i < k && e.kind != StageStarted) ==> now == was)
              && (i == k ==>
                    match e.kind
                    case StageStarted => now.state == StageRunning && now.pct == 0.0
                    case StageInjected => now.state == StageRunning && now.pct == Percent(e.completed, e.total, was.pct)
                    case StageSkipped => now.state == StageDone && now.pct == 100.0
                    case StageFailed => now.state == StageFail && now.pct == was.pct)
  {
    if e.task.Some? { FindsFirst(stages, e.task, 0); }
  }

  /** Completion finishes every stage that has not failed. */
  lemma CompletionReachesAll(stages: seq<StageRow>, e: ProgressEvent, i: nat)
    requires i < |stages| && e.kind == SourceCompleted
    ensures var was, now := stages[i], StagesAfter(stages, e)[i];
            now.verb == was.verb &&
            if was.state == StageFail then now == was else now.state == StageDone && now.pct == 100.0
  {
  }

  /** A percentage is the nearest whole number, halves upwards, of at least 0 and at most 100; it stays as it is
      when the event carries no usable one. */
  lemma PercentIsNearest(completed: Number, total: Number, otherwise: real) returns (n: int)
    ensures if completed.Finite? && total.Finite? && total.value > 0.0 then
              var x := completed.value / total.value * 100.0;
              && Percent(completed, total, otherwise) == n as real && 0 <= n <= 100
              && (x < n as real - 0.5 ==> n == 0)
              && (x >= n as real + 0.5 ==> n == 100)
            else Percent(completed, total, otherwise) == otherwise
  {
    n := Percent(completed, total, otherwise).Floor;
  }

  /** At most 200 entries are kept, and they are the latest. */
  lemma LogKeepsLatest(log: seq<LogEntry>) returns (dropped: seq<LogEntry>)
    ensures log == dropped + LastEntries(log) && |LastEntries(log)| == if |log| < 200 then |log| else 200
  {
    dropped := log[..|log| - |LastEntries(log)|];
  }

  /** What an event adds to a log: a failure its text, as an error; a start or an injection its text, if it has
      one; nothing else anything. */
  ghost predicate IsLogged(log: seq<LogEntry>, e: ProgressEvent, now: int, after: seq<LogEntry>) {
    if e.kind == StageFailed then
      exists text :: after == log + [LogEntry(now, true, text)] &&
                     text == if e.text == None then "stage failed" else e.text.value
    else if (e.kind == StageStarted || e.kind == StageInjected) && e.text.Some? && e.text.value != "" then
      after == log + [LogEntry(now, false, e.text.value)]
    else after == log
  }

  /** What an event makes of a file: its log with what is added, cut to the latest entries; and its status, which
      is failed as soon as a stage has failed, and running otherwise until completion decides. */
  lemma EventReachesFile(row: FileRow, e: ProgressEvent, now: int)
    ensures var after := RowAfter(row, e, now);
            && after.sourceId == row.sourceId && after.stages == StagesAfter(row.stages, e)
            && (exists log :: IsLogged(row.log, e, now, log) && after.log == LastEntries(log))
            && (after.status == FileFailed <==>
                exists i :: 0 <= i < |after.stages| && after.stages[i].state == StageFail)
            && (after.status == FileDone ==> e.kind == SourceCompleted)
            && (e.kind == SourceCompleted ==> after.status == FileDone || after.status == FileFailed)
            && (e.kind != SourceCompleted ==> after.status == FileRunning || after.status == FileFailed)
  {
    assert IsLogged(row.log, e, now, LogAfter(row.log, e, now));
  }

  // ----- What every action keeps

  ghost predicate ValidRow(row: FileRow) {
    (forall i :: 0 <= i < |row.stages| ==> 0.0 <= row.stages[i].pct <= 100.0) && |row.log| <= LOG_LIMIT
  }

  ghost predicate ValidBatch(batch: Batch) {
    && (forall id :: id in batch.fileOrder <==> id in batch.files)
    && (forall id :: id in batch.files ==> batch.files[id].sourceId == id && ValidRow(batch.files[id]))
  }

  /** One tab a batch, no tab twice; an active batch exactly when there is a batch; and valid batches. */
  ghost predicate Valid(s: AppState) {
    && (forall i, j :: 0 <= i < j < |s.tabOrder| ==> s.tabOrder[i] != s.tabOrder[j])
    && (forall id :: id in s.tabOrder <==> id in s.batches)
    && (s.activeBatchId.None? <==> s.batches == map[])
    && (s.activeBatchId.Some? ==> s.activeBatchId.value in s.batches)
    && (forall id :: id in s.batches ==> s.batches[id].id == id && ValidBatch(s.batches[id]))
  }

  /** Incoming batches and rows are well formed. */
  ghost predicate ValidAction(a: Action) {
    match a
    case BatchOpened(batch) => ValidBatch(batch)
    case FilesRediscovered(_, _, _, rows) => forall i :: 0 <= i < |rows| ==> |rows[i].log| <= LOG_LIMIT
    case BatchStarted(_, _, rows) => forall i :: 0 <= i < |rows| ==> ValidRow(rows[i])
    case _ => true
  }

  lemma {:induction false} RowsByIdValid(rows: seq<FileRow>)
    requires forall i :: 0 <= i < |rows| ==> ValidRow(rows[i])
    ensures forall id :: id in SourceIds(rows) <==> id in RowsById(rows)
    ensures forall id :: id in RowsById(rows) ==> RowsById(rows)[id].sourceId == id && ValidRow(RowsById(rows)[id])
    decreases |rows|
  {
    if |rows| > 0 {
      var n := |rows| - 1;
      RowsByIdValid(rows[..n]);
      assert SourceIds(rows) == SourceIds(rows[..n]) + [rows[n].sourceId];
    }
  }

  lemma PercentInRange(completed: Number, total: Number, otherwise: real)
    requires 0.0 <= otherwise <= 100.0
    ensures 0.0 <= Percent(completed, total, otherwise) <= 100.0
  {
  }

  lemma StagesAfterValid(stages: seq<StageRow>, e: ProgressEvent)
    requires forall i :: 0 <= i < |stages| ==> 0.0 <= stages[i].pct <= 100.0
    ensures forall i :: 0 <= i < |stages| ==> 0.0 <= StagesAfter(stages, e)[i].pct <= 100.0
  {
    var k := FindStage(stages, e.task, 0);
    if k >= 0 { PercentInRange(e.completed, e.total, stages[k].pct); }
  }

  lemma RowAfterValid(row: FileRow, e: ProgressEvent, now: int)
    requires ValidRow(row)
    ensures ValidRow(RowAfter(row, e, now)) && RowAfter(row, e, now).sourceId == row.sourceId
  {
    StagesAfterValid(row.stages, e);
  }

  lemma UpdateRowKeepsValid(batch: Batch, row: FileRow)
    requires ValidBatch(batch) && row.sourceId in batch.files && ValidRow(row)
    ensures ValidBatch(batch.(files := batch.files[row.sourceId := row]))
  {
  }

  lemma FinishKeepsValid(batch: Batch, jobId: string, error: Option<string>, now: int)
    requires ValidBatch(batch)
    ensures ValidBatch(ReduceBatch(batch, BatchFinished(batch.id, jobId, error, now)))
  {
    forall id | id in batch.files
      ensures ValidRow(RowFinished(batch.files[id], error, now))
    {
      assert ValidRow(batch.files[id]);
    }
  }

  lemma ReduceBatchValid(batch: Batch, a: Action)
    requires ValidBatch(batch) && ValidAction(a)
    ensures ValidBatch(ReduceBatch(batch, a)) && ReduceBatch(batch, a).id == batch.id
  {
    match a
    case FilesRediscovered(_, _, _, rows) =>
      RowsByIdValid(Restaged(rows, batch.pipeline));
      assert SourceIds(Restaged(rows, batch.pipeline)) == SourceIds(rows);
    case BatchStarted(_, _, rows) => RowsByIdValid(rows);
    case Progressed(_, _, event, now) =>
      if event.sourceId in batch.files {
        var row := RowAfter(batch.files[event.sourceId], event, now);
        RowAfterValid(batch.files[event.sourceId], event, now);
        UpdateRowKeepsValid(batch, row);
      }
    case BatchFinished(_, jobId, error, now) => FinishKeepsValid(batch, jobId, error, now);
    case _ =>
  }

  lemma {:induction false} WithoutKeeps(ids: seq<string>, id: string)
    requires forall i, j :: 0 <= i < j < |ids| ==> ids[i] != ids[j]
    ensures forall i, j :: 0 <= i < j < |Without(ids, id)| ==> Without(ids, id)[i] != Without(ids, id)[j]
    ensures forall x :: x in Without(ids, id) <==> x in ids && x != id
    decreases |ids|
  {
    if |ids| > 0 {
      var n := |ids| - 1;
      WithoutKeeps(ids[..n], id);
      assert ids == ids[..n] + [ids[n]];
      assert ids[n] !in ids[..n];
    }
  }

  lemma UpdateKeepsValid(s: AppState, batch: Batch)
    requires Valid(s) && batch.id in s.batches && ValidBatch(batch)
    ensures Valid(s.(batches := s.batches[batch.id := batch]))
  {
    assert batch.id in s.batches[batch.id := batch];
  }

  lemma OpenKeepsValid(s: AppState, batch: Batch)
    requires Valid(s) && ValidBatch(batch)
    ensures Valid(Reduce(s, BatchOpened(batch)))
  {
    assert batch.id in s.batches[batch.id := batch];
  }

  lemma ReduceKeepsValid(s: AppState, a: Action)
    requires Valid(s) && ValidAction(a)
    ensures Valid(Reduce(s, a))
  {
    match a
    case BatchOpened(batch) => OpenKeepsValid(s, batch);
    case BatchClosed(id) => CloseKeepsValid(s, id);
    case BatchActivated(_) =>
    case SettingsToggled(_) =>
    case OutsideBatches =>
    case _ =>
      if a.batchId in s.batches {
        ReduceBatchValid(s.batches[a.batchId], a);
        UpdateKeepsValid(s, ReduceBatch(s.batches[a.batchId], a));
      }
  }

  lemma TabsLeft(s: AppState, id: string)
    requires Valid(s)
    ensures var tabs, left := Without(s.tabOrder, id), s.batches - {id};
            && (forall i, j :: 0 <= i < j < |tabs| ==> tabs[i] != tabs[j])
            && (forall x :: x in tabs <==> x in left)
            && (|tabs| == 0 <==> left == map[])
            && (|tabs| > 0 ==> tabs[|tabs| - 1] in left)
  {
    var tabs, left := Without(s.tabOrder, id), s.batches - {id};
    WithoutKeeps(s.tabOrder, id);
    forall x
      ensures x in tabs <==> x in left
    {
      assert x in s.tabOrder <==> x in s.batches;
    }
    if |tabs| > 0 {
      var last := tabs[|tabs| - 1];
      assert last in tabs;
      assert last in left;
    }
  }

  lemma CloseKeepsValid(s: AppState, id: string)
    requires Valid(s)
    ensures Valid(Reduce(s, BatchClosed(id)))
  {
    TabsLeft(s, id);
    if s.activeBatchId.Some? && s.activeBatchId != Some(id) { assert s.activeBatchId.value in s.batches - {id}; }
  }

  function ReduceAll(s: AppState, actions: seq<Action>): AppState {
    if |actions| == 0 then s else Reduce(ReduceAll(s, actions[..|actions| - 1]), actions[|actions| - 1])
  }

  const INITIAL := AppState(map[], [], None, false)

  /** Every state the app can reach is valid. */
  lemma {:induction false} ReachableIsValid(actions: seq<Action>)
    requires forall a :: a in actions ==> ValidAction(a)
    ensures Valid(ReduceAll(INITIAL, actions))
    decreases |actions|
  {
    if |actions| > 0 {
      ReachableIsValid(actions[..|actions| - 1]);
      ReduceKeepsValid(ReduceAll(INITIAL, actions[..|actions| - 1]), actions[|actions| - 1]);
    }
  }

  // ----- While a batch runs

  /** Failed exactly when a stage failed; done only with every stage done at 100. */
  ghost predicate Consistent(row: FileRow) {
    && (row.status == FileFailed <==> HasState(row.stages, StageFail))
    && (row.status == FileDone ==> forall i :: 0 <= i < |row.stages| ==>
        row.stages[i].state == StageDone && row.stages[i].pct == 100.0)
  }

  predicate Settled(row: FileRow) {
    row.status in {FileDone, FileFailed}
  }

  /** The actions that end, replace or restart a batch's run. */
  predicate EndsRun(a: Action, id: string) {
    match a
    case BatchOpened(batch) => batch.id == id
    case BatchClosed(b) => b == id
    case BatchStarted(b, _, _) => b == id
    case BatchFinished(b, _, _, _) => b == id
    case _ => false
  }

  ghost predicate ConsistentRun(batch: Batch, jobId: string) {
    && batch.state == BatchRunning && batch.jobId == Some(jobId)
    && forall id :: id in batch.files ==> batch.files[id].sourceId == id && Consistent(batch.files[id])
  }

  lemma RowAfterConsistent(row: FileRow, e: ProgressEvent, now: int)
    requires Consistent(row) && !Settled(row)
    ensures Consistent(RowAfter(row, e, now))
  {
    var stages, after := row.stages, StagesAfter(row.stages, e);
    forall i | 0 <= i < |after| && e.kind != StageFailed
      ensures after[i].state != StageFail
    {
      assert stages[i].state != StageFail;
    }
  }

  /** A batch started with fresh rows is consistent. */
  lemma {:induction false} FreshRowsConsistent(rows: seq<FileRow>)
    requires forall i :: 0 <= i < |rows| ==> rows[i].status == FileQueued && !HasState(rows[i].stages, StageFail)
    ensures forall id :: id in RowsById(rows) ==> RowsById(rows)[id].sourceId == id && Consistent(RowsById(rows)[id])
    decreases |rows|
  {
    if |rows| > 0 { FreshRowsConsistent(rows[..|rows| - 1]); }
  }

  /** The action is about one batch. */
  predicate HasBatchId(a: Action) {
    !a.BatchOpened? && !a.SettingsToggled? && !a.OutsideBatches?
  }

  /** Between its start and its end a run keeps its job, its pipeline and its rows; rows that are done or
      failed do not change; and all rows stay consistent. */
  lemma RunStep(s: AppState, a: Action, id: string, jobId: string)
    requires id in s.batches && ConsistentRun(s.batches[id], jobId) && !EndsRun(a, id)
    ensures id in Reduce(s, a).batches && ConsistentRun(Reduce(s, a).batches[id], jobId)
    ensures SameRun(s.batches[id], Reduce(s, a).batches[id])
  {
    if HasBatchId(a) && a.batchId == id { BatchStep(s.batches[id], a, id, jobId); }
  }

  lemma BatchStep(batch: Batch, a: Action, id: string, jobId: string)
    requires ConsistentRun(batch, jobId) && !EndsRun(a, id) && HasBatchId(a) && a.batchId == id
    ensures ConsistentRun(ReduceBatch(batch, a), jobId) && SameRun(batch, ReduceBatch(batch, a))
  {
    if a.Progressed? && a.event.sourceId in batch.files && !Settled(batch.files[a.event.sourceId]) {
      RowAfterConsistent(batch.files[a.event.sourceId], a.event, a.now);
    }
  }

  ghost predicate SameRun(before: Batch, after: Batch) {
    && after.pipeline == before.pipeline && after.fileOrder == before.fileOrder && after.files.Keys == before.files.Keys
    && after.needsDiscovery == before.needsDiscovery
    && forall f :: f in before.files && Settled(before.files[f]) ==> after.files[f] == before.files[f]
  }

  lemma {:induction false} WholeRun(s: AppState, actions: seq<Action>, id: string, jobId: string)
    requires id in s.batches && ConsistentRun(s.batches[id], jobId) && forall a :: a in actions ==> !EndsRun(a, id)
    ensures id in ReduceAll(s, actions).batches && ConsistentRun(ReduceAll(s, actions).batches[id], jobId)
    ensures SameRun(s.batches[id], ReduceAll(s, actions).batches[id])
    decreases |actions|
  {
    if |actions| > 0 {
      var n := |actions| - 1;
      assert actions[n] in actions;
      WholeRun(s, actions[..n], id, jobId);
      RunStep(ReduceAll(s, actions[..n]), actions[n], id, jobId);
    }
  }

  lemma TakeOneLess<T>(s: seq<T>, k: nat)
    requires k < |s|
    ensures var init := s[..|s| - 1];
            init[..k] == s[..k] && s[k..][..|s| - k - 1] == init[k..] && s[k..][|s| - k - 1] == s[|s| - 1]
  {
  }

  lemma {:induction false} ReduceAllSplits(s: AppState, actions: seq<Action>, k: nat)
    requires k <= |actions|
    ensures ReduceAll(s, actions) == ReduceAll(ReduceAll(s, actions[..k]), actions[k..])
    decreases |actions|
  {
    if k == |actions| {
      assert actions[..k] == actions;
    } else {
      var n := |actions| - 1;
      ReduceAllSplits(s, actions[..n], k);
      TakeOneLess(actions, k);
    }
  }

  /** From the start of a batch with fresh rows to whatever ends it, whatever else happens: the rows stay
      consistent, and from any moment on the job, the pipeline and the row set stay and no row that is
      then done or failed changes again. */
  lemma {:induction false} StartedBatchRuns(s: AppState, id: string, jobId: string, rows: seq<FileRow>,
                                            actions: seq<Action>, k: nat)
    requires id in s.batches && k <= |actions|
    requires forall i :: 0 <= i < |rows| ==> rows[i].status == FileQueued && !HasState(rows[i].stages, StageFail)
    requires forall a :: a in actions ==> !EndsRun(a, id)
    ensures var started := Reduce(s, BatchStarted(id, jobId, rows));
            var during, after := ReduceAll(started, actions[..k]), ReduceAll(started, actions);
            && id in during.batches && ConsistentRun(during.batches[id], jobId)
            && id in after.batches && ConsistentRun(after.batches[id], jobId)
            && SameRun(during.batches[id], after.batches[id])
            && after.batches[id].fileOrder == SourceIds(rows) && after.batches[id].files.Keys == RowsById(rows).Keys
  {
    var started := Reduce(s, BatchStarted(id, jobId, rows));
    FreshRowsConsistent(rows);
    WholeRun(started, actions[..k], id, jobId);
    ReduceAllSplits(started, actions, k);
    WholeRun(ReduceAll(started, actions[..k]), actions[k..], id, jobId);
  }

  /** Progress that carries another job's id changes nothing. */
  lemma OtherJobsIgnored(s: AppState, id: string, jobId: string, other: string, event: ProgressEvent, now: int)
    requires id in s.batches && s.batches[id].jobId == Some(jobId) && other != jobId
    ensures Reduce(s, Progressed(id, Some(other), event, now)) == s
  {
    assert s.batches[id := s.batches[id]] == s.batches;
  }

  /** Finishing with an error marks a row that is not done as failed, but leaves it a failing stage
      exactly when some stage of it was not done. */
  lemma FinishWithError(row: FileRow, error: string, now: int)
    requires Consistent(row) && error != ""
    ensures var out := RowFinished(row, Some(error), now);
            && (row.status == FileDone ==> out == row)
            && (row.status != FileDone ==> out.status == FileFailed)
            && (Consistent(out) <==> row.status == FileDone || !AllDone(row.stages))
  {
    var out := RowFinished(row, Some(error), now);
    if row.status != FileDone && !AllDone(row.stages) {
      var i :| 0 <= i < |row.stages| && row.stages[i].state != StageDone;
      assert out.stages[i].state == StageFail;
    }
  }

  /** Finishing keeps a consistent row that is done. It changes the status of a settled row exactly when
      the row had failed and no error is given: then the failure is gone, and every stage is done at 100. */
  lemma FinishOfSettled(row: FileRow, error: Option<string>, now: int)
    requires Consistent(row) && Settled(row)
    ensures var out := RowFinished(row, error, now);
            && (row.status == FileDone ==> out == row)
            && (out.status == row.status <==> row.status == FileDone || NonEmpty(error))
            && (row.status == FileFailed && !NonEmpty(error) ==>
                HasState(row.stages, StageFail) && AllDone(out.stages) && Consistent(out))
  {
    var out := RowFinished(row, error, now);
    if row.status == FileDone {
      assert out.stages == row.stages;
    }
  }

  /** What finishing makes of a file that it changes: with an error, the stages that were not done fail where they
      are and the error is logged; without one, every stage is done at 100 and the log stays. */
  lemma FinishReachesFile(row: FileRow, error: Option<string>, now: int, i: nat)
    requires i < |row.stages|
    ensures var out, failed := RowFinished(row, error, now), error.Some? && error.value != "";
            && out.sourceId == row.sourceId && |out.stages| == |row.stages| && out.stages[i].verb == row.stages[i].verb
            && (failed && row.status == FileDone ==> out == row)
            && (failed && row.status != FileDone ==>
                  && out.status == FileFailed && out.log == LastEntries(row.log + [LogEntry(now, true, error.value)])
                  && out.stages[i].pct == row.stages[i].pct
                  && out.stages[i].state == if row.stages[i].state == StageDone then StageDone else StageFail)
            && (!failed ==>
                  && out.status == FileDone && out.log == row.log
                  && out.stages[i].state == StageDone && out.stages[i].pct == 100.0)
  {
  }

  // ----- Tabs and rediscovery

  lemma {:induction false} WithoutAbsent(ids: seq<string>, id: string)
    requires id !in ids
    ensures Without(ids, id) == ids
    decreases |ids|
  {
    if |ids| > 0 {
      var n := |ids| - 1;
      assert ids == ids[..n] + [ids[n]];
      WithoutAbsent(ids[..n], id);
    }
  }

  lemma WithoutLast(ids: seq<string>, id: string)
    requires id !in ids
    ensures Without(ids + [id], id) == ids
  {
    var all := ids + [id];
    assert all[..|all| - 1] == ids;
    WithoutAbsent(ids, id);
  }

  lemma OpenedAndRemoved(batches: map<string, Batch>, id: string, batch: Batch)
    requires id !in batches
    ensures batches[id := batch] - {id} == batches
  {
  }

  /** Opening a new batch adds its tab at the end and shows it; closing it again leaves the batches and tabs that were
      there, and shows the last of them. */
  lemma CloseUndoesOpen(s: AppState, batch: Batch)
    requires Valid(s) && batch.id !in s.batches
    ensures var after := Reduce(s, BatchOpened(batch));
            && after.tabOrder == s.tabOrder + [batch.id] && after.activeBatchId == Some(batch.id)
            && var closed := Reduce(after, BatchClosed(batch.id));
               && closed.batches == s.batches && closed.tabOrder == s.tabOrder
               && closed.activeBatchId == if s.tabOrder == [] then None else Some(s.tabOrder[|s.tabOrder| - 1])
  {
    WithoutLast(s.tabOrder, batch.id);
    OpenedAndRemoved(s.batches, batch.id, batch);
  }

  /** The discovery is for the batch as it is: not running, with the job and the first verb it was made for. */
  predicate IsCurrent(batch: Batch, firstStep: Option<Verb>, jobId: Option<string>) {
    batch.state != BatchRunning && batch.jobId == jobId &&
    if |batch.pipeline| == 0 then firstStep == None else firstStep == Some(batch.pipeline[0])
  }

  /** A rediscovery that is out of date changes nothing. One that is not replaces the files, each with a queued stage
      for each verb, and the batch is idle, without a job, and needs no discovery. */
  lemma RediscoveryApplies(s: AppState, id: string, firstStep: Option<Verb>, jobId: Option<string>, rows: seq<FileRow>,
                           f: string)
    requires id in s.batches
    ensures var batch, after := s.batches[id], Reduce(s, FilesRediscovered(id, firstStep, jobId, rows));
            && (!IsCurrent(batch, firstStep, jobId) ==> after == s)
            && (IsCurrent(batch, firstStep, jobId) ==>
                  && id in after.batches
                  && var now := after.batches[id];
                     && now.state == BatchIdle && now.jobId == None && !now.needsDiscovery
                     && now.pipeline == batch.pipeline && now.fileOrder == SourceIds(rows)
                     && (f in now.files ==> IsQueued(now.files[f].stages, batch.pipeline)))
  {
    if IsCurrent(s.batches[id], firstStep, jobId) {
      RestagedQueued(rows, s.batches[id].pipeline, f);
    } else {
      assert s.batches[id := s.batches[id]] == s.batches;
    }
  }

  predicate IsQueued(stages: seq<StageRow>, pipeline: seq<Verb>) {
    |stages| == |pipeline| && forall i :: 0 <= i < |pipeline| ==> stages[i] == StageRow(pipeline[i], StageQueued, 0.0)
  }

  lemma {:induction false} RestagedQueued(rows: seq<FileRow>, pipeline: seq<Verb>, f: string)
    ensures var files := RowsById(Restaged(rows, pipeline)); f in files ==> IsQueued(files[f].stages, pipeline)
    decreases |rows|
  {
    if |rows| > 0 {
      var n := |rows| - 1;
      RestagedQueued(rows[..n], pipeline, f);
      assert Restaged(rows, pipeline)[..n] == Restaged(rows[..n], pipeline);
    }
  }

  /** A running batch keeps its pipeline. Any other takes the new one, with every file's stages queued, and needs
      discovery when the first verb is another one. */
  lemma PipelineApplies(s: AppState, id: string, pipeline: seq<Verb>, f: string)
    requires Valid(s) && id in s.batches
    ensures var batch, after := s.batches[id], Reduce(s, PipelineChanged(id, pipeline));
            && (batch.state == BatchRunning ==> after == s)
            && (batch.state != BatchRunning ==>
                  && id in after.batches
                  && var now := after.batches[id];
                     && now.pipeline == pipeline && now.files.Keys == batch.files.Keys && now.state == batch.state
                     && (f in now.files ==> now.files[f] == batch.files[f].(stages := now.files[f].stages))
                     && (f in now.files ==> IsQueued(now.files[f].stages, pipeline))
                     && (now.needsDiscovery <==> batch.needsDiscovery || First(batch.pipeline) != First(pipeline)))
  {
    assert s.batches[id := s.batches[id]] == s.batches;
    assert ValidBatch(s.batches[id]);
  }

  /** Progress of the batch's own job, or without a job's id, reaches the file it names, unless that is done or has
      failed, and no other. */
  lemma ProgressApplies(s: AppState, id: string, jobId: Option<string>, e: ProgressEvent, now: int)
    requires Valid(s) && id in s.batches
    ensures var batch, after := s.batches[id], Reduce(s, Progressed(id, jobId, e, now));
            if (jobId == None || jobId == batch.jobId) && e.sourceId in batch.files &&
              batch.files[e.sourceId].status != FileDone && batch.files[e.sourceId].status != FileFailed
            then after == s.(batches := s.batches[id := batch.(files := batch.files[
              e.sourceId := RowAfter(batch.files[e.sourceId], e, now)])])
            else after == s
  {
    assert s.batches[id := s.batches[id]] == s.batches;
    assert ValidBatch(s.batches[id]);
  }

  /** The end of a job finishes every file of the batch it belongs to, which is failed exactly when there is an error;
      the end of another job changes nothing. */
  lemma FinishApplies(s: AppState, id: string, jobId: string, error: Option<string>, now: int, f: string)
    requires id in s.batches
    ensures var batch, after := s.batches[id], Reduce(s, BatchFinished(id, jobId, error, now));
            && (batch.jobId != Some(jobId) ==> after == s)
            && (batch.jobId == Some(jobId) ==>
                  && id in after.batches && after.batches[id].files.Keys == batch.files.Keys
                  && (f in batch.files ==> after.batches[id].files[f] == RowFinished(batch.files[f], error, now))
                  && after.batches[id].state == if error.Some? && error.value != "" then BatchFailed else BatchDone)
  {
    assert s.batches[id := s.batches[id]] == s.batches;
  }

  // ----- A failed row without a failing stage, reached

  function SkipOf(id: string, v: Verb): ProgressEvent {
    ProgressEvent(id, StageSkipped, Some(VerbToTask(v)), Finite(0.0), Finite(0.0), None)
  }

  /** A batch of one file and one stage is started, its stage is skipped, and the job then ends with an
      error: the row is failed, its only stage is done. */
  lemma SkippedThenFailed(settings: Settings, v: Verb, now: int) returns (actions: seq<Action>)
    ensures forall a :: a in actions ==> ValidAction(a)
    ensures var s := ReduceAll(INITIAL, actions);
            && "b" in s.batches && "f" in s.batches["b"].files
            && var row := s.batches["b"].files["f"]; row.status == FileFailed && AllDone(row.stages) && !Consistent(row)
  {
    var row := FileRow("f", FileQueued, MakeStages([v]), []);
    var batch := Batch("b", settings, [v], map[], [], BatchIdle, None, false, None);
    actions := [BatchOpened(batch), BatchStarted("b", "j", [row]), Progressed("b", None, SkipOf("f", v), now),
                BatchFinished("b", "j", Some("e"), now)];
    FourSteps(INITIAL, actions);
    var started := Reduce(Reduce(INITIAL, actions[0]), actions[1]);
    OneRow(row);
    assert started.batches["b"].files == map["f" := row] && started.batches["b"].jobId == Some("j");
    SkipThenError(started, "b", "j", row, v, now);
  }

  lemma SkipThenError(s: AppState, id: string, jobId: string, row: FileRow, v: Verb, now: int)
    requires id in s.batches && s.batches[id].files == map[row.sourceId := row] && s.batches[id].jobId == Some(jobId)
    requires row.stages == MakeStages([v]) && row.log == [] && row.status == FileQueued
    ensures var skipped := Reduce(s, Progressed(id, None, SkipOf(row.sourceId, v), now));
            var after := Reduce(skipped, BatchFinished(id, jobId, Some("e"), now));
            && id in after.batches && row.sourceId in after.batches[id].files
            && var out := after.batches[id].files[row.sourceId];
               out.status == FileFailed && AllDone(out.stages) && !Consistent(out)
  {
    var skipped := RowAfter(row, SkipOf(row.sourceId, v), now);
    SkipSettles(row, v, now);
    FailsAfterSkip(skipped, now);
    assert Reduce(s, Progressed(id, None, SkipOf(row.sourceId, v), now)).batches[id].files[row.sourceId] == skipped;
  }

  lemma FailsAfterSkip(row: FileRow, now: int)
    requires row.status == FileRunning && AllDone(row.stages)
    ensures var out := RowFinished(row, Some("e"), now);
            out.status == FileFailed && AllDone(out.stages) && !Consistent(out)
  {
    assert RowFinished(row, Some("e"), now).stages == row.stages;
  }

  lemma OneRow(row: FileRow)
    ensures RowsById([row]) == map[row.sourceId := row] && SourceIds([row]) == [row.sourceId]
  {
    assert [row][..0] == [];
  }

  lemma SkipSettles(row: FileRow, v: Verb, now: int)
    requires row.stages == MakeStages([v]) && row.log == []
    ensures var out := RowAfter(row, SkipOf(row.sourceId, v), now);
            out.status == FileRunning && AllDone(out.stages) && |out.stages| == 1 && out.log == []
  {
    assert FindStage(row.stages, Some(VerbToTask(v)), 0) == 0;
  }

  lemma FourSteps(s: AppState, actions: seq<Action>)
    requires |actions| == 4
    ensures ReduceAll(s, actions) == Reduce(Reduce(Reduce(Reduce(s, actions[0]), actions[1]), actions[2]), actions[3])
  {
    assert actions[..3][..2] == actions[..2] && actions[..2][..1] == actions[..1] && actions[..1][..0] == [];
    assert ReduceAll(s, actions[..1]) == Reduce(s, actions[0]);
    assert ReduceAll(s, actions[..2]) == Reduce(ReduceAll(s, actions[..1]), actions[1]);
    assert ReduceAll(s, actions[..3]) == Reduce(ReduceAll(s, actions[..2]), actions[2]);
  }
}
