/** Task values and the pure transformers on them (tasks/model.go, tasks/client.go). */
module Tasks {
  import opened Wrappers

  // A status is any stored integer; these four have names.
  const AVAILABLE := 1
  const IN_PROGRESS := 2
  const SUCCESSFUL := 3
  const FAILED := 4

  datatype LogLine = LogLine(log: string, updatedAt: int)

  datatype StageDetails = StageDetails(
    description: Option<string>,
    expectedDuration: Option<string>,
    logs: seq<LogLine>,
    updatedAt: Option<int>)

  datatype RetrievalTask = RetrievalTask(
    miner: string,
    payloadCID: string,
    carExport: bool,
    schedule: Option<string>,
    scheduleLimit: Option<string>,
    tag: Option<string>,
    maxPrice: Option<int>)

  datatype StorageTask = StorageTask(
    miner: string,
    maxPrice: int,
    size: int,
    startOffset: int,
    fastRetrieval: bool,
    verified: bool,
    schedule: Option<string>,
    scheduleLimit: Option<string>,
    tag: Option<string>,
    retrievalSchedule: Option<string>,
    retrievalScheduleLimit: Option<string>,
    retrievalMaxPrice: Option<int>)

  datatype Task = Task(
    uuid: string,
    status: int,
    workedBy: Option<string>,
    stage: string,
    current: Option<StageDetails>,
    past: Option<seq<StageDetails>>,
    startedAt: Option<int>,
    runCount: int,
    errorMessage: Option<string>,
    retrieval: Option<RetrievalTask>,
    storage: Option<StorageTask>)

  datatype UpdateTask = UpdateTask(
    status: int,
    errorMessage: Option<string>,
    stage: Option<string>,
    current: Option<StageDetails>,
    workedBy: string,
    runCount: int)

  /** A task as it enters the system: never assigned, never run. */
  function New(uuid: string, r: Option<RetrievalTask>, s: Option<StorageTask>): Task {
    Task(uuid, AVAILABLE, Some(""), "", None, None, None, 0, None, r, s)
  }

  function Reset(t: Task): Task {
    Task(t.uuid, AVAILABLE, Some(""), "", None, None, None, 0, None, t.retrieval, t.storage)
  }

  function Assign(t: Task, worker: string, status: int, now: int): Task {
    Task(t.uuid, status, Some(worker), t.stage, t.current, t.past, Some(now), t.runCount, None, t.retrieval, t.storage)
  }

  /** The one-off copy that the scheduler generates from a scheduled task. */
  function MakeRunable(t: Task, uuid: string, runCount: int): Task {
    var r := if t.retrieval.None? then None else
      var rt := t.retrieval.value;
      Some(RetrievalTask(rt.miner, rt.payloadCID, rt.carExport, None, None, rt.tag, rt.maxPrice));
    var s := if t.storage.None? then None else
      var st := t.storage.value;
      Some(StorageTask(st.miner, st.maxPrice, st.size, st.startOffset, st.fastRetrieval, st.verified,
                       None, None, st.tag, None, None, None));
    Task(uuid, AVAILABLE, Some(""), "", None, None, None, runCount, None, r, s)
  }

  predicate HasSchedule(t: Task) {
    if t.retrieval.Some? then t.retrieval.value.schedule.Some? && t.retrieval.value.schedule.value != ""
    else if t.storage.Some? then t.storage.value.schedule.Some? && t.storage.value.schedule.value != ""
    else false
  }

  /** The schedule and its limit; a limit counts only beside a schedule. */
  function Schedule(t: Task): (string, string) {
    if t.retrieval.Some? then
      if t.retrieval.value.schedule.Some? then
        (t.retrieval.value.schedule.value, t.retrieval.value.scheduleLimit.GetOr(""))
      else ("", "")
    else if t.storage.Some? && t.storage.value.schedule.Some? then
      (t.storage.value.schedule.value, t.storage.value.scheduleLimit.GetOr(""))
    else ("", "")
  }

  /** The two readings of the schedule agree, so a task popped because it has a
      schedule is never found unscheduled by the scheduler; a generated copy has none. */
  lemma ScheduleAgrees(t: Task, uuid: string, runCount: int)
    ensures HasSchedule(t) <==> Schedule(t).0 != ""
    ensures !HasSchedule(MakeRunable(t, uuid, runCount))
    ensures Schedule(Reset(t)) == Schedule(t)
  {
  }

  function StageOf(req: UpdateTask): string { req.stage.GetOr("") }

  /** UpdateTask: the stored task after one update request. */
  function Updated(t: Task, req: UpdateTask): Task {
    var stage := StageOf(req);
    var past :=
      if stage != t.stage && t.current.Some? then Some(t.past.GetOr([]) + [t.current.value]) else t.past;
    Task(t.uuid, req.status, Some(req.workedBy), stage, req.current, past, t.startedAt, req.runCount,
         req.errorMessage, t.retrieval, t.storage)
  }

  function OfStage(worker: string, status: int, error: string, stage: string, details: StageDetails, runCount: int)
    : UpdateTask
  {
    UpdateTask(status, if error == "" then None else Some(error), Some(stage), Some(details), worker, runCount)
  }

  function AddLog(d: StageDetails, log: string, now: int): StageDetails {
    StageDetails(d.description, d.expectedDuration, d.logs + [LogLine(log, now)], Some(now))
  }

  // ---------- Stage history over a whole sequence of updates ----------

  function ApplyAll(t: Task, reqs: seq<UpdateTask>): Task {
    if reqs == [] then t else Updated(ApplyAll(t, reqs[..|reqs| - 1]), reqs[|reqs| - 1])
  }

  /** reqs[i] is the last of a maximal run of requests that name the same stage. */
  predicate EndsRun(reqs: seq<UpdateTask>, i: nat)
    requires i < |reqs|
  {
    i + 1 == |reqs| || StageOf(reqs[i]) != StageOf(reqs[i + 1])
  }

  /** The details carried by the run-ending requests among the first n, in order. */
  function RunEnds(reqs: seq<UpdateTask>, n: nat): seq<StageDetails>
    requires n <= |reqs|
  {
    if n == 0 then []
    else RunEnds(reqs, n - 1) + if EndsRun(reqs, n - 1) then reqs[n - 1].current.ToSeq() else []
  }

  function History(t: Task): seq<StageDetails> { t.past.GetOr([]) + t.current.ToSeq() }

  lemma {:induction false} RunEndsPrefix(reqs: seq<UpdateTask>, req: UpdateTask, n: nat)
    requires n < |reqs|
    ensures RunEnds(reqs + [req], n) == RunEnds(reqs, n)
  {
    if n > 0 {
      RunEndsPrefix(reqs, req, n - 1);
      assert EndsRun(reqs + [req], n - 1) == EndsRun(reqs, n - 1);
    }
  }

  lemma {:induction false} ArchiveOfRuns(t: Task, reqs: seq<UpdateTask>)
    requires t.current.None? && reqs != []
    ensures var u := ApplyAll(t, reqs);
      && u.past.GetOr([]) == t.past.GetOr([]) + RunEnds(reqs, |reqs| - 1)
      && u.current == reqs[|reqs| - 1].current
      && u.stage == StageOf(reqs[|reqs| - 1])
  {
    var n := |reqs| - 1;
    var before, last := reqs[..n], reqs[n];
    assert reqs == before + [last];
    if n > 0 {
      ArchiveOfRuns(t, before);
      RunEndsPrefix(before, last, n - 1);
      assert EndsRun(reqs, n - 1) <==> StageOf(before[n - 1]) != StageOf(last);
    }
  }

  /** From a freshly assigned task, any sequence of updates leaves exactly the last
      details of every maximal run of equal stage names: nothing lost, nothing
      repeated, in order. A run whose last request carried no details leaves none. */
  lemma StageHistory(t: Task, reqs: seq<UpdateTask>)
    requires t.current.None? && t.past.None? && reqs != []
    ensures History(ApplyAll(t, reqs)) == RunEnds(reqs, |reqs|)
    ensures (forall i | 0 <= i < |reqs| :: reqs[i].current.Some?) ==> ApplyAll(t, reqs).current.Some?
  {
    hide Updated, ApplyAll;
    ArchiveOfRuns(t, reqs);
  }

  /** Whatever the updates were, the deal and the start time are those of the assignment, and
      everything an update carries is what the last one said. */
  lemma {:induction false} LastUpdateWins(t: Task, reqs: seq<UpdateTask>)
    ensures var u := ApplyAll(t, reqs);
      && u.uuid == t.uuid && u.retrieval == t.retrieval && u.storage == t.storage && u.startedAt == t.startedAt
      && (reqs != [] ==>
           var last := reqs[|reqs| - 1];
           && u.status == last.status && u.errorMessage == last.errorMessage && u.runCount == last.runCount
           && u.workedBy == Some(last.workedBy) && u.stage == StageOf(last) && u.current == last.current)
  {
    if reqs != [] {
      LastUpdateWins(t, reqs[..|reqs| - 1]);
    }
  }

  /** What a worker's report of a stage leaves in the task. */
  lemma ReportedStage(t: Task, worker: string, status: int, error: string, stage: string, details: StageDetails,
                      runCount: int)
    ensures var u := Updated(t, OfStage(worker, status, error, stage, details, runCount));
      && u.workedBy == Some(worker) && u.status == status && u.runCount == runCount
      && u.stage == stage && u.current == Some(details)
      && (if error == "" then u.errorMessage.None? else u.errorMessage == Some(error))
  {
  }

  /** A task nobody has worked on yet: a client's, or a copy made by the scheduler. */
  predicate Fresh(t: Task) {
    t == Task(t.uuid, AVAILABLE, Some(""), "", None, None, None, t.runCount, None, t.retrieval, t.storage)
  }

  /** The deal of a scheduled task without its schedules: what each of its copies is to do. */
  predicate SameDealUnscheduled(t: Task, copy: Task) {
    && copy.retrieval.Some? == t.retrieval.Some? && copy.storage.Some? == t.storage.Some?
    && (t.retrieval.Some? ==>
         copy.retrieval.value == t.retrieval.value.(schedule := None, scheduleLimit := None))
    && (t.storage.Some? ==>
         copy.storage.value == t.storage.value.(schedule := None, scheduleLimit := None, retrievalSchedule := None,
                                                retrievalScheduleLimit := None, retrievalMaxPrice := None))
  }

  lemma CopyHasTheDeal(t: Task, uuid: string, runCount: int)
    ensures SameDealUnscheduled(t, MakeRunable(t, uuid, runCount))
  {
  }

  lemma FreshTasks(t: Task, uuid: string, r: Option<RetrievalTask>, s: Option<StorageTask>, runCount: int)
    ensures var n := New(uuid, r, s);
      Fresh(n) && n.runCount == 0 && n.uuid == uuid && n.retrieval == r && n.storage == s
    ensures var copy := MakeRunable(t, uuid, runCount); Fresh(copy) && copy.runCount == runCount && copy.uuid == uuid
  {
  }
}
