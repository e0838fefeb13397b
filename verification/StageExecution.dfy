/** executeStage (tasks/model.go): the common stages, what is sent to the controller
    while their steps run, and what the stored history holds afterwards. */
module StageExecution {
  import opened Wrappers
  import opened Tasks

  /** CommonStages: stage name to description and expected duration. */
  const COMMON_STAGES: map<string, (string, string)> := map[
    "MinerOnline" := ("Miner is online", "a few seconds"),
    "QueryAsk" := ("Miner responds to query ask", "a few seconds"),
    "CheckPrice" := ("Miner meets price criteria", ""),
    "ClientImport" := ("Importing data into Lotus", "a few minutes"),
    "ProposeDeal" := ("Send proposal to miner", "")
  ]

  /** What one step does when it is run: the lines it logs, its error if any, and the
      line logged for it when it succeeds. */
  datatype StageStep = StageStep(logs: seq<string>, error: Option<string>, success: string)

  /** Everything outside the function: readings of the clock, whether the context is
      cancelled before step i, and whether the k-th update is refused. */
  datatype Outside = Outside(now: nat -> int, cancelled: nat -> bool, refused: nat -> bool)

  datatype Outcome =
    | Done
    | UnknownStage
    | Refused(k: nat)
    | Cancelled(i: nat)
    | StepFailed(i: nat, error: string)

  function Texts(logs: seq<LogLine>): seq<string> {
    seq(|logs|, i requires 0 <= i < |logs| => logs[i].log)
  }

  lemma TextsAppend(a: seq<LogLine>, b: seq<LogLine>)
    ensures Texts(a + b) == Texts(a) + Texts(b)
  {
  }

  /** The log of a stage whose first n steps succeeded. */
  function LogsOfSteps(steps: seq<StageStep>, n: nat): seq<string>
    requires n <= |steps|
  {
    if n == 0 then [] else LogsOfSteps(steps, n - 1) + steps[n - 1].logs + [steps[n - 1].success]
  }

  /** Line m of the log was written at reading m + 1 of the clock, and the details say when the
      last line was. */
  predicate Timed(d: StageDetails, now: nat -> int) {
    && (forall m | 0 <= m < |d.logs| :: d.logs[m].updatedAt == now(m + 1))
    && d.updatedAt == Some(now(|d.logs|))
  }

  /** The closure handed to a step: each line it logs is added to the details. */
  method RunStep(details: StageDetails, step: StageStep, now: nat -> int, clock: nat)
    returns (updated: StageDetails, clock': nat)
    requires Timed(details, now) && clock == |details.logs| + 1
    ensures Timed(updated, now) && clock' == |updated.logs| + 1
    ensures Texts(updated.logs) == Texts(details.logs) + step.logs
    ensures details.logs <= updated.logs
    ensures updated.description == details.description && updated.expectedDuration == details.expectedDuration
  {
    updated, clock' := details, clock;
    for l := 0 to |step.logs|
      invariant Timed(updated, now) && clock' == |updated.logs| + 1
      invariant Texts(updated.logs) == Texts(details.logs) + step.logs[..l]
      invariant details.logs <= updated.logs
      invariant updated.description == details.description && updated.expectedDuration == details.expectedDuration
    {
      TextsAppend(updated.logs, [LogLine(step.logs[l], now(clock'))]);
      updated := AddLog(updated, step.logs[l], now(clock'));
      clock' := clock' + 1;
    }
  }

  /** The details that reached the controller so far are those of the stage, the k-th
      holding exactly the logs of the first k steps, each extending the one before. */
  predicate SentInOrder(about: (string, string), steps: seq<StageStep>, sent: seq<StageDetails>, now: nat -> int) {
    && |sent| <= |steps| + 1
    && (forall k | 0 <= k < |sent| ::
         && Texts(sent[k].logs) == LogsOfSteps(steps, k)
         && sent[k].description == Some(about.0)
         && sent[k].expectedDuration == Some(about.1)
         && Timed(sent[k], now))
    && (forall k | 0 < k < |sent| :: sent[k - 1].logs <= sent[k].logs)
  }

  /** A step's successful logging extends what was sent by one entry. */
  lemma SendNext(about: (string, string), steps: seq<StageStep>, sent: seq<StageDetails>,
                 logged: StageDetails, now: nat -> int)
    requires SentInOrder(about, steps, sent, now) && 0 < |sent| <= |steps| && Timed(logged, now)
    requires var last, step := sent[|sent| - 1], steps[|sent| - 1];
      && Texts(logged.logs) == Texts(last.logs) + step.logs
      && last.logs <= logged.logs
      && logged.description == last.description && logged.expectedDuration == last.expectedDuration
    ensures SentInOrder(about, steps, sent + [AddLog(logged, steps[|sent| - 1].success, now(|logged.logs| + 1))], now)
  {
  }

  lemma LastIsTimed(about: (string, string), steps: seq<StageStep>, sent: seq<StageDetails>, now: nat -> int)
    requires SentInOrder(about, steps, sent, now) && sent != []
    ensures Timed(sent[|sent| - 1], now)
  {
  }

  /** The loop of executeStage, entered once the bare details were accepted. */
  method RunSteps(about: (string, string), steps: seq<StageStep>, out: Outside, start: StageDetails)
    returns (sent: seq<StageDetails>, outcome: Outcome)
    requires SentInOrder(about, steps, [start], out.now) && !out.refused(0)
    ensures SentInOrder(about, steps, sent, out.now) && Faithful(steps, out, sent, outcome)
  {
    hide SentInOrder, Timed, Texts, LogsOfSteps;
    LastIsTimed(about, steps, [start], out.now);
    var clock: nat := |start.logs| + 1;
    var details := start;
    sent := [start];
    for i := 0 to |steps|
      invariant |sent| == i + 1 && sent[i] == details
      invariant SentInOrder(about, steps, sent, out.now) && Timed(details, out.now) && clock == |details.logs| + 1
      invariant Accepted(out, sent, steps)
    {
      if out.cancelled(i) {
        return sent, Cancelled(i);
      }
      var logged, clock' := RunStep(details, steps[i], out.now, clock);
      clock := clock';
      if steps[i].error.Some? {
        return sent, StepFailed(i, steps[i].error.value);
      }
      SendNext(about, steps, sent, logged, out.now);
      details := AddLog(logged, steps[i].success, out.now(clock));
      clock := clock + 1;
      if out.refused(i + 1) {
        return sent, Refused(i + 1);
      }
      sent := sent + [details];
      LastIsTimed(about, steps, sent, out.now);
    }
    return sent, Done;
  }

  /** No update that was sent was refused, and no step behind them was cancelled or failed. */
  predicate Accepted(out: Outside, sent: seq<StageDetails>, steps: seq<StageStep>) {
    && |sent| <= |steps| + 1
    && (forall k: nat | k < |sent| :: !out.refused(k))
    && (forall j: nat | j + 1 < |sent| :: !out.cancelled(j) && steps[j].error.None?)
  }

  /** The outcome names the first thing that went wrong, and how many updates were sent before it. */
  predicate Faithful(steps: seq<StageStep>, out: Outside, sent: seq<StageDetails>, outcome: Outcome) {
    && Accepted(out, sent, steps)
    && match outcome
       case Done => |sent| == |steps| + 1
       case UnknownStage => false
       case Refused(k) =>
         |sent| == k <= |steps| && out.refused(k) && (k > 0 ==> !out.cancelled(k - 1) && steps[k - 1].error.None?)
       case Cancelled(i) => |sent| == i + 1 && i < |steps| && out.cancelled(i)
       case StepFailed(i, error) =>
         |sent| == i + 1 && i < |steps| && !out.cancelled(i) && steps[i].error == Some(error)
  }

  method ExecuteStage(stage: string, steps: seq<StageStep>, out: Outside)
    returns (sent: seq<StageDetails>, outcome: Outcome)
    ensures stage !in COMMON_STAGES ==> outcome == UnknownStage && sent == []
    ensures stage in COMMON_STAGES ==>
      SentInOrder(COMMON_STAGES[stage], steps, sent, out.now) && Faithful(steps, out, sent, outcome)
  {
    sent := [];
    if stage !in COMMON_STAGES {
      return sent, UnknownStage;
    }
    var about := COMMON_STAGES[stage];
    var details := StageDetails(Some(about.0), Some(about.1), [], Some(out.now(0)));
    if out.refused(0) {
      return sent, Refused(0);
    }
    sent, outcome := RunSteps(about, steps, out, details);
  }

  /** The update requests that carry the details of a stage in progress. */
  function Requests(worker: string, stage: string, sent: seq<StageDetails>, runCount: int): seq<UpdateTask> {
    seq(|sent|, k requires 0 <= k < |sent| => OfStage(worker, IN_PROGRESS, "", stage, sent[k], runCount))
  }

  /** While the stage is in progress the controller shows its name and its last details, under
      the worker's name and run count and without an error; what went before stays archived. */
  lemma {:induction false} OneStageArchive(t: Task, worker: string, stage: string, sent: seq<StageDetails>,
                                           runCount: int)
    requires sent != []
    ensures var u := ApplyAll(t, Requests(worker, stage, sent, runCount));
      && u.stage == stage
      && u.current == Some(sent[|sent| - 1])
      && u.status == IN_PROGRESS && u.workedBy == Some(worker) && u.runCount == runCount && u.errorMessage.None?
      && u.past.GetOr([]) == t.past.GetOr([]) + if t.stage != stage then t.current.ToSeq() else []
  {
    var reqs := Requests(worker, stage, sent, runCount);
    var n := |reqs| - 1;
    if n > 0 {
      OneStageArchive(t, worker, stage, sent[..n], runCount);
      assert Requests(worker, stage, sent[..n], runCount) == reqs[..n];
    } else {
      assert reqs[..n] == [];
    }
  }

  /** The stage and the store composed. Once a stage has sent at least its first
      details, the next update that names another stage archives one entry for it, in
      place of or right after what was current before, holding each completed step's
      logs and then its success line, and nothing of a step that failed or never ran. */
  lemma StageIsArchived(t: Task, worker: string, stage: string, about: (string, string), steps: seq<StageStep>,
                        sent: seq<StageDetails>, now: nat -> int, runCount: int, next: UpdateTask)
    requires SentInOrder(about, steps, sent, now) && sent != []
    requires StageOf(next) != stage
    ensures var u := Updated(ApplyAll(t, Requests(worker, stage, sent, runCount)), next);
      var archived := u.past.GetOr([]);
      var kept := if t.stage == stage then t.past.GetOr([]) else History(t);
      && |archived| == |kept| + 1
      && archived[..|kept|] == kept
      && Texts(archived[|kept|].logs) == LogsOfSteps(steps, |sent| - 1)
  {
    OneStageArchive(t, worker, stage, sent, runCount);
    var u := Updated(ApplyAll(t, Requests(worker, stage, sent, runCount)), next);
    var kept := if t.stage == stage then t.past.GetOr([]) else History(t);
    assert u.past.GetOr([]) == kept + [sent[|sent| - 1]];
  }
}
