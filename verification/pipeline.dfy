/** The pipeline orchestrator of the application: the four-stage progress
    list, the top-level status, the optional result and the optional error
    message, and the transitions `updatePipelineStep`, the stage reset,
    `handleClassify` and `resetForm`.

    React applies the state setters called between two `await`s as one
    batch, so a run of `handleClassify` is a list of five segments of
    updates, and the user observes the state after each segment. Timers are
    left out; the classifier call is its `Outcome`. */
module Pipeline {
  import opened Wrappers
  import opened Whitespace
  import opened Classifier

  datatype StageStatus = Pending | Active | Completed

  /** `ProcessingStep`. */
  datatype Stage = Stage(name: string, status: StageStatus)

  /** `ClassificationStatus`. */
  datatype Status = Idle | Loading | Success | Error

  /** The component state the orchestrator owns. */
  datatype AppState = AppState(
    input: string,
    status: Status,
    result: Option<ClassificationResult>,
    error: Option<string>,
    stages: seq<Stage>)

  const StageNames: seq<string> :=
    ["Data Validation", "Text Preprocessing", "Feature Extraction (TF-IDF)", "Model Inference"]

  /** Shown when a thrown error carries no message. */
  const FallbackMessage := "An unexpected error occurred during analysis."

  function InitialStages(): seq<Stage> {
    [Stage(StageNames[0], Pending), Stage(StageNames[1], Pending),
     Stage(StageNames[2], Pending), Stage(StageNames[3], Pending)]
  }

  function Initial(): AppState {
    AppState("", Idle, None, None, InitialStages())
  }

  // ------------------------------------------------------------ stage lists

  /** Two stage lists name the same stages in the same order. */
  predicate SameNames(a: seq<Stage>, b: seq<Stage>) {
    |a| == |b| && forall i :: 0 <= i < |a| ==> a[i].name == b[i].name
  }

  /** The first `done` stages are completed and the rest pending. */
  predicate Settled(stages: seq<Stage>, done: nat) {
    forall i :: 0 <= i < |stages| ==> stages[i].status == (if i < done then Completed else Pending)
  }

  /** Stage `k` is running: the stages before it are completed, the ones
      after it pending. */
  predicate RunningAt(stages: seq<Stage>, k: nat) {
    k < |stages| &&
    forall i :: 0 <= i < |stages| ==>
      stages[i].status == (if i < k then Completed else if i == k then Active else Pending)
  }

  function Rank(st: StageStatus): nat {
    match st
    case Pending => 0
    case Active => 1
    case Completed => 2
  }

  /** The list reads completed*, then at most one active, then pending*. */
  predicate Ordered(stages: seq<Stage>) {
    forall i, j :: 0 <= i < j < |stages| ==>
      Rank(stages[i].status) >= Rank(stages[j].status) &&
      !(stages[i].status == Active && stages[j].status == Active)
  }

  /** `updatePipelineStep(index, status)`: the stage at `index` takes the new
      status; an index outside the list changes nothing. */
  function UpdateStage(stages: seq<Stage>, index: int, status: StageStatus): (r: seq<Stage>)
    ensures SameNames(r, stages)
    ensures 0 <= index < |r| ==> r[index].status == status
    ensures forall i :: 0 <= i < |r| && i != index ==> r[i] == stages[i]
    ensures !(0 <= index < |stages|) ==> r == stages
  {
    seq(|stages|, i requires 0 <= i < |stages| =>
      if i == index then stages[i].(status := status) else stages[i])
  }

  /** The map that sets every stage back to pending. */
  function ResetStages(stages: seq<Stage>): (r: seq<Stage>)
    ensures SameNames(r, stages)
    ensures Settled(r, 0)
  {
    seq(|stages|, i requires 0 <= i < |stages| => stages[i].(status := Pending))
  }

  /** Setting a stage back to its previous status undoes an update. */
  lemma UpdateStageRestore(stages: seq<Stage>, index: int, status: StageStatus)
    requires 0 <= index < |stages|
    ensures UpdateStage(UpdateStage(stages, index, status), index, stages[index].status) == stages
  {
    var r := UpdateStage(UpdateStage(stages, index, status), index, stages[index].status);
    assert forall i :: 0 <= i < |stages| ==> r[i] == stages[i];
  }

  /** A later update of the same stage overrides an earlier one. */
  lemma UpdateStageOverride(stages: seq<Stage>, index: int, a: StageStatus, b: StageStatus)
    ensures UpdateStage(UpdateStage(stages, index, a), index, b) == UpdateStage(stages, index, b)
  {
    var l := UpdateStage(UpdateStage(stages, index, a), index, b);
    var r := UpdateStage(stages, index, b);
    assert forall i :: 0 <= i < |stages| ==> l[i] == r[i];
  }

  /** Updates of different stages commute. */
  lemma UpdateStageCommute(stages: seq<Stage>, i: int, a: StageStatus, j: int, b: StageStatus)
    requires i != j
    ensures UpdateStage(UpdateStage(stages, i, a), j, b) == UpdateStage(UpdateStage(stages, j, b), i, a)
  {
    var l := UpdateStage(UpdateStage(stages, i, a), j, b);
    var r := UpdateStage(UpdateStage(stages, j, b), i, a);
    assert forall k :: 0 <= k < |stages| ==> l[k] == r[k];
  }

  /** A reset forgets every earlier update, so resetting twice is resetting
      once. */
  lemma ResetForgetsUpdate(stages: seq<Stage>, index: int, status: StageStatus)
    ensures ResetStages(UpdateStage(stages, index, status)) == ResetStages(stages)
    ensures ResetStages(ResetStages(stages)) == ResetStages(stages)
  {
    var a := ResetStages(UpdateStage(stages, index, status));
    var b := ResetStages(stages);
    assert forall i :: 0 <= i < |stages| ==> a[i] == b[i];
    ResetStagesIdempotent(stages);
  }

  /** Resetting twice is resetting once. */
  lemma ResetStagesIdempotent(stages: seq<Stage>)
    ensures ResetStages(ResetStages(stages)) == ResetStages(stages)
  {
    var b := ResetStages(stages);
    assert forall i :: 0 <= i < |stages| ==> ResetStages(b)[i] == b[i];
  }

  /** Completing the running stage settles the stages up to it. */
  lemma CompleteRunning(stages: seq<Stage>, k: nat)
    requires RunningAt(stages, k)
    ensures Settled(UpdateStage(stages, k, Completed), k + 1)
  {
  }

  /** Activating the first pending stage makes it the running one. */
  lemma StartNext(stages: seq<Stage>, k: nat)
    requires Settled(stages, k) && k < |stages|
    ensures RunningAt(UpdateStage(stages, k, Active), k)
  {
  }

  lemma SettledOrdered(stages: seq<Stage>, done: nat)
    requires Settled(stages, done)
    ensures Ordered(stages)
  {
  }

  lemma RunningOrdered(stages: seq<Stage>, k: nat)
    requires RunningAt(stages, k)
    ensures Ordered(stages)
  {
  }

  /** An ordered list has at most one active stage. */
  lemma OrderedAtMostOneActive(stages: seq<Stage>, i: int, j: int)
    requires Ordered(stages)
    requires 0 <= i < |stages| && 0 <= j < |stages|
    requires stages[i].status == Active && stages[j].status == Active
    ensures i == j
  {
  }

  // --------------------------------------------------------- state setters

  /** One state setter call. */
  datatype Update =
    | SetInput(text: string)
    | SetStatus(status: Status)
    | SetResult(result: Option<ClassificationResult>)
    | SetError(error: Option<string>)
    | ResetStageStatuses
    | SetStage(index: int, stageStatus: StageStatus)

  function Apply(s: AppState, u: Update): AppState {
    match u
    case SetInput(t) => s.(input := t)
    case SetStatus(st) => s.(status := st)
    case SetResult(r) => s.(result := r)
    case SetError(e) => s.(error := e)
    case ResetStageStatuses => s.(stages := ResetStages(s.stages))
    case SetStage(i, st) => s.(stages := UpdateStage(s.stages, i, st))
  }

  /** A batch of setter calls, applied in order. */
  function ApplyAll(s: AppState, us: seq<Update>): AppState
    decreases |us|
  {
    if |us| == 0 then s else ApplyAll(Apply(s, us[0]), us[1..])
  }

  // ------------------------------------------------------- handleClassify

  /** The input guard `!inputText.trim()`. */
  predicate IsBlank(input: string) {
    |Trim(input)| == 0
  }

  /** `err.message || 'An unexpected error occurred during analysis.'`. */
  function ShownError(message: string): (e: string)
    ensures |e| > 0
    ensures message != "" ==> e == message
    ensures message == "" ==> e == FallbackMessage
  {
    if message == "" then FallbackMessage else message
  }

  /** Batch `k` of one run of `handleClassify`: the synchronous start, one
      batch after the `await` of each timed stage, and the batch after the
      classifier call. */
  function RunBatch(outcome: Outcome, k: nat): (us: seq<Update>)
    requires k < 5
    ensures forall j :: 0 <= j < |us| ==> !us[j].SetInput?
    ensures forall j :: 0 <= j < |us| && us[j].SetStage? ==>
      k - 1 <= us[j].index <= k && (us[j].stageStatus == Active <==> us[j].index == k)
    ensures ResetStageStatuses in us <==> k == 0
    ensures k == 4 && outcome.Fail? ==> forall j :: 0 <= j < |us| ==> !us[j].SetStage?
  {
    if k == 0 then [SetStatus(Loading), SetError(None), SetResult(None), ResetStageStatuses, SetStage(0, Active)]
    else if k < 4 then [SetStage(k - 1, Completed), SetStage(k, Active)]
    else
      match outcome
      case Ok(r) => [SetStage(3, Completed), SetResult(Some(r)), SetStatus(Success)]
      case Fail(m) => [SetError(Some(ShownError(m))), SetStatus(Error)]
  }

  /** The state of a run started in `s` once batch `k` has been applied. */
  function AfterBatch(s: AppState, outcome: Outcome, k: nat): (t: AppState)
    requires k < 5
    ensures t.input == s.input && SameNames(t.stages, s.stages)
    decreases k
  {
    var before := if k == 0 then s else AfterBatch(s, outcome, k - 1);
    ApplyAllKeeps(before, RunBatch(outcome, k));
    ApplyAll(before, RunBatch(outcome, k))
  }

  /** Setters that do not set the input keep it, and no setter renames or
      drops a stage. */
  lemma {:induction false} ApplyAllKeeps(s: AppState, us: seq<Update>)
    requires forall j :: 0 <= j < |us| ==> !us[j].SetInput?
    ensures ApplyAll(s, us).input == s.input
    ensures SameNames(ApplyAll(s, us).stages, s.stages)
    decreases |us|
  {
    if |us| > 0 {
      ApplyAllKeeps(Apply(s, us[0]), us[1..]);
    }
  }

  /** The states the user observes during one `handleClassify`; none when
      the input is blank. */
  function ClassifyTrace(s: AppState, outcome: Outcome): (trace: seq<AppState>)
    ensures IsBlank(s.input) <==> |trace| == 0
    ensures !IsBlank(s.input) ==> |trace| == 5
  {
    if IsBlank(s.input) then [] else seq(5, k requires 0 <= k < 5 => AfterBatch(s, outcome, k))
  }

  /** `handleClassify`, seen when it has finished. */
  function HandleClassify(s: AppState, outcome: Outcome): (r: AppState)
    requires |s.stages| == |StageNames|
    ensures IsBlank(s.input) ==> r == s
    ensures !IsBlank(s.input) ==> r.input == s.input && SameNames(r.stages, s.stages)
    ensures !IsBlank(s.input) && outcome.Ok? ==>
      r.status == Success && r.result == Some(outcome.result) && r.error == None
      && Settled(r.stages, |StageNames|)
    ensures !IsBlank(s.input) && outcome.Fail? ==>
      r.status == Error && r.result == None && r.error == Some(ShownError(outcome.message))
      && RunningAt(r.stages, 3)
  {
    if IsBlank(s.input) then s
    else
      ClassifyTraceShape(s, outcome);
      ClassifyTrace(s, outcome)[4]
  }

  /** Snapshot `t` of a run started in `s` while stage `k` is running:
      loading, no result, no error, the stages before `k` completed and the
      ones after it pending. */
  predicate RunningSnapshot(t: AppState, s: AppState, k: nat) {
    t.input == s.input && t.status == Loading && t.result == None && t.error == None
    && SameNames(t.stages, s.stages) && RunningAt(t.stages, k)
  }

  /** The last snapshot of a run started in `s`: the outcome recorded. */
  predicate FinalSnapshot(t: AppState, s: AppState, outcome: Outcome) {
    t.input == s.input && SameNames(t.stages, s.stages)
    && (outcome.Ok? ==>
         t.status == Success && t.result == Some(outcome.result)
         && t.error == None && Settled(t.stages, |StageNames|))
    && (outcome.Fail? ==>
         t.status == Error && t.result == None
         && t.error == Some(ShownError(outcome.message)) && RunningAt(t.stages, 3))
  }

  /** The stages advance strictly in order: after batch `k < 4` stage `k` is
      the one running; the last batch records the outcome. */
  lemma ClassifyTraceShape(s: AppState, outcome: Outcome)
    requires |s.stages| == |StageNames| && !IsBlank(s.input)
    ensures forall k :: 0 <= k < 4 ==> RunningSnapshot(ClassifyTrace(s, outcome)[k], s, k)
    ensures FinalSnapshot(ClassifyTrace(s, outcome)[4], s, outcome)
  {
    var trace := ClassifyTrace(s, outcome);
    forall k | 0 <= k < 4
      ensures RunningSnapshot(trace[k], s, k)
    {
      TraceIsAfterBatch(s, outcome, k);
      RunningAfter(s, outcome, k);
    }
    TraceIsAfterBatch(s, outcome, 4);
    FinalAfter(s, outcome);
  }

  lemma TraceIsAfterBatch(s: AppState, outcome: Outcome, k: nat)
    requires !IsBlank(s.input) && k < 5
    ensures ClassifyTrace(s, outcome)[k] == AfterBatch(s, outcome, k)
  {
  }

  lemma FinalAfter(s: AppState, outcome: Outcome)
    requires |s.stages| == |StageNames|
    ensures FinalSnapshot(AfterBatch(s, outcome, 4), s, outcome)
  {
    var t := AfterBatch(s, outcome, 3);
    RunningAfter(s, outcome, 3);
    assert AfterBatch(s, outcome, 4) == ApplyAll(t, RunBatch(outcome, 4));
    LastBatch(t, s, outcome);
  }

  lemma {:induction false} RunningAfter(s: AppState, outcome: Outcome, k: nat)
    requires |s.stages| == |StageNames| && k < 4
    ensures RunningSnapshot(AfterBatch(s, outcome, k), s, k)
    decreases k
  {
    if k == 0 {
      FirstBatch(s, outcome);
    } else {
      RunningAfter(s, outcome, k - 1);
      NextBatch(AfterBatch(s, outcome, k - 1), s, k - 1, outcome);
    }
  }

  lemma FirstBatch(s: AppState, outcome: Outcome)
    requires |s.stages| == |StageNames|
    ensures RunningSnapshot(ApplyAll(s, RunBatch(outcome, 0)), s, 0)
  {
    assert RunBatch(outcome, 0) == [SetStatus(Loading), SetError(None), SetResult(None), ResetStageStatuses, SetStage(0, Active)];
    var t := ApplyAll(s, [SetStatus(Loading), SetError(None), SetResult(None), ResetStageStatuses, SetStage(0, Active)]);
    var reset := ResetStages(s.stages);
    ApplyAllUnfold5(s, SetStatus(Loading), SetError(None), SetResult(None), ResetStageStatuses, SetStage(0, Active));
    StartNext(reset, 0);
  }

  lemma ApplyAllCons(s: AppState, u: Update, us: seq<Update>)
    ensures ApplyAll(s, [u] + us) == ApplyAll(Apply(s, u), us)
  {
    assert ([u] + us)[1..] == us;
  }

  lemma ApplyAllUnfold2(s: AppState, a: Update, b: Update)
    ensures ApplyAll(s, [a, b]) == Apply(Apply(s, a), b)
  {
    ApplyAllCons(s, a, [b]);
    ApplyAllCons(Apply(s, a), b, []);
  }

  lemma ApplyAllUnfold3(s: AppState, a: Update, b: Update, c: Update)
    ensures ApplyAll(s, [a, b, c]) == Apply(Apply(Apply(s, a), b), c)
  {
    ApplyAllCons(s, a, [b, c]);
    ApplyAllUnfold2(Apply(s, a), b, c);
  }

  lemma ApplyAllUnfold4(s: AppState, a: Update, b: Update, c: Update, d: Update)
    ensures ApplyAll(s, [a, b, c, d]) == Apply(Apply(Apply(Apply(s, a), b), c), d)
  {
    ApplyAllCons(s, a, [b, c, d]);
    ApplyAllUnfold3(Apply(s, a), b, c, d);
  }

  lemma ApplyAllUnfold5(s: AppState, a: Update, b: Update, c: Update, d: Update, e: Update)
    ensures ApplyAll(s, [a, b, c, d, e]) == Apply(Apply(Apply(Apply(Apply(s, a), b), c), d), e)
  {
    ApplyAllCons(s, a, [b, c, d, e]);
    ApplyAllUnfold4(Apply(s, a), b, c, d, e);
  }

  /** The batch after the `await` of stage `k` completes it and starts the
      next one. */
  lemma NextBatch(t: AppState, s: AppState, k: nat, outcome: Outcome)
    requires k < 3 && |s.stages| == |StageNames| && RunningSnapshot(t, s, k)
    ensures RunningSnapshot(ApplyAll(t, RunBatch(outcome, k + 1)), s, k + 1)
  {
    assert RunBatch(outcome, k + 1) == [SetStage(k, Completed), SetStage(k + 1, Active)];
    ApplyAllUnfold2(t, SetStage(k, Completed), SetStage(k + 1, Active));
    CompleteRunning(t.stages, k);
    StartNext(UpdateStage(t.stages, k, Completed), k + 1);
  }

  /** The batch after the classifier call records its outcome. */
  lemma LastBatch(t: AppState, s: AppState, outcome: Outcome)
    requires |s.stages| == |StageNames| && RunningSnapshot(t, s, 3)
    ensures FinalSnapshot(ApplyAll(t, RunBatch(outcome, 4)), s, outcome)
  {
    match outcome
    case Ok(r) =>
      assert RunBatch(outcome, 4) == [SetStage(3, Completed), SetResult(Some(r)), SetStatus(Success)];
      ApplyAllUnfold3(t, SetStage(3, Completed), SetResult(Some(r)), SetStatus(Success));
      CompleteRunning(t.stages, 3);
    case Fail(m) =>
      assert RunBatch(outcome, 4) == [SetError(Some(ShownError(m))), SetStatus(Error)];
      ApplyAllUnfold2(t, SetError(Some(ShownError(m))), SetStatus(Error));
  }

  // ------------------------------------------------------------ resetForm

  /** `resetForm`: empties the input, drops the result, returns to idle and
      sets every stage pending; the error message is left as it was. */
  function ResetForm(s: AppState): (r: AppState)
    ensures r.input == "" && r.status == Idle && r.result == None
    ensures r.error == s.error
    ensures SameNames(r.stages, s.stages) && Settled(r.stages, 0)
  {
    ApplyAll(s, [SetInput(""), SetResult(None), SetStatus(Idle), ResetStageStatuses])
  }

  /** Clearing twice is clearing once, and the initial state is already
      clear. */
  lemma ResetFormIdempotent(s: AppState)
    ensures ResetForm(ResetForm(s)) == ResetForm(s)
    ensures ResetForm(Initial()) == Initial()
  {
    ResetStagesIdempotent(s.stages);
    var i := Initial().stages;
    assert ResetStages(i) == i by {
      assert forall k :: 0 <= k < |i| ==> ResetStages(i)[k] == i[k];
    }
  }

  // ------------------------------------------------------ user interaction

  /** What the user can do: type, press "Run Prediction" (the classifier
      then answers `outcome`), or press "Clear". */
  datatype Event = Edit(text: string) | Classify(outcome: Outcome) | Clear

  /** The states the user observes while one event is handled. The text
      area and both buttons are disabled while loading, and the prediction
      button also while the input is blank. */
  function StepTrace(s: AppState, e: Event): (trace: seq<AppState>)
    ensures s.status == Loading ==> |trace| == 0
    ensures e.Classify? && IsBlank(s.input) ==> |trace| == 0
    ensures e.Classify? && s.status != Loading && !IsBlank(s.input) && |s.stages| == |StageNames| ==>
      |trace| == 5 && trace[|trace| - 1] == HandleClassify(s, e.outcome)
    ensures !e.Classify? && s.status != Loading ==> |trace| == 1
    ensures e.Edit? && s.status != Loading ==>
      trace[0].input == e.text && trace[0].(input := s.input) == s
    ensures e.Clear? && s.status != Loading ==> trace[0] == ResetForm(s)
  {
    if s.status == Loading then []
    else
      match e
      case Edit(t) => [s.(input := t)]
      case Classify(outcome) => if IsBlank(s.input) then [] else ClassifyTrace(s, outcome)
      case Clear => [ResetForm(s)]
  }

  /** While a prediction runs, the first four states the user sees have
      stage k active, the stages before it completed and those after it
      pending, with status loading and no result or error. */
  lemma StepTraceRuns(s: AppState, e: Event)
    requires e.Classify? && s.status != Loading && !IsBlank(s.input) && |s.stages| == |StageNames|
    ensures forall k :: 0 <= k < 4 ==> RunningSnapshot(StepTrace(s, e)[k], s, k)
  {
    ClassifyTraceShape(s, e.outcome);
  }

  /** The reachable-state invariant: the four fixed stages in order, a
      result exactly on success, a message on error, never both a result
      and an error, and a stage list that reads completed*, active?,
      pending*. */
  predicate Inv(s: AppState) {
    |s.stages| == |StageNames|
    && (forall i :: 0 <= i < |s.stages| ==> s.stages[i].name == StageNames[i])
    && (s.result.Some? <==> s.status == Success)
    && (s.status == Error ==> s.error.Some? && |s.error.value| > 0)
    && (s.result.Some? ==> s.error.None?)
    && Ordered(s.stages)
  }

  lemma InitialInv()
    ensures Inv(Initial())
  {
    SettledOrdered(Initial().stages, 0);
  }

  /** Every state observed during a run of `handleClassify` keeps the
      invariant. */
  lemma ClassifyTraceInv(s: AppState, outcome: Outcome)
    requires Inv(s)
    ensures forall k :: 0 <= k < |ClassifyTrace(s, outcome)| ==> Inv(ClassifyTrace(s, outcome)[k])
  {
    if !IsBlank(s.input) {
      var trace := ClassifyTrace(s, outcome);
      ClassifyTraceShape(s, outcome);
      forall k | 0 <= k < 5
        ensures Inv(trace[k])
      {
        if k < 4 {
          RunningSnapshotInv(trace[k], s, k);
        } else {
          FinalSnapshotInv(trace[k], s, outcome);
        }
      }
    }
  }

  lemma RunningSnapshotInv(t: AppState, s: AppState, k: nat)
    requires Inv(s) && RunningSnapshot(t, s, k)
    ensures Inv(t)
  {
    RunningOrdered(t.stages, k);
  }

  lemma FinalSnapshotInv(t: AppState, s: AppState, outcome: Outcome)
    requires Inv(s) && FinalSnapshot(t, s, outcome)
    ensures Inv(t)
  {
    if outcome.Ok? {
      SettledOrdered(t.stages, |StageNames|);
    } else {
      RunningOrdered(t.stages, 3);
    }
  }

  /** Clearing the form keeps the invariant. */
  lemma ResetFormInv(s: AppState)
    requires Inv(s)
    ensures Inv(ResetForm(s))
  {
    SettledOrdered(ResetForm(s).stages, 0);
  }

  /** Every state observed while an event is handled keeps the invariant. */
  lemma StepTraceInv(s: AppState, e: Event)
    requires Inv(s)
    ensures forall k :: 0 <= k < |StepTrace(s, e)| ==> Inv(StepTrace(s, e)[k])
  {
    if s.status != Loading {
      match e
      case Edit(t) =>
      case Classify(outcome) => ClassifyTraceInv(s, outcome);
      case Clear => ResetFormInv(s);
    }
  }

  /** The state after an event: the last one observed, or the state itself
      when the event is ignored. */
  function Step(s: AppState, e: Event): AppState {
    var trace := StepTrace(s, e);
    if |trace| == 0 then s else trace[|trace| - 1]
  }

  /** Every state observed while `events` are handled one after another. */
  function Observe(s: AppState, events: seq<Event>): seq<AppState>
    decreases |events|
  {
    if |events| == 0 then []
    else StepTrace(s, events[0]) + Observe(Step(s, events[0]), events[1..])
  }

  /** The invariant holds in every state the application can reach. */
  lemma {:induction false} ObserveInv(s: AppState, events: seq<Event>)
    requires Inv(s)
    ensures forall k :: 0 <= k < |Observe(s, events)| ==> Inv(Observe(s, events)[k])
    decreases |events|
  {
    if |events| > 0 {
      var head := StepTrace(s, events[0]);
      var rest := Observe(Step(s, events[0]), events[1..]);
      StepTraceInv(s, events[0]);
      assert Inv(Step(s, events[0]));
      ObserveInv(Step(s, events[0]), events[1..]);
      assert Observe(s, events) == head + rest;
      forall k | 0 <= k < |head + rest|
        ensures Inv((head + rest)[k])
      {
        if k < |head| {
          assert (head + rest)[k] == head[k];
        } else {
          assert (head + rest)[k] == rest[k - |head|];
        }
      }
    }
  }

  /** Typing a word and pressing "Run Prediction" from the initial state
      shows the edit and the five states of a run, ending in the classifier's
      outcome: the invariant above is not about an unreachable corner. */
  lemma TypeThenClassify(outcome: Outcome)
    ensures var obs := Observe(Initial(), [Edit("a"), Classify(outcome)]);
      && |obs| == 6
      && obs[5].input == "a"
      && (outcome.Ok? ==> obs[5].status == Success && obs[5].result == Some(outcome.result))
      && (outcome.Fail? ==> obs[5].status == Error && obs[5].error == Some(ShownError(outcome.message)))
  {
    var events := [Edit("a"), Classify(outcome)];
    var s := Initial().(input := "a");
    assert !IsBlank("a") by { assert !Chars.IsWs("a"[0]); }
    assert Step(Initial(), events[0]) == s;
    var run := StepTrace(s, events[1]);
    assert |run| == 5 && run[4] == HandleClassify(s, outcome);
    assert Observe(Step(s, events[1]), events[1..][1..]) == [];
    assert Observe(s, events[1..]) == run;
    assert Observe(Initial(), events) == [s] + run;
  }

  lemma ReachableInv(events: seq<Event>)
    ensures forall k :: 0 <= k < |Observe(Initial(), events)| ==> Inv(Observe(Initial(), events)[k])
  {
    InitialInv();
    ObserveInv(Initial(), events);
  }
}
