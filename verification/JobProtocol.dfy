/**
 One job of the store against ComfyUI, as functions of what happens: ComfyUI and the progress
 socket may act before each HTTP call, and each call may fail with or without having been served.
 */
module JobProtocol {
  import opened Prelude
  import opened ComfyServer

  datatype JobState = Queued | Executing | Completed | Failed | Cancelled {
    predicate Terminal() {
      Completed? || Failed? || Cancelled?
    }
  }

  datatype Progress = Progress(step: int, total: int)

  datatype JobError = JobError(code: string, message: string)

  datatype JobResult = JobResult(index: nat, kind: string, mediaType: string, output: OutputFile)

  type JobId = string

  datatype Job = Job(
    id: JobId,
    workflow: string,
    prompt: PromptId,
    state: JobState,
    results: seq<JobResult>,
    error: Option<JobError>,
    progress: Option<Progress>,
    queueDeleted: bool)

  /** A result as the app sees it: its path is the job's id and the index. */
  datatype ResultView = ResultView(index: nat, kind: string, mediaType: string, path: (JobId, nat))

  datatype View = View(
    id: JobId,
    workflow: string,
    state: JobState,
    progress: Option<Progress>,
    results: seq<ResultView>,
    error: Option<JobError>)

  function ToView(job: Job): View {
    View(job.id, job.workflow, job.state, job.progress,
         seq(|job.results|, i requires 0 <= i < |job.results| =>
           var result := job.results[i];
           ResultView(result.index, result.kind, result.mediaType, (job.id, result.index))),
         job.error)
  }

  /** One job, what is published of it, and ComfyUI. */
  datatype World = World(job: Job, view: View, version: nat, places: seq<Place>) {
    predicate Known() {
      job.prompt < |places|
    }

    function Place(): Place
      requires Known()
    {
      places[job.prompt]
    }
  }

  function NewJob(id: JobId, workflow: string, prompt: PromptId): Job {
    Job(id, workflow, prompt, Queued, [], None, None, false)
  }

  /** A job as it is first recorded and first published. */
  function Created(id: JobId, workflow: string, prompt: PromptId, places: seq<Place>): World {
    var job := NewJob(id, workflow, prompt);
    World(job, ToView(job), 1, places)
  }

  function Publish(w: World): World {
    if w.view == ToView(w.job) then w else w.(view := ToView(w.job), version := w.version + 1)
  }

  // ----- what may happen between two calls -----

  datatype JsonNumber = Whole(n: int) | Fraction | Boolean | NotANumber

  /** A count ComfyUI reported: a whole number, and `true` is not one. */
  function Count(value: JsonNumber): Option<int> {
    if value.Whole? then Some(value.n) else None
  }

  /** A pair is passed on only when it describes a real position. */
  function Position(value: JsonNumber, maximum: JsonNumber): (r: Option<Progress>)
    ensures r.Some? ==> value == Whole(r.value.step) && maximum == Whole(r.value.total)
    ensures r.Some? <==> value.Whole? && maximum.Whole? && 0 <= value.n <= maximum.n && 0 < maximum.n
  {
    var step :- Count(value);
    var total :- Count(maximum);
    if total <= 0 || !(0 <= step <= total) then None else Some(Progress(step, total))
  }

  datatype Happening =
    | ComfyMoves(move: Move)
    | ProgressFrame(prompt: PromptId, value: JsonNumber, maximum: JsonNumber)

  function NoteProgress(w: World, position: Progress): World {
    if w.job.state.Terminal() || w.job.progress == Some(position) then w
    else Publish(w.(job := w.job.(progress := Some(position))))
  }

  function Happen(w: World, happening: Happening): World {
    match happening
    case ComfyMoves(move) => w.(places := MoveAll(w.places, move))
    case ProgressFrame(prompt, value, maximum) =>
      var position := Position(value, maximum);
      if position.Some? && prompt == w.job.prompt then NoteProgress(w, position.value) else w
  }

  function Elapse(w: World, gap: seq<Happening>): World
    decreases |gap|
  {
    if gap == [] then w else Happen(Elapse(w, gap[..|gap| - 1]), gap[|gap| - 1])
  }

  // ----- refresh -----

  /** A call: what happens before ComfyUI serves it, and whether it gets through. */
  datatype Delivery = Answered | RequestLost | AnswerLost

  datatype Call = Call(gap: seq<Happening>, delivery: Delivery)

  function Results(outputs: seq<OutputFile>): (results: seq<JobResult>)
    ensures |results| == |outputs|
    ensures forall i :: 0 <= i < |results| ==>
      results[i] == JobResult(i, outputs[i].kind, outputs[i].mediaType, outputs[i])
  {
    seq(|outputs|, i requires 0 <= i < |outputs| => JobResult(i, outputs[i].kind, outputs[i].mediaType, outputs[i]))
  }

  function Failure(error: Option<ExecutionError>): JobError {
    var message := "ComfyUI could not finish this generation.";
    var reason := if error.Some? then error.value.reason else None;
    JobError("generation_failed",
             if reason.Some? && reason.value != "" then message + " It reported: " + reason.value else message)
  }

  /** One result for each output of the record, in order, under its place in the list. */
  ghost predicate ListsOutputs(results: seq<JobResult>, record: Record) {
    match record.outputs
    case None => results == []
    case Some(outputs) =>
      |results| == |outputs|
      && forall i :: 0 <= i < |outputs| ==> results[i] == JobResult(i, outputs[i].kind, outputs[i].mediaType, outputs[i])
  }

  /** The failure in one sentence, and the reason the first error gives when it gives one. */
  ghost predicate TellsFailure(error: Option<JobError>, record: Record)
    requires WasFailed(record)
  {
    exists first :: IsFirstError(record.status.value.messages, first) && error == Some(JobError("generation_failed",
      if first.Some? && first.value.reason.Some? && first.value.reason.value != ""
      then "ComfyUI could not finish this generation. It reported: " + first.value.reason.value
      else "ComfyUI could not finish this generation."))
  }

  /** A job that has taken in this record. */
  ghost predicate IsOutcomeOf(job: Job, record: Record) {
    if WasInterrupted(record) then job.state == Cancelled && job.results == [] && job.error == None && job.progress == None
    else if WasFailed(record) then
      job.state == Failed && job.results == [] && TellsFailure(job.error, record) && job.progress == None
    else if WasFinished(record) then
      job.state == Completed && ListsOutputs(job.results, record) && job.error == None && job.progress == None
    else job.state == Executing
  }

  lemma AppliedHistoryIsItsOutcome(job: Job, record: Record)
    ensures IsOutcomeOf(ApplyHistory(job, ReadRecord(record)), record)
  {
    hide IsFirstError;
    var applied := ApplyHistory(job, ReadRecord(record));
    if WasFailed(record) {
      FailureTells(record, ReadRecord(record).error);
    }
  }

  lemma FailureTells(record: Record, first: Option<ExecutionError>)
    requires WasFailed(record) && IsFirstError(record.status.value.messages, first)
    ensures TellsFailure(Some(Failure(first)), record)
  {
    hide IsFirstError;
    var head := "ComfyUI could not finish this generation.";
    if first.Some? && first.value.reason.Some? {
      var reason := first.value.reason.value;
      assert head + " It reported: " + reason == "ComfyUI could not finish this generation. It reported: " + reason;
    }
  }

  function ApplyHistory(job: Job, entry: HistoryEntry): Job
    requires entry.Entry?
  {
    if entry.interrupted then job.(state := Cancelled, progress := None, results := [], error := None)
    else if entry.failed then job.(state := Failed, error := Some(Failure(entry.error)), results := [], progress := None)
    else if entry.finished then job.(state := Completed, results := Results(entry.outputs), error := None, progress := None)
    else job.(state := Executing)
  }

  /** What the two queues, without a history entry, are taken to mean. */
  function ApplyQueue(job: Job, place: QueuePlace): Job {
    match place
    case RunningNow => job.(queueDeleted := false, state := Executing)
    case PendingNow => job.(queueDeleted := false, state := Queued)
    case Absent =>
      if job.queueDeleted then job.(state := Cancelled, progress := None, results := [], error := None) else job
  }

  /** The first read; the flag says that it was answered with no entry. */
  function LookInHistory(w: World, call: Call): (World, bool)
    requires w.Known()
  {
    var at := Elapse(w, call.gap);
    if call.delivery != Answered then (at, false) else
    ElapseKeeps(w, call.gap);
    var entry := ReadHistory(at.Place());
    if entry.Entry? then (Publish(at.(job := ApplyHistory(at.job, entry))), false) else (at, true)
  }

  function LookInQueue(w: World, call: Call): World
    requires w.Known()
  {
    var at := Elapse(w, call.gap);
    if call.delivery != Answered then at else
    ElapseKeeps(w, call.gap);
    Publish(at.(job := ApplyQueue(at.job, ReadQueue(at.Place()))))
  }

  /** The history is read first, the queue only when there is no entry; ComfyUI may move in between. */
  function Refresh(w: World, history: Call, queue: Call): World
    requires w.Known()
  {
    if w.job.state.Terminal() then w else
    var (at, goOn) := LookInHistory(w, history);
    ElapseKeeps(w, history.gap);
    if goOn then LookInQueue(at, queue) else at
  }

  // ----- cancel -----

  datatype CancelCalls = CancelCalls(
    firstHistory: Call,
    firstQueue: Call,
    queue: Call,
    command: Call,
    filed: Option<Record>,
    lastHistory: Call,
    lastQueue: Call)

  /** ComfyUI serves the delete or the interrupt. */
  function Serve(w: World, seen: QueuePlace, filed: Option<Record>): World {
    w.(places := if seen == PendingNow then MoveAll(w.places, Delete(w.job.prompt)) else InterruptAll(w.places, filed))
  }

  /** The command that the queue's answer calls for, and whether cancel goes on to its last refresh. */
  function Command(w: World, seen: QueuePlace, calls: CancelCalls): (World, bool) {
    if seen == Absent then (w, true) else
    var at := Elapse(w, calls.command.gap);
    if calls.command.delivery == RequestLost then (at, false) else
    var served := Serve(at, seen, calls.filed);
    if calls.command.delivery == AnswerLost then (served, false)
    else if seen == PendingNow then (served.(job := served.job.(queueDeleted := true)), true)
    else (served, true)
  }

  /** What a cancel does to a job that is not over: look in the queue, send one command, look again. */
  function Pursue(w: World, calls: CancelCalls): World
    requires w.Known()
  {
    var atQueue := Elapse(w, calls.queue.gap);
    if calls.queue.delivery != Answered then atQueue else
    ElapseKeeps(w, calls.queue.gap);
    Conclude(atQueue, ReadQueue(atQueue.Place()), calls)
  }

  function Conclude(w: World, seen: QueuePlace, calls: CancelCalls): World
    requires w.Known()
  {
    var (after, goOn) := Command(w, seen, calls);
    CommandKeeps(w, seen, calls);
    if goOn then Refresh(after, calls.lastHistory, calls.lastQueue) else after
  }

  function Cancel(w: World, calls: CancelCalls): World
    requires w.Known()
  {
    var first := Refresh(w, calls.firstHistory, calls.firstQueue);
    RefreshKeeps(w, calls.firstHistory, calls.firstQueue);
    if first.job.state.Terminal() then first else Pursue(first, calls)
  }

  // ----- runs: the calls on this job one after another -----

  datatype Action =
    | Time(gap: seq<Happening>)
    | Read(history: Call, queue: Call)
    | Stop(calls: CancelCalls)

  function Act(w: World, action: Action): World
    requires w.Known()
  {
    match action
    case Time(gap) => Elapse(w, gap)
    case Read(history, queue) => Refresh(w, history, queue)
    case Stop(calls) => Cancel(w, calls)
  }

  function Run(w: World, actions: seq<Action>): (r: World)
    requires w.Known()
    ensures r.Known()
    decreases |actions|
  {
    if actions == [] then w
    else
      var before := Run(w, actions[..|actions| - 1]);
      ActKeeps(before, actions[|actions| - 1]);
      Act(before, actions[|actions| - 1])
  }

  // ----- the relation every single step keeps -----

  /** Done and deleted prompts stay what they are; the job stays the same job. */
  ghost predicate Onward(w: World, w': World) {
    && w.Known() && w'.Known()
    && w'.job.id == w.job.id && w'.job.workflow == w.job.workflow && w'.job.prompt == w.job.prompt
    && (w.Place().Done? || w.Place().Deleted? ==> w'.Place() == w.Place())
  }

  lemma HappenKeeps(w: World, happening: Happening)
    requires w.Known()
    ensures Onward(w, Happen(w, happening))
    ensures Happen(w, happening).job.queueDeleted == w.job.queueDeleted
    ensures Happen(w, happening).job.state == w.job.state
  {
  }

  lemma {:induction false} ElapseKeeps(w: World, gap: seq<Happening>)
    requires w.Known()
    ensures Onward(w, Elapse(w, gap))
    ensures Elapse(w, gap).job.queueDeleted == w.job.queueDeleted
    ensures Elapse(w, gap).job.state == w.job.state
    decreases |gap|
  {
    if gap != [] {
      ElapseKeeps(w, gap[..|gap| - 1]);
      HappenKeeps(Elapse(w, gap[..|gap| - 1]), gap[|gap| - 1]);
    }
  }

  lemma ElapseNothing()
    ensures forall w :: Elapse(w, []) == w
  {
  }

  lemma {:induction false} ElapseInTwo(first: seq<Happening>, second: seq<Happening>)
    ensures forall w :: Elapse(w, first + second) == Elapse(Elapse(w, first), second)
    decreases |second|
  {
    hide Happen;
    if second == [] {
      assert first + second == first;
    } else {
      var front := second[..|second| - 1];
      ElapseInTwo(first, front);
      assert (first + second)[..|first + second| - 1] == first + front;
    }
  }

  lemma RefreshKeeps(w: World, history: Call, queue: Call)
    requires w.Known()
    ensures Onward(w, Refresh(w, history, queue))
  {
    hide LookInHistory, LookInQueue;
    if !w.job.state.Terminal() {
      HistoryKeeps(w, history);
      QueueKeeps(LookInHistory(w, history).0, queue);
    }
  }

  lemma HistoryKeeps(w: World, call: Call)
    requires w.Known()
    ensures Onward(w, LookInHistory(w, call).0)
    ensures LookInHistory(w, call).1 ==> LookInHistory(w, call).0 == Elapse(w, call.gap)
  {
    hide Elapse, ToView, Results, Failure;
    ElapseKeeps(w, call.gap);
  }

  lemma QueueKeeps(w: World, call: Call)
    requires w.Known()
    ensures Onward(w, LookInQueue(w, call))
  {
    hide Elapse, ToView;
    ElapseKeeps(w, call.gap);
  }

  lemma CommandKeeps(w: World, seen: QueuePlace, calls: CancelCalls)
    requires w.Known()
    ensures Onward(w, Command(w, seen, calls).0)
  {
    ElapseKeeps(w, calls.command.gap);
  }

  lemma CancelKeeps(w: World, calls: CancelCalls)
    requires w.Known()
    ensures Onward(w, Cancel(w, calls))
  {
    hide Refresh, Command, Elapse, ReadQueue;
    RefreshKeeps(w, calls.firstHistory, calls.firstQueue);
    var first := Refresh(w, calls.firstHistory, calls.firstQueue);
    ElapseKeeps(first, calls.queue.gap);
    var atQueue := Elapse(first, calls.queue.gap);
    var seen := ReadQueue(atQueue.Place());
    CommandKeeps(atQueue, seen, calls);
    RefreshKeeps(Command(atQueue, seen, calls).0, calls.lastHistory, calls.lastQueue);
  }

  lemma ActKeeps(w: World, action: Action)
    requires w.Known()
    ensures Onward(w, Act(w, action))
  {
    hide Refresh, Cancel, Elapse;
    match action
    case Time(gap) => ElapseKeeps(w, gap);
    case Read(history, queue) => RefreshKeeps(w, history, queue);
    case Stop(calls) => CancelKeeps(w, calls);
  }
}
