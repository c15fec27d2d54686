/**
 ComfyUI as the gateway meets it: where a prompt can be, how it moves, and what the two read
 calls and the two commands answer. The moves are those of the protocol-faithful fake.
 */
module ComfyServer {
  import opened Prelude

  /** Prompts are numbered in the order they were submitted. */
  type PromptId = nat

  datatype OutputFile = OutputFile(filename: string, subfolder: string, store: string, kind: string, mediaType: string)

  /** What an `execution_error` message says, and what of it may cross to the phone. */
  datatype ExecutionError = ExecutionError(message: Option<string>, nodeType: Option<string>, reason: Option<string>)

  datatype Message = Message(event: string, error: Option<ExecutionError>)

  datatype Status = Status(text: string, completed: bool, messages: seq<Message>)

  /** One entry of `/history`: older builds write no status block. */
  datatype Record = Record(status: Option<Status>, outputs: Option<seq<OutputFile>>)

  datatype Place = Pending | Running | Gone | Done(record: Record) | Deleted

  datatype QueuePlace = RunningNow | PendingNow | Absent

  // ----- moves ComfyUI makes on its own, or because somebody else asked -----

  datatype Move =
    | Submit
    | Start(prompt: PromptId)
    | Leave(prompt: PromptId)
    | File(prompt: PromptId, record: Record)
    | Delete(prompt: PromptId)

  /** Where one prompt goes when it is asked to move; a move that does not apply changes nothing. */
  function MovePlace(place: Place, move: Move): Place
    requires !move.Submit?
  {
    match (place, move)
    case (Pending, Start(_)) => Running
    case (Pending, Delete(_)) => Deleted
    case (Running, Leave(_)) => Gone
    case (Running, File(_, record)) => Done(record)
    case (Gone, File(_, record)) => Done(record)
    case _ => place
  }

  function MoveAll(places: seq<Place>, move: Move): (r: seq<Place>)
    ensures |places| <= |r|
  {
    if move.Submit? then places + [Pending]
    else if move.prompt < |places| then places[move.prompt := MovePlace(places[move.prompt], move)]
    else places
  }

  // ----- what the calls answer and do -----

  datatype HistoryEntry = NotFound | Entry(
    finished: bool,
    failed: bool,
    interrupted: bool,
    error: Option<ExecutionError>,
    outputs: seq<OutputFile>)

  predicate HasMessage(messages: seq<Message>, event: string) {
    exists i :: 0 <= i < |messages| && messages[i].event == event
  }

  /** The first message of an execution error that says something, or none when no message does. */
  ghost predicate IsFirstError(messages: seq<Message>, error: Option<ExecutionError>) {
    match error
    case None => forall i :: 0 <= i < |messages| ==> !TellsAnError(messages[i])
    case Some(e) => exists i :: IsFirstTold(messages, i, e)
  }

  ghost predicate IsFirstTold(messages: seq<Message>, i: int, error: ExecutionError) {
    && 0 <= i < |messages| && messages[i] == Message("execution_error", Some(error))
    && forall j :: 0 <= j < i ==> !TellsAnError(messages[j])
  }

  predicate TellsAnError(message: Message) {
    message.event == "execution_error" && message.error.Some?
  }

  function FirstError(messages: seq<Message>): (error: Option<ExecutionError>)
    ensures IsFirstError(messages, error)
  {
    FirstErrorStep(messages);
    if messages == [] then None
    else if messages[0].event == "execution_error" && messages[0].error.Some? then messages[0].error
    else FirstError(messages[1..])
  }

  lemma FirstErrorStep(messages: seq<Message>)
    ensures messages != [] && TellsAnError(messages[0]) ==> IsFirstError(messages, messages[0].error)
    ensures messages != [] && !TellsAnError(messages[0]) ==>
      forall error :: IsFirstError(messages[1..], error) ==> IsFirstError(messages, error)
  {
    if messages != [] && TellsAnError(messages[0]) {
      assert IsFirstTold(messages, 0, messages[0].error.value);
    }
    if messages != [] && !TellsAnError(messages[0]) {
      forall i, e | IsFirstTold(messages[1..], i, e)
        ensures IsFirstTold(messages, i + 1, e)
      {
        assert forall j :: 0 < j <= i ==> messages[1..][j - 1] == messages[j];
      }
      assert forall j :: 0 < j < |messages| ==> messages[1..][j - 1] == messages[j];
    }
  }

  /** An error that came of an interrupt: a message says so. */
  ghost predicate WasInterrupted(record: Record) {
    record.status.Some? && record.status.value.text == "error"
    && exists m :: m in record.status.value.messages && m.event == "execution_interrupted"
  }

  /** An error, and no message says that it was an interrupt. */
  ghost predicate WasFailed(record: Record) {
    record.status.Some? && record.status.value.text == "error"
    && forall m :: m in record.status.value.messages ==> m.event != "execution_interrupted"
  }

  /** No error, and completed or a success; without a status, there are outputs. */
  ghost predicate WasFinished(record: Record) {
    match record.status
    case None => record.outputs.Some?
    case Some(status) => status.text != "error" && (status.completed || status.text == "success")
  }

  function ReadRecord(record: Record): (entry: HistoryEntry)
    ensures entry.Entry?
    ensures entry.interrupted <==> WasInterrupted(record)
    ensures entry.failed <==> WasFailed(record)
    ensures entry.finished <==> WasFinished(record)
    ensures WasFailed(record) ==> IsFirstError(record.status.value.messages, entry.error)
    ensures record.outputs.Some? ==> entry.outputs == record.outputs.value
    ensures record.outputs.None? ==> entry.outputs == []
  {
    OutcomeByMessage(record);
    var outputs := if record.outputs.Some? then record.outputs.value else [];
    match record.status
    case None => Entry(record.outputs.Some?, false, false, None, outputs)
    case Some(status) =>
      var interrupted := status.text == "error" && HasMessage(status.messages, "execution_interrupted");
      var failed := status.text == "error" && !interrupted;
      var finished := !failed && !interrupted && (status.completed || status.text == "success");
      Entry(finished, failed, interrupted, if failed then FirstError(status.messages) else None, outputs)
  }

  lemma OutcomeByMessage(record: Record)
    ensures record.status.Some? ==>
      (HasMessage(record.status.value.messages, "execution_interrupted") <==>
         exists m :: m in record.status.value.messages && m.event == "execution_interrupted")
  {
  }

  function ReadHistory(place: Place): HistoryEntry {
    if place.Done? then ReadRecord(place.record) else NotFound
  }

  function ReadQueue(place: Place): QueuePlace {
    match place
    case Running => RunningNow
    case Pending => PendingNow
    case _ => Absent
  }

  /** The prompt `/interrupt` hits: the first one that is running, whoever asked. */
  function FirstRunning(places: seq<Place>): (r: Option<PromptId>)
    ensures r.Some? ==> r.value < |places| && places[r.value].Running?
    ensures r.Some? ==> forall i :: 0 <= i < r.value ==> !places[i].Running?
    ensures r.None? ==> forall i :: 0 <= i < |places| ==> !places[i].Running?
  {
    if places == [] then None
    else if places[0].Running? then Some(0)
    else
      var rest := FirstRunning(places[1..]);
      if rest.Some? then Some(rest.value + 1) else None
  }

  /** What an interrupt leads to: the record that is filed, or nothing yet. */
  function InterruptAll(places: seq<Place>, filed: Option<Record>): (r: seq<Place>)
    ensures |r| == |places|
  {
    var hit := FirstRunning(places);
    if hit.Some? && filed.Some? then places[hit.value := Done(filed.value)] else places
  }

  /** The three outcomes exclude each other, so the order in which they are looked at does not matter. */
  lemma OutcomesExclude(record: Record)
    ensures var entry := ReadRecord(record);
      !(entry.finished && entry.failed) && !(entry.finished && entry.interrupted) && !(entry.failed && entry.interrupted)
  {
  }

  /** Settled places: no move leads out of them. */
  lemma SettledForGood(places: seq<Place>, move: Move, prompt: PromptId)
    requires prompt < |places| && (places[prompt].Done? || places[prompt].Deleted?)
    ensures MoveAll(places, move)[prompt] == places[prompt]
  {
  }
}
