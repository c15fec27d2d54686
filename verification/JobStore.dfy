/**
 The store as it runs: jobs are objects updated in place, ComfyUI is asked call by call, and each
 method leaves every job in exactly the world `JobProtocol` says.
 */
module JobStore {
  import opened Prelude
  import opened ComfyServer
  import P = JobProtocol

  /** ComfyUI on the other side of HTTP. */
  class ComfyUI {
    var places: seq<Place>

    constructor ()
      ensures places == []
    {
      places := [];
    }

    method Move(move: Move)
      modifies this
      ensures places == MoveAll(old(places), move)
    {
      if move.Submit? {
        places := places + [Pending];
      } else if move.prompt < |places| {
        places := places[move.prompt := MovePlace(places[move.prompt], move)];
      }
    }

    method History(prompt: PromptId) returns (entry: HistoryEntry)
      requires prompt < |places|
      ensures entry == ReadHistory(places[prompt])
    {
      return if places[prompt].Done? then ReadRecord(places[prompt].record) else NotFound;
    }

    method QueuePlaceOf(prompt: PromptId) returns (place: QueuePlace)
      requires prompt < |places|
      ensures place == ReadQueue(places[prompt])
    {
      return if places[prompt].Running? then RunningNow else if places[prompt].Pending? then PendingNow else Absent;
    }

    method Interrupt(filed: Option<Record>)
      modifies this
      ensures places == InterruptAll(old(places), filed)
    {
      var hit := FirstRunning(places);
      if hit.Some? && filed.Some? {
        places := places[hit.value := Done(filed.value)];
      }
    }
  }

  /** One submitted generation. */
  class Job {
    const id: P.JobId
    const workflow: string
    const prompt: PromptId
    var state: P.JobState
    var results: seq<P.JobResult>
    var error: Option<P.JobError>
    var progress: Option<P.Progress>
    var queueDeleted: bool

    constructor (id: P.JobId, workflow: string, prompt: PromptId)
      ensures Value() == P.NewJob(id, workflow, prompt)
      ensures this.id == id && this.prompt == prompt
    {
      this.id, this.workflow, this.prompt := id, workflow, prompt;
      state, results, error, progress, queueDeleted := P.Queued, [], None, None, false;
    }

    function Value(): P.Job
      reads this
    {
      P.Job(id, workflow, prompt, state, results, error, progress, queueDeleted)
    }

    method ApplyHistory(entry: HistoryEntry)
      requires entry.Entry?
      modifies this
      ensures Value() == P.ApplyHistory(old(Value()), entry)
    {
      if entry.interrupted {
        state := P.Cancelled;
        progress := None;
        results := [];
        error := None;
      } else if entry.failed {
        state := P.Failed;
        error := Some(P.Failure(entry.error));
        results := [];
        progress := None;
      } else if entry.finished {
        state := P.Completed;
        results := P.Results(entry.outputs);
        error := None;
        progress := None;
      } else {
        state := P.Executing;
      }
    }

    method ApplyQueue(place: QueuePlace)
      modifies this
      ensures Value() == P.ApplyQueue(old(Value()), place)
    {
      if place == RunningNow || place == PendingNow {
        queueDeleted := false;
        state := if place == RunningNow then P.Executing else P.Queued;
      } else if queueDeleted {
        state := P.Cancelled;
        progress := None;
        results := [];
        error := None;
      }
    }
  }

  class Store {
    const comfy: ComfyUI
    var jobs: map<P.JobId, Job>
    var byPrompt: map<PromptId, P.JobId>
    var views: map<P.JobId, P.View>
    var versions: map<P.JobId, nat>
    ghost var records: set<Job>

    ghost predicate Valid()
      reads this, records, comfy
    {
      && views.Keys == versions.Keys == jobs.Keys
      && (forall id :: id in jobs ==> Entered(id))
      && (forall prompt :: prompt in byPrompt ==>
            byPrompt[prompt] in jobs && jobs[byPrompt[prompt]] in records && jobs[byPrompt[prompt]].prompt == prompt)
    }

    /** The two vocabularies agree on this job, and ComfyUI has its prompt. */
    ghost predicate Entered(id: P.JobId)
      requires id in jobs
      reads this, records, comfy
    {
      && jobs[id] in records
      && jobs[id].id == id
      && jobs[id].prompt < |comfy.places|
      && jobs[id].prompt in byPrompt && byPrompt[jobs[id].prompt] == id
    }

    ghost function WorldOf(id: P.JobId): P.World
      requires Valid() && id in jobs
      reads this, records, comfy
    {
      P.World(jobs[id].Value(), views[id], versions[id], comfy.places)
    }

    /** Is this object the store's record of its id? */
    ghost predicate Holds(job: Job)
      reads this
    {
      job.id in jobs && jobs[job.id] == job
    }

    constructor (comfy: ComfyUI)
      ensures Valid() && this.comfy == comfy && jobs == map[] && records == {}
    {
      this.comfy := comfy;
      jobs, byPrompt, views, versions, records := map[], map[], map[], map[], {};
    }

    /** Record a prompt ComfyUI has accepted. `id` is drawn until it is unused. */
    method Create(id: P.JobId, workflow: string, prompt: PromptId) returns (job: Job)
      requires Valid() && id !in jobs && prompt !in byPrompt && prompt < |comfy.places|
      modifies this
      ensures Valid() && fresh(job) && jobs == old(jobs)[id := job] && byPrompt == old(byPrompt)[prompt := id]
      ensures records == old(records) + {job}
      ensures WorldOf(id) == P.Created(id, workflow, prompt, comfy.places)
      ensures forall other :: other in old(jobs) ==> WorldOf(other) == old(WorldOf(other))
    {
      hide P.ToView;
      job := new Job(id, workflow, prompt);
      Enter(job);
    }

    method Enter(job: Job)
      requires Valid() && job.id !in jobs && job.prompt !in byPrompt && job.prompt < |comfy.places|
      modifies this
      ensures jobs == old(jobs)[job.id := job] && byPrompt == old(byPrompt)[job.prompt := job.id]
      ensures records == old(records) + {job}
      ensures views == old(views)[job.id := P.ToView(job.Value())] && versions == old(versions)[job.id := 1]
      ensures Valid()
    {
      hide P.ToView;
      assert forall other :: other in jobs ==> Entered(other);
      jobs := jobs[job.id := job];
      byPrompt := byPrompt[job.prompt := job.id];
      views := views[job.id := P.ToView(job.Value())];
      versions := versions[job.id := 1];
      records := records + {job};
      forall other | other in jobs
        ensures Entered(other)
      {
        assert other != job.id ==> old(Entered(other));
      }
    }

    /** Make the job's snapshot the published one; an unchanged view publishes nothing. */
    method Publish(job: Job)
      requires Valid() && Holds(job)
      modifies this`views, this`versions
      ensures Valid() && WorldOf(job.id) == P.Publish(old(WorldOf(job.id)))
      ensures forall id :: id in jobs && id != job.id ==> WorldOf(id) == old(WorldOf(id))
    {
      var view := P.ToView(job.Value());
      if views[job.id] != view {
        views := views[job.id := view];
        versions := versions[job.id := versions[job.id] + 1];
      }
    }

    method NoteProgress(prompt: PromptId, position: P.Progress)
      requires Valid()
      modifies this`views, this`versions, records
      ensures Valid()
      ensures forall id :: id in jobs ==>
        WorldOf(id) == (if jobs[id].prompt == prompt then P.NoteProgress(old(WorldOf(id)), position) else old(WorldOf(id)))
    {
      if prompt in byPrompt {
        var job := jobs[byPrompt[prompt]];
        if !job.state.Terminal() && job.progress != Some(position) {
          job.progress := Some(position);
          Publish(job);
        }
      }
    }

    /** One frame of ComfyUI's socket, or one move of ComfyUI itself. */
    method Happen(happening: P.Happening)
      requires Valid()
      modifies this`views, this`versions, records, comfy
      ensures Valid()
      ensures forall id :: id in jobs ==> WorldOf(id) == P.Happen(old(WorldOf(id)), happening)
    {
      match happening
      case ComfyMoves(move) =>
        comfy.Move(move);
      case ProgressFrame(prompt, value, maximum) =>
        var position := P.Position(value, maximum);
        if position.Some? {
          NoteProgress(prompt, position.value);
        }
    }

    /** What other threads and ComfyUI do while a call of this one is on its way. */
    method Elapse(gap: seq<P.Happening>)
      requires Valid()
      modifies this`views, this`versions, records, comfy
      ensures Valid()
      ensures forall id :: id in jobs ==> WorldOf(id) == P.Elapse(old(WorldOf(id)), gap)
    {
      for n := 0 to |gap|
        invariant Valid()
        invariant forall id :: id in jobs ==> WorldOf(id) == P.Elapse(old(WorldOf(id)), gap[..n])
      {
        Happen(gap[n]);
        assert gap[..n + 1][..n] == gap[..n];
      }
      assert gap[..|gap|] == gap;
    }

    /** What both readings of ComfyUI end in: the job takes what was read, and is published. */
    method TakeHistory(job: Job, entry: HistoryEntry)
      requires Valid() && Holds(job) && entry.Entry?
      modifies this`views, this`versions, job
      ensures Valid()
      ensures WorldOf(job.id) == P.Publish(old(WorldOf(job.id)).(job := P.ApplyHistory(old(job.Value()), entry)))
      ensures forall id :: id in jobs && id != job.id ==> WorldOf(id) == old(WorldOf(id))
    {
      job.ApplyHistory(entry);
      hide P.ApplyHistory, P.Publish;
      Publish(job);
    }

    method TakeQueue(job: Job, place: QueuePlace)
      requires Valid() && Holds(job)
      modifies this`views, this`versions, job
      ensures Valid()
      ensures WorldOf(job.id) == P.Publish(old(WorldOf(job.id)).(job := P.ApplyQueue(old(job.Value()), place)))
      ensures forall id :: id in jobs && id != job.id ==> WorldOf(id) == old(WorldOf(id))
    {
      job.ApplyQueue(place);
      hide P.ApplyQueue, P.Publish;
      Publish(job);
    }

    /** The first read; the answer says that there was no entry. */
    method LookInHistory(job: Job, call: P.Call) returns (goOn: bool)
      requires Valid() && Holds(job)
      modifies this`views, this`versions, records, comfy
      ensures Valid()
      ensures (WorldOf(job.id), goOn) == P.LookInHistory(old(WorldOf(job.id)), call)
      ensures forall id :: id in jobs && id != job.id ==> WorldOf(id) == P.Elapse(old(WorldOf(id)), call.gap)
    {
      ghost var before := WorldOf(job.id);
      assert before.Known();
      hide Valid, P.Elapse, P.Publish, P.ApplyHistory;
      P.ElapseKeeps(before, call.gap);
      Elapse(call.gap);
      goOn := false;
      if call.delivery == P.Answered {
        var entry := comfy.History(job.prompt);
        if entry.Entry? {
          TakeHistory(job, entry);
        } else {
          goOn := true;
        }
      }
    }

    method LookInQueue(job: Job, call: P.Call)
      requires Valid() && Holds(job)
      modifies this`views, this`versions, records, comfy
      ensures Valid()
      ensures WorldOf(job.id) == P.LookInQueue(old(WorldOf(job.id)), call)
      ensures forall id :: id in jobs && id != job.id ==> WorldOf(id) == P.Elapse(old(WorldOf(id)), call.gap)
    {
      ghost var before := WorldOf(job.id);
      assert before.Known();
      hide Valid, P.Elapse, P.Publish, P.ApplyQueue;
      P.ElapseKeeps(before, call.gap);
      Elapse(call.gap);
      if call.delivery == P.Answered {
        var place := comfy.QueuePlaceOf(job.prompt);
        TakeQueue(job, place);
      }
    }

    /**
     Bring one job up to date: `/history` first, `/queue` only without an entry. `elapsed` is what
     the other jobs saw go by.
     */
    method Refresh(job: Job, history: P.Call, queue: P.Call) returns (ghost elapsed: seq<P.Happening>)
      requires Valid() && Holds(job)
      modifies this`views, this`versions, records, comfy
      ensures Valid()
      ensures WorldOf(job.id) == P.Refresh(old(WorldOf(job.id)), history, queue)
      ensures forall id :: id in jobs && id != job.id ==> WorldOf(id) == P.Elapse(old(WorldOf(id)), elapsed)
    {
      hide Valid, P.Elapse, P.LookInHistory, P.LookInQueue;
      P.ElapseNothing();
      elapsed := [];
      if !job.state.Terminal() {
        var goOn := LookInHistory(job, history);
        elapsed := history.gap;
        if goOn {
          LookInQueue(job, queue);
          P.ElapseInTwo(history.gap, queue.gap);
          elapsed := history.gap + queue.gap;
        }
      }
    }

    function Get(id: P.JobId): Job?
      reads this
    {
      if id in jobs then jobs[id] else null
    }

    /** Refresh from ComfyUI and answer the job, or null for an unknown id. */
    method Snapshot(id: P.JobId, history: P.Call, queue: P.Call) returns (job: Job?, ghost elapsed: seq<P.Happening>)
      requires Valid()
      modifies this`views, this`versions, records, comfy
      ensures Valid() && job == Get(id)
      ensures id in jobs ==> WorldOf(id) == P.Refresh(old(WorldOf(id)), history, queue)
      ensures forall other :: other in jobs && other != id ==> WorldOf(other) == P.Elapse(old(WorldOf(other)), elapsed)
    {
      job := Get(id);
      elapsed := [];
      P.ElapseNothing();
      if job != null {
        assert Entered(id);
        elapsed := Refresh(job, history, queue);
      }
    }

    /** The last published view and its version, without asking ComfyUI. */
    method Published(id: P.JobId) returns (published: Option<(nat, P.View)>)
      requires Valid()
      ensures published == if id in jobs then Some((WorldOf(id).version, WorldOf(id).view)) else None
    {
      published := if id in views then Some((versions[id], views[id])) else None;
    }

    /** The delete or the interrupt that the queue's answer calls for. */
    method SendCommand(job: Job, seen: QueuePlace, calls: P.CancelCalls) returns (goOn: bool, ghost elapsed: seq<P.Happening>)
      requires Valid() && Holds(job)
      modifies this`views, this`versions, records, comfy
      ensures Valid()
      ensures (WorldOf(job.id), goOn) == P.Command(old(WorldOf(job.id)), seen, calls)
      ensures forall id :: id in jobs && id != job.id ==> WorldOf(id) == P.Elapse(old(WorldOf(id)), elapsed)
    {
      hide P.Elapse, P.Serve;
      P.ElapseNothing();
      if seen == Absent {
        return true, [];
      }
      assert job in records && WorldOf(job.id).Known();
      hide Valid;
      P.ElapseKeeps(WorldOf(job.id), calls.command.gap);
      Elapse(calls.command.gap);
      elapsed := calls.command.gap;
      goOn := false;
      if calls.command.delivery != P.RequestLost {
        goOn := calls.command.delivery == P.Answered;
        var served := Serve(job, seen, calls.filed, goOn);
        P.ElapseInTwo(calls.command.gap, served);
        elapsed := elapsed + served;
      }
    }

    /** The command as the other jobs see it: a move of ComfyUI, or nothing. */
    static ghost function ServedAs(places: seq<Place>, prompt: PromptId, seen: QueuePlace, filed: Option<Record>): seq<P.Happening> {
      if seen == PendingNow then [P.ComfyMoves(Delete(prompt))]
      else if FirstRunning(places).Some? && filed.Some?
      then [P.ComfyMoves(File(FirstRunning(places).value, filed.value))]
      else []
    }

    /** Seen from another job, serving the command moves ComfyUI and nothing else. */
    static lemma OnlyPlacesMove(places: seq<Place>, prompt: PromptId, seen: QueuePlace, filed: Option<Record>)
      ensures forall w: P.World :: w.places == places ==>
        P.Elapse(w, ServedAs(places, prompt, seen, filed)) ==
          w.(places := if seen == PendingNow then MoveAll(places, Delete(prompt)) else InterruptAll(places, filed))
    {
      P.ElapseNothing();
    }

    /** ComfyUI serves the command; an answered delete becomes the job's claim. */
    method Serve(job: Job, seen: QueuePlace, filed: Option<Record>, answered: bool) returns (ghost served: seq<P.Happening>)
      requires Valid() && Holds(job)
      modifies comfy, job`queueDeleted
      ensures Valid()
      ensures var served := P.Serve(old(WorldOf(job.id)), seen, filed);
        WorldOf(job.id) == if answered && seen == PendingNow then served.(job := served.job.(queueDeleted := true)) else served
      ensures forall id :: id in jobs && id != job.id ==> WorldOf(id) == P.Elapse(old(WorldOf(id)), served)
    {
      hide P.Elapse, MoveAll, InterruptAll, ServedAs;
      served := ServedAs(comfy.places, job.prompt, seen, filed);
      OnlyPlacesMove(comfy.places, job.prompt, seen, filed);
      if seen == PendingNow {
        comfy.Move(Delete(job.prompt));
        if answered {
          job.queueDeleted := true;
        }
      } else {
        comfy.Interrupt(filed);
      }
    }

    /**
     Four parts: a refresh, a look in the queue, the one command that fits its answer, another refresh.
     Each of them may be the last one. Null for an unknown id.
     */
    method Cancel(id: P.JobId, calls: P.CancelCalls) returns (job: Job?, ghost elapsed: seq<P.Happening>)
      requires Valid()
      modifies this`views, this`versions, records, comfy
      ensures Valid() && job == Get(id)
      ensures id in jobs ==> WorldOf(id) == P.Cancel(old(WorldOf(id)), calls)
      ensures forall other :: other in jobs && other != id ==> WorldOf(other) == P.Elapse(old(WorldOf(other)), elapsed)
    {
      job := Get(id);
      elapsed := [];
      P.ElapseNothing();
      if job == null {
        return;
      }
      assert Entered(id);
      ghost var before := WorldOf(id);
      assert before.Known();
      hide Valid, Entered, P.Elapse, P.Refresh, P.Pursue;
      P.RefreshKeeps(before, calls.firstHistory, calls.firstQueue);
      elapsed := Refresh(job, calls.firstHistory, calls.firstQueue);
      if !job.state.Terminal() {
        var more := Pursue(job, calls);
        P.ElapseInTwo(elapsed, more);
        elapsed := elapsed + more;
      }
    }

    method Pursue(job: Job, calls: P.CancelCalls) returns (ghost elapsed: seq<P.Happening>)
      requires Valid() && Holds(job)
      modifies this`views, this`versions, records, comfy
      ensures Valid()
      ensures WorldOf(job.id) == P.Pursue(old(WorldOf(job.id)), calls)
      ensures forall id :: id in jobs && id != job.id ==> WorldOf(id) == P.Elapse(old(WorldOf(id)), elapsed)
    {
      assert WorldOf(job.id).Known();
      hide Valid, P.Elapse, P.Conclude;
      P.ElapseKeeps(WorldOf(job.id), calls.queue.gap);
      Elapse(calls.queue.gap);
      elapsed := calls.queue.gap;
      if calls.queue.delivery == P.Answered {
        var seen := comfy.QueuePlaceOf(job.prompt);
        var rest := Conclude(job, seen, calls);
        P.ElapseInTwo(elapsed, rest);
        elapsed := elapsed + rest;
      }
    }

    method Conclude(job: Job, seen: QueuePlace, calls: P.CancelCalls) returns (ghost elapsed: seq<P.Happening>)
      requires Valid() && Holds(job) && WorldOf(job.id).Known()
      modifies this`views, this`versions, records, comfy
      ensures Valid()
      ensures WorldOf(job.id) == P.Conclude(old(WorldOf(job.id)), seen, calls)
      ensures forall id :: id in jobs && id != job.id ==> WorldOf(id) == P.Elapse(old(WorldOf(id)), elapsed)
    {
      hide Valid, P.Elapse, P.Refresh, P.Command;
      P.CommandKeeps(WorldOf(job.id), seen, calls);
      var goOn;
      goOn, elapsed := SendCommand(job, seen, calls);
      if goOn {
        var last := Refresh(job, calls.lastHistory, calls.lastQueue);
        P.ElapseInTwo(elapsed, last);
        elapsed := elapsed + last;
      }
    }
  }
}
