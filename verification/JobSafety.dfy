/** What every run of one job keeps: the snapshot is backed by ComfyUI, terminal states are final, versions count changes. */
module JobSafety {
  import opened Prelude
  import opened ComfyServer
  import opened JobProtocol
  import opened JobTrace

  /** The snapshot's own rules, and the entry in ComfyUI's history that backs a finished or failed job. */
  ghost predicate Consistent(w: World) {
    && w.Known()
    && w.view == ToView(w.job)
    && (w.job.state.Terminal() ==> w.job.progress.None?)
    && (w.job.progress.Some? ==>
          0 <= w.job.progress.value.step <= w.job.progress.value.total && 0 < w.job.progress.value.total)
    && (w.job.results != [] ==> w.job.state.Completed?)
    && (w.job.error.Some? <==> w.job.state.Failed?)
    && (w.job.state.Completed? ==>
          w.Place().Done?
          && WasFinished(w.Place().record)
          && ListsOutputs(w.job.results, w.Place().record))
    && (w.job.state.Failed? ==>
          w.Place().Done?
          && WasFailed(w.Place().record)
          && TellsFailure(w.job.error, w.Place().record))
  }

  /** What a watcher may rely on between two published views of one job. */
  ghost predicate ViewEvolves(v: View, v': View) {
    && v'.id == v.id
    && (v.state.Terminal() ==> v' == v)
    && (v.progress.Some? && v'.progress.None? ==> v'.state.Terminal())
  }

  /** Versions only grow, and an unchanged version is an unchanged view. */
  ghost predicate Evolves(w: World, w': World) {
    && w.version <= w'.version
    && (w.version == w'.version ==> w.view == w'.view)
    && (w.job.state.Terminal() ==> w'.job == w.job && w'.view == w.view && w'.version == w.version)
    && ViewEvolves(w.view, w'.view)
  }

  ghost predicate Sound(w: World, w': World) {
    Consistent(w) ==> Consistent(w') && Evolves(w, w')
  }

  // ----- one step -----

  lemma HappenIsSound(w: World, happening: Happening)
    requires w.Known()
    ensures Sound(w, Happen(w, happening))
  {
    HappenKeeps(w, happening);
  }

  lemma ApplyHistoryIsSound(w: World)
    requires w.Known() && w.Place().Done? && !w.job.state.Terminal()
    ensures Sound(w, Publish(w.(job := ApplyHistory(w.job, ReadHistory(w.Place())))))
  {
    hide ReadRecord, TellsFailure, ListsOutputs, ApplyHistory, IsFirstError, WasInterrupted, WasFailed, WasFinished;
    OutcomesExclude(w.Place().record);
    AppliedHistoryIsItsOutcome(w.job, w.Place().record);
    AppliedHistoryKeeps(w.job, w.Place().record);
  }

  /** What taking in a record leaves alone. */
  lemma AppliedHistoryKeeps(job: Job, record: Record)
    ensures var applied := ApplyHistory(job, ReadRecord(record));
      && applied.id == job.id && applied.workflow == job.workflow && applied.prompt == job.prompt
      && (applied.state.Executing? ==> applied == job.(state := Executing))
      && !applied.state.Queued?
      && (applied.state.Terminal() ==>
            && applied.progress == None
            && (applied.results != [] ==> applied.state.Completed?)
            && (applied.error.Some? <==> applied.state.Failed?))
  {
  }

  lemma ApplyQueueIsSound(w: World)
    requires w.Known() && !w.job.state.Terminal()
    ensures Sound(w, Publish(w.(job := ApplyQueue(w.job, ReadQueue(w.Place())))))
  {
  }

  /** Serving a command changes ComfyUI and claiming changes the claim: nothing of the snapshot. */
  lemma CommandIsSound(w: World, seen: QueuePlace, filed: Option<Record>)
    requires w.Known() && !w.job.state.Terminal()
    ensures Sound(w, Serve(w, seen, filed)) && Sound(w, w.(job := w.job.(queueDeleted := true)))
  {
  }

  lemma ReflexiveEvolves(w: World)
    ensures Consistent(w) ==> Evolves(w, w)
  {
  }

  lemma StepIsSound(w: World, step: Step)
    requires w.Known() && (!step.Happens? ==> !w.job.state.Terminal())
    ensures Sound(w, Take(w, step))
  {
    hide Consistent, Evolves, Happen, Publish, ApplyHistory, ApplyQueue, Serve;
    match step
    case Happens(happening) => HappenIsSound(w, happening);
    case AsksHistory =>
      ReflexiveEvolves(w);
      if w.Place().Done? {
        ApplyHistoryIsSound(w);
      }
    case AsksQueue => ApplyQueueIsSound(w);
    case Looks(_) => ReflexiveEvolves(w);
    case Serves(seen, filed) => CommandIsSound(w, seen, filed);
    case Claims => CommandIsSound(w, PendingNow, None);
  }

  // ----- what is published, step by step -----

  /** The views published during these steps, one for each new version. */
  function Published(w: World, steps: seq<Step>): seq<View>
    requires w.Known()
    decreases |steps|
  {
    if steps == [] then []
    else
      var front := steps[..|steps| - 1];
      var before, after := TakeAll(w, front), TakeAll(w, steps);
      Published(w, front) + if after.version == before.version then [] else [after.view]
  }

  /** One step makes one new version when it changes the view, and none otherwise. */
  lemma StepCounts(w: World, step: Step)
    requires w.Known()
    ensures var after := Take(w, step); after.version == if after.view == w.view then w.version else w.version + 1
  {
    hide ToView;
  }

  lemma PublishedNext(w: World, steps: seq<Step>, k: nat)
    requires w.Known() && k < |steps|
    ensures var before, after := At(w, steps, k), At(w, steps, k + 1);
      Published(w, steps[..k + 1]) ==
        Published(w, steps[..k]) + if after.version == before.version then [] else [after.view]
  {
    assert steps[..k + 1][..k] == steps[..k];
  }

  /** Each of these views differs from the one before it. */
  ghost predicate Changing(views: seq<View>) {
    forall i :: 0 < i < |views| ==> views[i - 1] != views[i]
  }

  /** Every view up to a moment: the one at the start and every one published since. */
  function Shown(w: World, steps: seq<Step>, k: nat): (shown: seq<View>)
    requires w.Known() && k <= |steps|
    ensures shown != []
  {
    [w.view] + Published(w, steps[..k])
  }

  ghost predicate CountsChanges(w: World, steps: seq<Step>, k: nat)
    requires w.Known() && k <= |steps|
  {
    var now, shown := At(w, steps, k), Shown(w, steps, k);
    now.version == w.version + |shown| - 1 && shown[|shown| - 1] == now.view && Changing(shown)
  }

  /** The version counts exactly the changes of the published view, at every moment. */
  lemma {:induction false} VersionCountsTheChanges(w: World, steps: seq<Step>, k: nat)
    requires w.Known() && k <= |steps|
    ensures CountsChanges(w, steps, k)
  {
    hide Take, TakeAll, At, Published;
    FirstMoment(w, steps);
    if k == 0 {
      NothingPublished(w, steps);
    } else {
      VersionCountsTheChanges(w, steps, k - 1);
      PublishedNext(w, steps, k - 1);
      NextMoment(w, steps, k - 1);
      StepCounts(At(w, steps, k - 1), steps[k - 1]);
      var before, now := Shown(w, steps, k - 1), Shown(w, steps, k);
      assert now == before || now == before + [At(w, steps, k).view];
    }
  }

  lemma ShownNext(w: World, steps: seq<Step>, k: nat)
    requires w.Known() && k < |steps|
    ensures var before, now := Shown(w, steps, k), Shown(w, steps, k + 1);
      && before[|before| - 1] == At(w, steps, k).view
      && (now == before || now == before + [At(w, steps, k + 1).view])
  {
    hide At, Published;
    PublishedNext(w, steps, k);
    VersionCountsTheChanges(w, steps, k);
  }

  lemma NothingPublished(w: World, steps: seq<Step>)
    requires w.Known()
    ensures Published(w, steps[..0]) == []
  {
  }

  // ----- every moment of every run -----

  lemma EvolvesOn(a: World, b: World, c: World)
    requires Evolves(a, b) && Evolves(b, c)
    ensures Evolves(a, c)
  {
  }

  lemma OnlyWhileNotOver(w: World, steps: seq<Step>, k: nat)
    requires w.Known() && Proper(w, steps) && k < |steps| && !steps[k].Happens?
    ensures !At(w, steps, k).job.state.Terminal()
  {
    assert ProperAt(w, steps, k);
  }

  lemma {:induction false} EveryMomentIsSound(w: World, steps: seq<Step>, from: nat, to: nat)
    requires Consistent(w) && Proper(w, steps) && from <= to <= |steps|
    ensures Consistent(At(w, steps, to)) && Evolves(At(w, steps, from), At(w, steps, to))
  {
    assert w.Known();
    hide Consistent, Evolves, Take, TakeAll, At, Proper;
    if to == 0 {
      FirstMoment(w, steps);
      ReflexiveEvolves(w);
    } else {
      var before := At(w, steps, to - 1);
      EveryMomentIsSound(w, steps, if from == to then from - 1 else from, to - 1);
      NextMoment(w, steps, to - 1);
      if !steps[to - 1].Happens? {
        OnlyWhileNotOver(w, steps, to - 1);
      }
      StepIsSound(before, steps[to - 1]);
      if from == to {
        ReflexiveEvolves(At(w, steps, to));
      } else {
        EvolvesOn(At(w, steps, from), before, At(w, steps, to));
      }
    }
  }

  /**
   Safety over whole runs: from a consistent start, whatever ComfyUI, the progress socket and the
   network do between and during the calls, at every moment the snapshot is backed by ComfyUI's own
   record, a terminal state is never left, and the version counts exactly the views published.
   */
  lemma EveryRunIsSound(w: World, actions: seq<Action>, k: nat)
    requires Consistent(w) && k <= |RunSteps(w, actions)|
    ensures var steps := RunSteps(w, actions);
      && At(w, steps, |steps|) == Run(w, actions)
      && Consistent(At(w, steps, k)) && Evolves(w, At(w, steps, k)) && CountsChanges(w, steps, k)
  {
    assert w.Known();
    hide Consistent, Evolves, CountsChanges, Proper, At, Run, RunSteps;
    var steps := RunSteps(w, actions);
    RunIsItsSteps(w, actions);
    FirstMoment(w, steps);
    EveryMomentIsSound(w, steps, 0, k);
    VersionCountsTheChanges(w, steps, k);
  }

  /** A new job is consistent: queued, published once, known to ComfyUI. */
  lemma CreatedIsConsistent(id: JobId, workflow: string, prompt: PromptId, places: seq<Place>)
    requires prompt < |places|
    ensures Consistent(Created(id, workflow, prompt, places))
  {
  }

  /** What is published of a completed job lists ComfyUI's outputs, one by one and in order, each under its own place in the list. */
  lemma PublishedResultsAreTheOutputs(w: World)
    requires Consistent(w) && w.job.state.Completed?
    ensures w.Place().Done? && w.Place().record.outputs.Some? ==>
      var outputs := w.Place().record.outputs.value;
      |w.view.results| == |outputs| && forall i :: 0 <= i < |outputs| ==>
        w.view.results[i] == ResultView(i, outputs[i].kind, outputs[i].mediaType, (w.job.id, i))
    ensures w.Place().Done? && (w.Place().record.outputs.None? ==> w.view.results == [])
  {
  }

  /**
   A refresh that is answered: a filed prompt gives the job the outcome its record says, a waiting one shows as
   queued and a running one as running, and one in neither queue as cancelled under a claim and else as before.
   */
  lemma AnsweredRefreshTellsWhatItFinds(w: World, history: Call, queue: Call)
    requires w.Known() && !w.job.state.Terminal() && history.delivery == Answered && queue.delivery == Answered
    ensures var atHistory := Elapse(w, history.gap);
      var end := Refresh(w, history, queue);
      && atHistory.Known()
      && (atHistory.Place().Done? ==> IsOutcomeOf(end.job, atHistory.Place().record))
      && (!atHistory.Place().Done? ==>
            var atQueue := Elapse(atHistory, queue.gap);
            atQueue.Known() && match atQueue.Place()
              case Pending => end.job.state == Queued
              case Running => end.job.state == Executing
              case _ => end.job.state == if w.job.queueDeleted then Cancelled else w.job.state)
  {
    hide Elapse, ToView, ApplyHistory, ReadRecord, IsOutcomeOf;
    ElapseKeeps(w, history.gap);
    var atHistory := Elapse(w, history.gap);
    ElapseKeeps(atHistory, queue.gap);
    if atHistory.Place().Done? {
      AppliedHistoryIsItsOutcome(atHistory.job, atHistory.Place().record);
    }
  }

  /** A new job: queued, published once, and nothing else known of it. */
  lemma ANewJobIsQueued(id: JobId, workflow: string, prompt: PromptId, places: seq<Place>)
    ensures var w := Created(id, workflow, prompt, places);
      && w.view == View(id, workflow, Queued, None, [], None) && w.version == 1
      && !w.job.queueDeleted && w.job.prompt == prompt && w.places == places
  {
  }

  /** A step count reaches the unfinished job whose prompt it is about, and its view; any other changes nothing. */
  lemma ReportedPositionIsShown(w: World, prompt: PromptId, value: JsonNumber, maximum: JsonNumber)
    requires Consistent(w)
    ensures var after := Happen(w, ProgressFrame(prompt, value, maximum));
      if prompt == w.job.prompt && !w.job.state.Terminal() && value.Whole? && maximum.Whole? && 0 <= value.n <= maximum.n && 0 < maximum.n
      then
        && after.job == w.job.(progress := Some(Progress(value.n, maximum.n)))
        && after.view == w.view.(progress := Some(Progress(value.n, maximum.n)))
        && after.places == w.places
      else after == w
  {
  }

  /** What is published of a job is the job's own id, workflow, state, progress and error. */
  lemma PublishedViewShowsTheJob(w: World)
    requires Consistent(w)
    ensures w.view.id == w.job.id && w.view.workflow == w.job.workflow && w.view.state == w.job.state
    ensures w.view.progress == w.job.progress && w.view.error == w.job.error
  {
  }
}
