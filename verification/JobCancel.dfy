/** What one cancel does: its outcome when nothing races it, and whose generation its interrupt hits. */
module JobCancel {
  import opened Prelude
  import opened ComfyServer
  import opened JobProtocol
  import opened JobTrace
  import opened JobSafety
  import opened JobHonesty

  /** All seven calls get through and nothing else happens; `filed` is what an interrupt leads to. */
  function QuietCalls(filed: Option<Record>): CancelCalls {
    CancelCalls(Quiet(), Quiet(), Quiet(), Quiet(), filed, Quiet(), Quiet())
  }

  /** A refresh with nothing in the way reads the place the prompt is in. */
  lemma QuietRefresh(w: World)
    requires w.Known() && !w.job.state.Terminal()
    ensures Refresh(w, Quiet(), Quiet()) ==
      Publish(w.(job := if w.Place().Done? then ApplyHistory(w.job, ReadRecord(w.Place().record))
                        else ApplyQueue(w.job, ReadQueue(w.Place()))))
  {
  }

  /** A quiet refresh of a filed prompt takes in its record. */
  lemma QuietRefreshOfAFiledPrompt(w: World)
    requires w.Known() && !w.job.state.Terminal() && w.Place().Done?
    ensures var end := Refresh(w, Quiet(), Quiet());
      IsOutcomeOf(end.job, w.Place().record) && end.places == w.places && end.job.prompt == w.job.prompt
  {
    hide ToView, ReadRecord, Refresh, ApplyHistory, IsOutcomeOf;
    QuietRefresh(w);
    QuietReadingKeepsPlaces(w);
    AppliedHistoryIsItsOutcome(w.job, w.Place().record);
  }

  /** What a quiet cancel comes to: one refresh, and for a job that is not over the command and another refresh. */
  lemma QuietCancel(w: World, filed: Option<Record>)
    requires w.Known() && !w.job.state.Terminal()
    ensures var first := Refresh(w, Quiet(), Quiet());
      var seen := ReadQueue(w.Place());
      var served := Serve(first, seen, filed);
      && first.places == w.places && first.job.prompt == w.job.prompt
      && Cancel(w, QuietCalls(filed)) ==
        if first.job.state.Terminal() then first
        else if seen == Absent then Refresh(first, Quiet(), Quiet())
        else Refresh(if seen == PendingNow then served.(job := served.job.(queueDeleted := true)) else served, Quiet(), Quiet())
  {
    hide ToView, ReadRecord, Refresh, Elapse, ApplyHistory, ApplyQueue, Serve;
    ElapseNothing();
    QuietRefresh(w);
    QuietReadingKeepsPlaces(w);
    var first := Refresh(w, Quiet(), Quiet());
    CommandKeeps(first, ReadQueue(w.Place()), QuietCalls(filed));
  }

  lemma QuietReadingKeepsPlaces(w: World)
    requires w.Known() && !w.job.state.Terminal()
    ensures Refresh(w, Quiet(), Quiet()).places == w.places && Refresh(w, Quiet(), Quiet()).job.prompt == w.job.prompt
  {
    hide ToView, ReadRecord, Refresh;
    QuietRefresh(w);
  }

  lemma QuietCancelOfAWaitingPrompt(w: World, filed: Option<Record>)
    requires w.Known() && !w.job.state.Terminal() && w.Place().Pending?
    ensures var end := Cancel(w, QuietCalls(filed));
      end.job.state == Cancelled && end.places == w.places[w.job.prompt := Deleted]
  {
    hide ToView, Refresh, Cancel;
    QuietCancel(w, filed);
    QuietRefresh(w);
    var served := Serve(Refresh(w, Quiet(), Quiet()), PendingNow, filed);
    QuietRefresh(served.(job := served.job.(queueDeleted := true)));
  }

  lemma QuietCancelOfARunningPrompt(w: World, filed: Option<Record>)
    requires w.Known() && !w.job.state.Terminal() && w.job.results == [] && w.job.error == None
    requires FirstRunning(w.places) == Some(w.job.prompt)
    ensures var end := Cancel(w, QuietCalls(filed));
      if filed.None? then end.job.state == Executing && end.places == w.places
      else end.places == w.places[w.job.prompt := Done(filed.value)] && IsOutcomeOf(end.job, filed.value)
  {
    hide ToView, Refresh, Cancel, ReadRecord, FirstRunning, IsOutcomeOf;
    QuietCancel(w, filed);
    QuietRefresh(w);
    var served := Serve(Refresh(w, Quiet(), Quiet()), RunningNow, filed);
    QuietRefresh(served);
    if filed.Some? {
      QuietRefreshOfAFiledPrompt(served);
    }
  }

  /** Running, but not the first one: the interrupt goes to the first, and this one is still running afterwards. */
  lemma QuietCancelBehindAnother(w: World, filed: Option<Record>, first: PromptId)
    requires w.Known() && !w.job.state.Terminal() && w.Place().Running?
    requires FirstRunning(w.places) == Some(first) && first != w.job.prompt && first < |w.places|
    ensures var end := Cancel(w, QuietCalls(filed));
      end.job.state == Executing && end.places == if filed.None? then w.places else w.places[first := Done(filed.value)]
  {
    hide ToView, Refresh, Cancel, ReadRecord, FirstRunning;
    QuietCancel(w, filed);
    QuietRefresh(w);
    QuietRefresh(Serve(Refresh(w, Quiet(), Quiet()), RunningNow, filed));
  }

  lemma QuietCancelOfAPromptThatLeft(w: World, filed: Option<Record>)
    requires w.Known() && !w.job.state.Terminal() && w.job.results == [] && w.job.error == None
    requires w.Place().Done? || w.Place().Gone? || w.Place().Deleted?
    ensures var end := Cancel(w, QuietCalls(filed));
      end.places == w.places
      && (w.Place().Done? ==> IsOutcomeOf(end.job, w.Place().record))
      && (!w.Place().Done? && !w.job.queueDeleted ==> end.job == w.job)
      && (!w.Place().Done? && w.job.queueDeleted ==> end.job.state == Cancelled)
  {
    hide ToView, Refresh, Cancel, ReadRecord, IsOutcomeOf;
    QuietCancel(w, filed);
    var first := Refresh(w, Quiet(), Quiet());
    if w.Place().Done? {
      QuietRefreshOfAFiledPrompt(w);
      if !first.job.state.Terminal() {
        QuietRefreshOfAFiledPrompt(first);
      }
    } else {
      QuietRefresh(w);
      if !first.job.state.Terminal() {
        QuietRefresh(first);
      }
    }
  }

  /**
   With nothing racing the cancel: a waiting prompt is deleted;
   with a running one the first running prompt ends as whatever was filed for it, and that is this one unless several run; one already in the history is answered with that,
   and one between the queue and the history is left alone, and nothing at all is sent for these two.
   */
  lemma QuietCancelReportsWhatHappened(w: World, filed: Option<Record>)
    requires Consistent(w) && !w.job.state.Terminal() && ClaimIsTrue(w)
    ensures var end := Cancel(w, QuietCalls(filed));
      match w.Place()
      case Pending =>
        end.job.state == Cancelled && end.places == w.places[w.job.prompt := Deleted]
      case Running =>
        FirstRunning(w.places).Some?
        && var hit := FirstRunning(w.places).value;
        && end.places == (if filed.None? then w.places else w.places[hit := Done(filed.value)])
        && if filed.Some? && hit == w.job.prompt then IsOutcomeOf(end.job, filed.value) else end.job.state == Executing
      case Done(record) =>
        end.places == w.places && IsOutcomeOf(end.job, record)
      case Gone =>
        end.places == w.places && end.job == w.job
      case Deleted =>
        end.places == w.places && end.job.state == (if w.job.queueDeleted then Cancelled else w.job.state)
  {
    hide Cancel, IsOutcomeOf, FirstRunning;
    var hit := FirstRunning(w.places);
    if w.Place().Pending? {
      QuietCancelOfAWaitingPrompt(w, filed);
    } else if !w.Place().Running? {
      QuietCancelOfAPromptThatLeft(w, filed);
    } else if hit == Some(w.job.prompt) {
      QuietCancelOfARunningPrompt(w, filed);
    } else {
      assert w.places[w.job.prompt].Running?;
      QuietCancelBehindAnother(w, filed, hit.value);
    }
  }

  // ----- whose generation the interrupt hits -----

  ghost predicate OthersStay(w: World, w': World) {
    |w'.places| == |w.places| && forall p :: 0 <= p < |w.places| && p != w.job.prompt ==> w'.places[p] == w.places[p]
  }

  /** Whatever ComfyUI does on its own between the steps, none of the gateway's steps moves another job's prompt. */
  ghost predicate SparesOthers(w: World, steps: seq<Step>)
    requires w.Known()
  {
    forall k: nat :: k < |steps| ==> SparesAt(w, steps, k)
  }

  ghost predicate SparesAt(w: World, steps: seq<Step>, k: nat)
    requires w.Known() && k < |steps|
  {
    steps[k].Happens? || OthersStay(At(w, steps, k), Take(At(w, steps, k), steps[k]))
  }

  /** Deleting from the queue can only ever touch the job's own prompt. */
  lemma DeleteSparesOthers(w: World, filed: Option<Record>)
    requires w.Known()
    ensures OthersStay(w, Take(w, Serves(PendingNow, filed)))
  {
    assert Take(w, Serves(PendingNow, filed)).places == MoveAll(w.places, Delete(w.job.prompt));
  }

  /** Reading, looking, publishing and claiming move nothing at ComfyUI. */
  lemma AskingSparesOthers(w: World, step: Step)
    requires w.Known() && (step.AsksHistory? || step.AsksQueue? || step.Looks? || step.Claims?)
    ensures OthersStay(w, Take(w, step))
  {
    hide ToView, ApplyHistory, ApplyQueue;
  }

  /**
   The interrupt names no prompt: it spares the others exactly when it has no effect yet, or the first
   running prompt at that moment is this job's or none.
   */
  lemma InterruptSparesOthersExactly(w: World, filed: Option<Record>)
    requires w.Known()
    ensures OthersStay(w, Take(w, Serves(RunningNow, filed))) <==>
      filed.None? || FirstRunning(w.places) in {None, Some(w.job.prompt)}
  {
    var hit, after := FirstRunning(w.places), Take(w, Serves(RunningNow, filed));
    assert after.places == InterruptAll(w.places, filed);
    if filed.Some? && hit.Some? {
      assert after.places[hit.value] == Done(filed.value) != w.places[hit.value];
    }
  }

  lemma SparesInTwo(w: World, first: seq<Step>, second: seq<Step>)
    requires w.Known()
    ensures SparesOthers(w, first + second) <==> SparesOthers(w, first) && SparesOthers(TakeAll(w, first), second)
  {
    hide Take, TakeAll, At, OthersStay;
    forall k: nat | k < |first|
      ensures SparesAt(w, first + second, k) <==> SparesAt(w, first, k)
    {
      MomentsInTwo(w, first, second, k);
    }
    forall m: nat | m < |second|
      ensures SparesAt(w, first + second, |first| + m) <==> SparesAt(TakeAll(w, first), second, m)
    {
      LaterMoment(w, first, second, m);
    }
    if SparesOthers(w, first) && SparesOthers(TakeAll(w, first), second) {
      forall k: nat | k < |first + second|
        ensures SparesAt(w, first + second, k)
      {
        if k >= |first| {
          var m: nat := k - |first|;
          assert SparesAt(TakeAll(w, first), second, m) && k == |first| + m;
        }
      }
    }
  }

  lemma SparesOne(w: World, step: Step)
    requires w.Known()
    ensures SparesOthers(w, [step]) <==> step.Happens? || OthersStay(w, Take(w, step))
  {
    hide OthersStay, Take, TakeAll, At;
    FirstMoment(w, [step]);
    assert SparesAt(w, [step], 0) <==> step.Happens? || OthersStay(w, Take(w, step));
    forall k: nat | k < |[step]|
      ensures SparesAt(w, [step], k) <==> SparesAt(w, [step], 0)
    {
    }
  }

  lemma RefreshSparesOthers(w: World, history: Call, queue: Call)
    requires w.Known()
    ensures SparesOthers(w, RefreshSteps(w, history, queue))
  {
    hide TakeAll, At, OthersStay, Take;
    var steps := RefreshSteps(w, history, queue);
    forall k: nat | k < |steps|
      ensures SparesAt(w, steps, k)
    {
      if !steps[k].Happens? {
        AskingSparesOthers(At(w, steps, k), steps[k]);
      }
    }
  }

  lemma CommandSparesOthersExactly(w: World, calls: CancelCalls)
    requires w.Known() && Elapse(w, calls.command.gap).Known()
    ensures SparesOthers(w, CommandSteps(ReadQueue(w.Place()), calls)) <==>
      !(w.Place().Running? && calls.command.delivery != RequestLost
        && InterruptHitsAnother(Elapse(w, calls.command.gap), calls.filed))
  {
    hide TakeAll, At, OthersStay, Take, Elapse;
    var seen, gap := ReadQueue(w.Place()), Gap(calls.command.gap);
    GapIsProper(w, calls.command.gap);
    assert SparesOthers(w, gap) && SparesOthers(w, []);
    if seen != Absent && calls.command.delivery != RequestLost {
      var at, serve := Elapse(w, calls.command.gap), Serves(seen, calls.filed);
      SparesInTwo(w, gap, [serve]);
      SparesOne(at, serve);
      DeleteSparesOthers(at, calls.filed);
      InterruptSparesOthersExactly(at, calls.filed);
      ElapseKeeps(w, calls.command.gap);
      if seen == PendingNow && calls.command.delivery == Answered {
        SparesInTwo(w, gap + [serve], [Claims]);
        var after := TakeAll(w, gap + [serve]);
        SparesOne(after, Claims);
        AskingSparesOthers(after, Claims);
      } else {
        assert gap + [serve] + [] == gap + [serve];
      }
    }
  }

  /** The interrupt has an effect, and it is on another prompt: the first one running is not this job's. */
  ghost predicate InterruptHitsAnother(w: World, filed: Option<Record>) {
    filed.Some? && FirstRunning(w.places).Some? && FirstRunning(w.places).value != w.job.prompt
  }

  /**
   Another prompt is stopped by a cancel: its refresh left the job going, the queue answered that the job's
   prompt is running, the interrupt was delivered and took effect, and by then another prompt was the first
   one running.
   */
  ghost predicate StopsAnother(w: World, calls: CancelCalls)
    requires w.Known()
  {
    var first := Refresh(w, calls.firstHistory, calls.firstQueue);
    RefreshKeeps(w, calls.firstHistory, calls.firstQueue);
    var atQueue := Elapse(first, calls.queue.gap);
    ElapseKeeps(first, calls.queue.gap);
    && !first.job.state.Terminal()
    && calls.queue.delivery == Answered && atQueue.Place().Running?
    && calls.command.delivery != RequestLost
    && InterruptHitsAnother(Elapse(atQueue, calls.command.gap), calls.filed)
  }

  /** A whole cancel, with its reads and its one command, leaves every other prompt to ComfyUI unless it stops another one so. */
  lemma CancelSparesOthersExactly(w: World, calls: CancelCalls)
    requires w.Known()
    ensures TakeAll(w, CancelSteps(w, calls)) == Cancel(w, calls)
    ensures SparesOthers(w, CancelSteps(w, calls)) <==> !StopsAnother(w, calls)
  {
    hide TakeAll, At, SparesOthers, Take, Elapse, Refresh, RefreshSteps, PursueSteps, InterruptHitsAnother, Cancel;
    CancelIsItsSteps(w, calls);
    RefreshSparesOthers(w, calls.firstHistory, calls.firstQueue);
    RefreshIsItsSteps(w, calls.firstHistory, calls.firstQueue);
    RefreshKeeps(w, calls.firstHistory, calls.firstQueue);
    var steps, first := RefreshSteps(w, calls.firstHistory, calls.firstQueue), Refresh(w, calls.firstHistory, calls.firstQueue);
    if first.job.state.Terminal() {
      assert steps + [] == steps;
    } else {
      SparesInTwo(w, steps, PursueSteps(first, calls));
      ElapseKeeps(first, calls.queue.gap);
      PursueSparesOthersExactly(first, calls);
    }
  }

  lemma PursueSparesOthersExactly(w: World, calls: CancelCalls)
    requires w.Known() && !w.job.state.Terminal() && Elapse(w, calls.queue.gap).Known()
    ensures SparesOthers(w, PursueSteps(w, calls)) <==>
      !(calls.queue.delivery == Answered && Elapse(w, calls.queue.gap).Place().Running?
        && calls.command.delivery != RequestLost
        && InterruptHitsAnother(Elapse(Elapse(w, calls.queue.gap), calls.command.gap), calls.filed))
  {
    hide TakeAll, At, OthersStay, Take, Elapse, InterruptHitsAnother, Refresh, RefreshSteps, CommandSteps, Command;
    var gap := Gap(calls.queue.gap);
    GapIsProper(w, calls.queue.gap);
    ElapseKeeps(w, calls.queue.gap);
    assert SparesOthers(w, gap);
    if calls.queue.delivery != Answered {
      assert gap + [] == gap;
    } else {
      var atQueue := Elapse(w, calls.queue.gap);
      var seen := ReadQueue(atQueue.Place());
      ElapseKeeps(atQueue, calls.command.gap);
      SparesInTwo(w, gap, [Looks(seen)]);
      SparesOne(atQueue, Looks(seen));
      AskingSparesOthers(atQueue, Looks(seen));
      LookingLooks(w, gap, seen);
      SparesInTwo(w, gap + [Looks(seen)], ConcludeSteps(atQueue, seen, calls));
      assert PursueSteps(w, calls) == gap + [Looks(seen)] + ConcludeSteps(atQueue, seen, calls);
      CommandSparesOthersExactly(atQueue, calls);
      ConcludeSparesLikeItsCommand(atQueue, seen, calls);
    }
  }

  lemma LookingLooks(w: World, steps: seq<Step>, seen: QueuePlace)
    requires w.Known()
    ensures TakeAll(w, steps + [Looks(seen)]) == TakeAll(w, steps)
  {
    TakeInTwo(w, steps, [Looks(seen)]);
    assert [Looks(seen)][..0] == [];
  }

  lemma ConcludeSparesLikeItsCommand(w: World, seen: QueuePlace, calls: CancelCalls)
    requires w.Known() && !w.job.state.Terminal()
    ensures SparesOthers(w, ConcludeSteps(w, seen, calls)) <==> SparesOthers(w, CommandSteps(seen, calls))
  {
    hide TakeAll, At, SparesOthers, Take, Refresh, RefreshSteps, CommandSteps, Command;
    var (after, goOn) := Command(w, seen, calls);
    CommandIsItsSteps(w, seen, calls);
    if goOn {
      CommandKeeps(w, seen, calls);
      SparesInTwo(w, CommandSteps(seen, calls), RefreshSteps(after, calls.lastHistory, calls.lastQueue));
      RefreshSparesOthers(after, calls.lastHistory, calls.lastQueue);
    } else {
      assert CommandSteps(seen, calls) + [] == CommandSteps(seen, calls);
    }
  }

  /** A cancel stops a generation that is not its own when the slot changes hands before the interrupt is delivered. */
  lemma AnInterruptThatStopsAnother(record: Record)
    ensures var start := Created("j-1", "wf", 0, [ComfyServer.Running, Pending]);
      var calls := QuietCalls(Some(record)).(command := Call([ComfyMoves(Leave(0)), ComfyMoves(Start(1))], Answered));
      Cancel(start, calls).places == [Gone, Done(record)]
  {
  }
}
