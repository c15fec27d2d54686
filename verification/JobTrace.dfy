/**
 A run moment by moment: every action is a sequence of single steps, so that what holds during a
 call can be said as well as what holds after it.
 */
module JobTrace {
  import opened Prelude
  import opened ComfyServer
  import opened JobProtocol

  /**
   Something happens elsewhere; a refresh takes in an answer; a cancel looks in the queue, which by itself
   changes nothing; its command is served; an answered delete is claimed.
   */
  datatype Step =
    | Happens(happening: Happening)
    | AsksHistory
    | AsksQueue
    | Looks(seen: QueuePlace)
    | Serves(seen: QueuePlace, filed: Option<Record>)
    | Claims

  function Take(w: World, step: Step): (r: World)
    requires w.Known()
    ensures r.Known() && r.job.prompt == w.job.prompt
  {
    match step
    case Happens(happening) => Happen(w, happening)
    case AsksHistory =>
      if w.Place().Done? then Publish(w.(job := ApplyHistory(w.job, ReadHistory(w.Place())))) else w
    case AsksQueue => Publish(w.(job := ApplyQueue(w.job, ReadQueue(w.Place()))))
    case Looks(_) => w
    case Serves(seen, filed) => Serve(w, seen, filed)
    case Claims => w.(job := w.job.(queueDeleted := true))
  }

  function TakeAll(w: World, steps: seq<Step>): (r: World)
    requires w.Known()
    ensures r.Known() && r.job.prompt == w.job.prompt
    decreases |steps|
  {
    if steps == [] then w else Take(TakeAll(w, steps[..|steps| - 1]), steps[|steps| - 1])
  }

  /** The world before step `k`. */
  function At(w: World, steps: seq<Step>, k: nat): (r: World)
    requires w.Known() && k <= |steps|
    ensures r.Known() && r.job.prompt == w.job.prompt
  {
    TakeAll(w, steps[..k])
  }

  lemma NextMoment(w: World, steps: seq<Step>, k: nat)
    requires w.Known() && k < |steps|
    ensures At(w, steps, k + 1) == Take(At(w, steps, k), steps[k])
  {
    hide Take;
    assert steps[..k + 1][..k] == steps[..k];
  }

  lemma FirstMoment(w: World, steps: seq<Step>)
    requires w.Known()
    ensures At(w, steps, 0) == w && At(w, steps, |steps|) == TakeAll(w, steps)
  {
    assert steps[..|steps|] == steps;
  }

  lemma {:induction false} TakeInTwo(w: World, first: seq<Step>, second: seq<Step>)
    requires w.Known()
    ensures TakeAll(w, first + second) == TakeAll(TakeAll(w, first), second)
    decreases |second|
  {
    hide Take;
    if second == [] {
      assert first + second == first;
    } else {
      var front := second[..|second| - 1];
      TakeInTwo(w, first, front);
      assert (first + second)[..|first + second| - 1] == first + front;
    }
  }

  lemma MomentsInTwo(w: World, first: seq<Step>, second: seq<Step>, k: nat)
    requires w.Known() && k <= |first + second|
    ensures At(w, first + second, k) ==
      if k <= |first| then At(w, first, k) else At(TakeAll(w, first), second, k - |first|)
  {
    hide Take;
    if k <= |first| {
      assert (first + second)[..k] == first[..k];
    } else {
      assert (first + second)[..k] == first + second[..k - |first|];
      TakeInTwo(w, first, second[..k - |first|]);
    }
  }

  // ----- the steps of each action -----

  function Gap(gap: seq<Happening>): (steps: seq<Step>)
    ensures |steps| == |gap| && forall i :: 0 <= i < |gap| ==> steps[i] == Happens(gap[i])
  {
    seq(|gap|, i requires 0 <= i < |gap| => Happens(gap[i]))
  }

  function RefreshSteps(w: World, history: Call, queue: Call): seq<Step>
    requires w.Known()
  {
    if w.job.state.Terminal() then []
    else if history.delivery != Answered then Gap(history.gap)
    else
      ElapseKeeps(w, history.gap);
      if Elapse(w, history.gap).Place().Done? then Gap(history.gap) + [AsksHistory]
      else Gap(history.gap) + [AsksHistory] + Gap(queue.gap) + if queue.delivery == Answered then [AsksQueue] else []
  }

  function CommandSteps(seen: QueuePlace, calls: CancelCalls): seq<Step> {
    if seen == Absent then []
    else if calls.command.delivery == RequestLost then Gap(calls.command.gap)
    else
      Gap(calls.command.gap) + [Serves(seen, calls.filed)]
      + if calls.command.delivery == Answered && seen == PendingNow then [Claims] else []
  }

  function CancelSteps(w: World, calls: CancelCalls): seq<Step>
    requires w.Known()
  {
    var first := Refresh(w, calls.firstHistory, calls.firstQueue);
    RefreshKeeps(w, calls.firstHistory, calls.firstQueue);
    RefreshSteps(w, calls.firstHistory, calls.firstQueue)
    + if first.job.state.Terminal() then [] else PursueSteps(first, calls)
  }

  function PursueSteps(w: World, calls: CancelCalls): seq<Step>
    requires w.Known()
  {
    var atQueue := Elapse(w, calls.queue.gap);
    ElapseKeeps(w, calls.queue.gap);
    Gap(calls.queue.gap)
    + if calls.queue.delivery != Answered then []
      else
        var seen := ReadQueue(atQueue.Place());
        [Looks(seen)] + ConcludeSteps(atQueue, seen, calls)
  }

  function ConcludeSteps(w: World, seen: QueuePlace, calls: CancelCalls): seq<Step>
    requires w.Known()
  {
    var (after, goOn) := Command(w, seen, calls);
    CommandKeeps(w, seen, calls);
    CommandSteps(seen, calls) + if goOn then RefreshSteps(after, calls.lastHistory, calls.lastQueue) else []
  }

  function ActSteps(w: World, action: Action): seq<Step>
    requires w.Known()
  {
    match action
    case Time(gap) => Gap(gap)
    case Read(history, queue) => RefreshSteps(w, history, queue)
    case Stop(calls) => CancelSteps(w, calls)
  }

  function RunSteps(w: World, actions: seq<Action>): seq<Step>
    requires w.Known()
    decreases |actions|
  {
    if actions == [] then []
    else
      var front := actions[..|actions| - 1];
      RunSteps(w, front) + ActSteps(Run(w, front), actions[|actions| - 1])
  }

  // ----- what the steps of a run are like -----

  /**
   Nothing but happenings touches a job that is over; a refresh asks the queue only when the history has just
   been asked without finding an entry; a cancel's look sees where the prompt is; a claim follows the service
   of the delete it is about.
   */
  ghost predicate ProperAt(w: World, steps: seq<Step>, k: nat)
    requires w.Known() && k < |steps|
  {
    && (!steps[k].Happens? ==> !At(w, steps, k).job.state.Terminal())
    && (steps[k].AsksQueue? ==> exists h: nat :: h < k && MissesBefore(w, steps, h, k))
    && (steps[k].Looks? ==> steps[k].seen == ReadQueue(At(w, steps, k).Place()))
    && (steps[k].Claims? ==> k > 0 && steps[k - 1].Serves? && steps[k - 1].seen == PendingNow)
  }

  /** The history was asked at `h`, found nothing, and the next thing asked is step `k`. */
  ghost predicate MissesBefore(w: World, steps: seq<Step>, h: nat, k: nat)
    requires w.Known() && h < k <= |steps|
  {
    && steps[h].AsksHistory? && !At(w, steps, h).Place().Done?
    && forall m :: h < m < k ==> steps[m].Happens?
  }

  ghost predicate Proper(w: World, steps: seq<Step>)
    requires w.Known()
  {
    forall k: nat :: k < |steps| ==> ProperAt(w, steps, k)
  }

  /** More steps afterwards change nothing about an earlier one. */
  lemma StaysProper(w: World, first: seq<Step>, second: seq<Step>, k: nat)
    requires w.Known() && k < |first| && ProperAt(w, first, k)
    ensures ProperAt(w, first + second, k)
  {
    hide Take, TakeAll, At;
    MomentsInTwo(w, first, second, k);
    if first[k].AsksQueue? {
      var h: nat :| h < k && MissesBefore(w, first, h, k);
      MissStays(w, first, second, h, k);
    }
  }

  lemma MissStays(w: World, first: seq<Step>, second: seq<Step>, h: nat, k: nat)
    requires w.Known() && h < k <= |first| && MissesBefore(w, first, h, k)
    ensures MissesBefore(w, first + second, h, k)
  {
    hide Take, TakeAll, At;
    MomentsInTwo(w, first, second, h);
  }

  lemma ProperInTwo(w: World, first: seq<Step>, second: seq<Step>)
    requires w.Known() && Proper(w, first) && Proper(TakeAll(w, first), second)
    ensures Proper(w, first + second)
  {
    hide Take, TakeAll, At;
    var all := first + second;
    forall k: nat | k < |all|
      ensures ProperAt(w, all, k)
    {
      if k < |first| {
        StaysProper(w, first, second, k);
      } else {
        LaterIsProper(w, first, second, k - |first|);
      }
    }
  }

  lemma LaterIsProper(w: World, first: seq<Step>, second: seq<Step>, m: nat)
    requires w.Known() && m < |second| && ProperAt(TakeAll(w, first), second, m)
    ensures ProperAt(w, first + second, |first| + m)
  {
    hide Take, TakeAll, At, MissesBefore;
    LaterMoment(w, first, second, m);
    if second[m].AsksQueue? {
      var h: nat :| h < m && MissesBefore(TakeAll(w, first), second, h, m);
      MissIsLater(w, first, second, h, m);
    }
  }

  lemma LaterMoment(w: World, first: seq<Step>, second: seq<Step>, m: nat)
    requires w.Known() && m <= |second|
    ensures At(w, first + second, |first| + m) == At(TakeAll(w, first), second, m)
  {
    hide Take, TakeAll, At;
    MomentsInTwo(w, first, second, |first| + m);
    FirstMoment(TakeAll(w, first), second);
    FirstMoment(w, first);
  }

  lemma MissIsLater(w: World, first: seq<Step>, second: seq<Step>, h: nat, m: nat)
    requires w.Known() && h < m <= |second| && MissesBefore(TakeAll(w, first), second, h, m)
    ensures MissesBefore(w, first + second, |first| + h, |first| + m)
  {
    hide Take, TakeAll, At;
    LaterMoment(w, first, second, h);
  }

  lemma {:induction false} GapIsProper(w: World, gap: seq<Happening>)
    requires w.Known()
    ensures TakeAll(w, Gap(gap)) == Elapse(w, gap) && Proper(w, Gap(gap))
    decreases |gap|
  {
    hide Happen;
    if gap != [] {
      var front := gap[..|gap| - 1];
      GapIsProper(w, front);
      assert Gap(gap)[..|gap| - 1] == Gap(front);
    }
  }

  /** One more step, taken while the job is not over. */
  lemma ProperSnoc(w: World, steps: seq<Step>, step: Step)
    requires w.Known() && Proper(w, steps) && !TakeAll(w, steps).job.state.Terminal()
    requires step.AsksQueue? ==> exists h: nat :: h < |steps| && MissesBefore(w, steps, h, |steps|)
    requires step.Looks? ==> step.seen == ReadQueue(TakeAll(w, steps).Place())
    requires step.Claims? ==> steps != [] && steps[|steps| - 1].Serves? && steps[|steps| - 1].seen == PendingNow
    ensures Proper(w, steps + [step]) && TakeAll(w, steps + [step]) == Take(TakeAll(w, steps), step)
  {
    hide Take, TakeAll, At, ProperAt;
    forall m: nat | m < |steps|
      ensures ProperAt(w, steps + [step], m)
    {
      StaysProper(w, steps, [step], m);
    }
    LastIsProper(w, steps, step);
  }

  lemma LastIsProper(w: World, steps: seq<Step>, step: Step)
    requires w.Known() && !TakeAll(w, steps).job.state.Terminal()
    requires step.AsksQueue? ==> exists h: nat :: h < |steps| && MissesBefore(w, steps, h, |steps|)
    requires step.Looks? ==> step.seen == ReadQueue(TakeAll(w, steps).Place())
    requires step.Claims? ==> steps != [] && steps[|steps| - 1].Serves? && steps[|steps| - 1].seen == PendingNow
    ensures ProperAt(w, steps + [step], |steps|) && TakeAll(w, steps + [step]) == Take(TakeAll(w, steps), step)
  {
    hide Take, TakeAll, At, MissesBefore;
    var all, k := steps + [step], |steps|;
    NextMoment(w, all, k);
    FirstMoment(w, all);
    FirstMoment(w, steps);
    MomentsInTwo(w, steps, [step], k);
    if step.AsksQueue? {
      var h: nat :| h < k && MissesBefore(w, steps, h, k);
      MissStays(w, steps, [step], h, k);
    }
  }

  lemma RefreshIsItsSteps(w: World, history: Call, queue: Call)
    requires w.Known()
    ensures TakeAll(w, RefreshSteps(w, history, queue)) == Refresh(w, history, queue)
    ensures Proper(w, RefreshSteps(w, history, queue))
  {
    hide Take, TakeAll, At, Elapse, Publish, ApplyHistory, ApplyQueue;
    if w.job.state.Terminal() {
      NothingTaken(w);
    } else {
      GapIsProper(w, history.gap);
      ElapseKeeps(w, history.gap);
      var asked := Elapse(w, history.gap);
      if history.delivery == Answered {
        ProperSnoc(w, Gap(history.gap), AsksHistory);
        AskedHistory(asked);
        if !asked.Place().Done? {
          QueueIsItsSteps(w, history.gap, queue);
        }
      }
    }
  }

  lemma NothingTaken(w: World)
    requires w.Known()
    ensures TakeAll(w, []) == w && Proper(w, [])
  {
  }

  lemma AskedHistory(w: World)
    requires w.Known()
    ensures Take(w, AsksHistory) ==
      if ReadHistory(w.Place()).Entry? then Publish(w.(job := ApplyHistory(w.job, ReadHistory(w.Place())))) else w
  {
  }

  lemma AskedQueue(w: World)
    requires w.Known()
    ensures Take(w, AsksQueue) == Publish(w.(job := ApplyQueue(w.job, ReadQueue(w.Place()))))
  {
  }

  lemma QueueIsItsSteps(w: World, gap: seq<Happening>, queue: Call)
    requires w.Known() && !w.job.state.Terminal()
    requires Proper(w, Gap(gap) + [AsksHistory]) && TakeAll(w, Gap(gap) + [AsksHistory]) == Elapse(w, gap) == TakeAll(w, Gap(gap))
    requires Elapse(w, gap).Known() && !Elapse(w, gap).Place().Done? && !Elapse(w, gap).job.state.Terminal()
    ensures var steps := Gap(gap) + [AsksHistory] + Gap(queue.gap) + if queue.delivery == Answered then [AsksQueue] else [];
      TakeAll(w, steps) == LookInQueue(Elapse(w, gap), queue) && Proper(w, steps)
  {
    hide Take, TakeAll, Elapse, Publish, ApplyQueue, Proper;
    var asked, before := Elapse(w, gap), Gap(gap) + [AsksHistory];
    var steps := before + Gap(queue.gap);
    GapIsProper(asked, queue.gap);
    ElapseKeeps(asked, queue.gap);
    ProperInTwo(w, before, Gap(queue.gap));
    TakeInTwo(w, before, Gap(queue.gap));
    if queue.delivery == Answered {
      assert MissesBefore(w, steps, |gap|, |steps|) by {
        assert steps[..|gap|] == Gap(gap);
      }
      ProperSnoc(w, steps, AsksQueue);
      AskedQueue(Elapse(asked, queue.gap));
    } else {
      assert steps + [] == steps;
    }
  }

  lemma CommandIsItsSteps(w: World, seen: QueuePlace, calls: CancelCalls)
    requires w.Known() && !w.job.state.Terminal()
    ensures TakeAll(w, CommandSteps(seen, calls)) == Command(w, seen, calls).0 && Proper(w, CommandSteps(seen, calls))
    ensures !Command(w, seen, calls).0.job.state.Terminal()
  {
    hide TakeAll, At, Elapse, Serve, Proper;
    NothingTaken(w);
    GapIsProper(w, calls.command.gap);
    ElapseKeeps(w, calls.command.gap);
    if seen != Absent && calls.command.delivery != RequestLost {
      var served := Gap(calls.command.gap) + [Serves(seen, calls.filed)];
      ProperSnoc(w, Gap(calls.command.gap), Serves(seen, calls.filed));
      ServingKeepsTheJob(Elapse(w, calls.command.gap), seen, calls.filed);
      if calls.command.delivery == Answered && seen == PendingNow {
        ProperSnoc(w, served, Claims);
      } else {
        assert served + [] == served;
      }
    }
  }

  lemma ServingKeepsTheJob(w: World, seen: QueuePlace, filed: Option<Record>)
    ensures Serve(w, seen, filed).job == w.job
  {
  }

  lemma ConcludeIsItsSteps(w: World, seen: QueuePlace, calls: CancelCalls)
    requires w.Known() && !w.job.state.Terminal()
    ensures TakeAll(w, ConcludeSteps(w, seen, calls)) == Conclude(w, seen, calls) && Proper(w, ConcludeSteps(w, seen, calls))
  {
    hide TakeAll, At, Elapse, Serve, Proper, RefreshSteps, CommandSteps, Command, Refresh;
    var (after, goOn) := Command(w, seen, calls);
    CommandIsItsSteps(w, seen, calls);
    CommandKeeps(w, seen, calls);
    if goOn {
      RefreshIsItsSteps(after, calls.lastHistory, calls.lastQueue);
      TakeInTwo(w, CommandSteps(seen, calls), RefreshSteps(after, calls.lastHistory, calls.lastQueue));
      ProperInTwo(w, CommandSteps(seen, calls), RefreshSteps(after, calls.lastHistory, calls.lastQueue));
    } else {
      assert CommandSteps(seen, calls) + [] == CommandSteps(seen, calls);
    }
  }

  lemma PursueIsItsSteps(w: World, calls: CancelCalls)
    requires w.Known() && !w.job.state.Terminal()
    ensures TakeAll(w, PursueSteps(w, calls)) == Pursue(w, calls) && Proper(w, PursueSteps(w, calls))
  {
    hide TakeAll, At, Elapse, Proper, ConcludeSteps, Conclude;
    GapIsProper(w, calls.queue.gap);
    ElapseKeeps(w, calls.queue.gap);
    if calls.queue.delivery == Answered {
      var atQueue := Elapse(w, calls.queue.gap);
      var seen := ReadQueue(atQueue.Place());
      var looked := Gap(calls.queue.gap) + [Looks(seen)];
      ProperSnoc(w, Gap(calls.queue.gap), Looks(seen));
      ConcludeIsItsSteps(atQueue, seen, calls);
      TakeInTwo(w, looked, ConcludeSteps(atQueue, seen, calls));
      ProperInTwo(w, looked, ConcludeSteps(atQueue, seen, calls));
      assert PursueSteps(w, calls) == looked + ConcludeSteps(atQueue, seen, calls);
    } else {
      assert Gap(calls.queue.gap) + [] == Gap(calls.queue.gap);
    }
  }

  lemma CancelIsItsSteps(w: World, calls: CancelCalls)
    requires w.Known()
    ensures TakeAll(w, CancelSteps(w, calls)) == Cancel(w, calls) && Proper(w, CancelSteps(w, calls))
  {
    hide TakeAll, At, Proper, RefreshSteps, Refresh, PursueSteps, Pursue;
    var steps, first := RefreshSteps(w, calls.firstHistory, calls.firstQueue), Refresh(w, calls.firstHistory, calls.firstQueue);
    RefreshIsItsSteps(w, calls.firstHistory, calls.firstQueue);
    RefreshKeeps(w, calls.firstHistory, calls.firstQueue);
    if first.job.state.Terminal() {
      assert steps + [] == steps;
    } else {
      PursueIsItsSteps(first, calls);
      TakeInTwo(w, steps, PursueSteps(first, calls));
      ProperInTwo(w, steps, PursueSteps(first, calls));
    }
  }

  lemma ActIsItsSteps(w: World, action: Action)
    requires w.Known()
    ensures TakeAll(w, ActSteps(w, action)) == Act(w, action) && Proper(w, ActSteps(w, action))
  {
    hide TakeAll, Proper, RefreshSteps, Refresh, CancelSteps, Cancel;
    match action
    case Time(gap) => GapIsProper(w, gap);
    case Read(history, queue) => RefreshIsItsSteps(w, history, queue);
    case Stop(calls) => CancelIsItsSteps(w, calls);
  }

  /** Every run is its steps, one after another, and they are proper ones. */
  lemma {:induction false} RunIsItsSteps(w: World, actions: seq<Action>)
    requires w.Known()
    ensures TakeAll(w, RunSteps(w, actions)) == Run(w, actions) && Proper(w, RunSteps(w, actions))
    decreases |actions|
  {
    hide TakeAll, Proper, ActSteps, Act;
    if actions == [] {
      NothingTaken(w);
    } else {
      var front, last := actions[..|actions| - 1], actions[|actions| - 1];
      RunIsItsSteps(w, front);
      ActIsItsSteps(Run(w, front), last);
      TakeInTwo(w, RunSteps(w, front), ActSteps(Run(w, front), last));
      ProperInTwo(w, RunSteps(w, front), ActSteps(Run(w, front), last));
    }
  }
}
