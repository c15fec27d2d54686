/** When a job that is said to be cancelled was: the claim of a deletion, and the prompts that slip past it. */
module JobHonesty {
  import opened Prelude
  import opened ComfyServer
  import opened JobProtocol
  import opened JobTrace

  // ----- when `cancelled` is true -----

  /** `cancelled` means the prompt was interrupted, or was deleted before it started. */
  ghost predicate Honest(w: World) {
    w.Known() && (w.job.state.Cancelled? ==> Stopped(w.Place()))
  }

  ghost predicate Stopped(place: Place) {
    place.Deleted? || (place.Done? && WasInterrupted(place.record))
  }

  /**
   The branch that can lie: the claim of a deletion is standing, the prompt is in neither the
   history nor, a moment later, in the queue, and yet it was not stopped: it slipped past the delete.
   */
  ghost predicate Misreads(w: World, history: Call, queue: Call)
    requires w.Known()
  {
    var atHistory := Elapse(w, history.gap);
    ElapseKeeps(w, history.gap);
    var atQueue := Elapse(atHistory, queue.gap);
    ElapseKeeps(atHistory, queue.gap);
    && !w.job.state.Terminal()
    && w.job.queueDeleted
    && history.delivery == Answered && !atHistory.Place().Done?
    && queue.delivery == Answered && ReadQueue(atQueue.Place()) == Absent && !Stopped(atQueue.Place())
  }

  /** A refresh reports a cancellation that did not happen exactly when it misreads. */
  lemma RefreshLiesExactlyWhenItMisreads(w: World, history: Call, queue: Call)
    requires Honest(w)
    ensures Honest(Refresh(w, history, queue)) <==> !Misreads(w, history, queue)
  {
    hide Elapse, ToView;
    if !w.job.state.Terminal() {
      var atHistory := Elapse(w, history.gap);
      ElapseKeeps(w, history.gap);
      ElapseKeeps(atHistory, queue.gap);
    }
  }

  /** A cancel misreads when its first refresh does, or its last one, in the world the command left. */
  ghost predicate CancelMisreads(w: World, calls: CancelCalls)
    requires w.Known()
  {
    var first := Refresh(w, calls.firstHistory, calls.firstQueue);
    RefreshKeeps(w, calls.firstHistory, calls.firstQueue);
    if Misreads(w, calls.firstHistory, calls.firstQueue) then true
    else if first.job.state.Terminal() || calls.queue.delivery != Answered then false
    else
      var atQueue := Elapse(first, calls.queue.gap);
      ElapseKeeps(first, calls.queue.gap);
      var (after, goOn) := Command(atQueue, ReadQueue(atQueue.Place()), calls);
      CommandKeeps(atQueue, ReadQueue(atQueue.Place()), calls);
      goOn && Misreads(after, calls.lastHistory, calls.lastQueue)
  }

  lemma CommandKeepsState(w: World, seen: QueuePlace, calls: CancelCalls)
    requires w.Known()
    ensures Command(w, seen, calls).0.job.state == w.job.state
  {
    ElapseKeeps(w, calls.command.gap);
  }

  lemma CancelLiesExactlyWhenItMisreads(w: World, calls: CancelCalls)
    requires Honest(w)
    ensures Honest(Cancel(w, calls)) <==> !CancelMisreads(w, calls)
  {
    hide Refresh, Command, Elapse, ReadQueue, Misreads, Stopped;
    RefreshLiesExactlyWhenItMisreads(w, calls.firstHistory, calls.firstQueue);
    RefreshKeeps(w, calls.firstHistory, calls.firstQueue);
    var first := Refresh(w, calls.firstHistory, calls.firstQueue);
    if !first.job.state.Terminal() {
      ElapseKeeps(first, calls.queue.gap);
      var atQueue := Elapse(first, calls.queue.gap);
      var seen := ReadQueue(atQueue.Place());
      CommandKeeps(atQueue, seen, calls);
      CommandKeepsState(atQueue, seen, calls);
      RefreshLiesExactlyWhenItMisreads(Command(atQueue, seen, calls).0, calls.lastHistory, calls.lastQueue);
    }
  }

  /** The standing claim, if any, is true. */
  ghost predicate ClaimIsTrue(w: World) {
    w.Known() && (w.job.queueDeleted ==> w.Place().Deleted?)
  }

  /** A true claim is never misread, and a refresh never makes a claim. */
  lemma TrueClaimIsNeverMisread(w: World, history: Call, queue: Call)
    requires ClaimIsTrue(w)
    ensures !Misreads(w, history, queue)
    ensures ClaimIsTrue(Refresh(w, history, queue))
  {
    hide ToView;
    ElapseKeeps(w, history.gap);
    ElapseKeeps(Elapse(w, history.gap), queue.gap);
  }

  /** The executor keeps the prompt: nothing in the gap takes it out of the running slot. */
  ghost predicate StaysRunning(gap: seq<Happening>, prompt: PromptId) {
    forall i :: 0 <= i < |gap| ==>
      gap[i] != ComfyMoves(Leave(prompt))
      && (gap[i].ComfyMoves? && gap[i].move.File? ==> gap[i].move.prompt != prompt)
  }

  lemma {:induction false} RunningStays(w: World, gap: seq<Happening>)
    requires w.Known() && w.Place().Running? && StaysRunning(gap, w.job.prompt)
    ensures Elapse(w, gap).Known() && Elapse(w, gap).Place().Running?
    ensures Elapse(w, gap).job.prompt == w.job.prompt
    decreases |gap|
  {
    if gap != [] {
      RunningStays(w, gap[..|gap| - 1]);
      ElapseKeeps(w, gap[..|gap| - 1]);
    }
  }

  /** One sighting in a queue by a refresh retires a claim that did not come true. */
  lemma SightingRetiresTheClaim(w: World, history: Call, queue: Call)
    requires w.Known() && w.Place().Running? && !w.job.state.Terminal()
    requires StaysRunning(history.gap, w.job.prompt) && history.delivery == Answered
    requires StaysRunning(queue.gap, w.job.prompt) && queue.delivery == Answered
    ensures !Misreads(w, history, queue) && !Refresh(w, history, queue).job.queueDeleted
  {
    RunningStays(w, history.gap);
    ElapseKeeps(w, history.gap);
    RunningStays(Elapse(w, history.gap), queue.gap);
    ElapseKeeps(Elapse(w, history.gap), queue.gap);
  }

  // ----- one cancel -----

  /** Picked up by the executor at some time. */
  predicate Started(place: Place) {
    place.Running? || place.Gone? || place.Done?
  }

  /** In neither queue, never deleted, and not filed as interrupted. */
  ghost predicate OutOfSight(place: Place) {
    place.Gone? || (place.Done? && !WasInterrupted(place.record))
  }

  lemma {:induction false} StartedForGood(w: World, gap: seq<Happening>)
    requires w.Known() && Started(w.Place())
    ensures Elapse(w, gap).Known() && Started(Elapse(w, gap).Place())
    decreases |gap|
  {
    ElapseKeeps(w, gap);
    if gap != [] {
      StartedForGood(w, gap[..|gap| - 1]);
      ElapseKeeps(w, gap[..|gap| - 1]);
    }
  }

  /** After a claim: the history answers that there is no entry yet, and then the queue that the prompt is in neither part. */
  ghost predicate GoesUnseen(w: World, history: Call, queue: Call)
    requires w.Known()
  {
    var atHistory := Elapse(w, history.gap);
    ElapseKeeps(w, history.gap);
    var atQueue := Elapse(atHistory, queue.gap);
    ElapseKeeps(atHistory, queue.gap);
    && history.delivery == Answered && (atHistory.Place().Running? || atHistory.Place().Gone?)
    && queue.delivery == Answered && OutOfSight(atQueue.Place())
  }

  /**
   The prompt slips past a cancel: the queue's answer still has it waiting, the answered delete finds it
   already picked up or gone, and the two answers after that do not see it.
   */
  ghost predicate SlipsPastCancel(w: World, calls: CancelCalls)
    requires w.Known()
  {
    var first := Refresh(w, calls.firstHistory, calls.firstQueue);
    RefreshKeeps(w, calls.firstHistory, calls.firstQueue);
    var atQueue := Elapse(first, calls.queue.gap);
    ElapseKeeps(first, calls.queue.gap);
    var atDelete := Elapse(atQueue, calls.command.gap);
    ElapseKeeps(atQueue, calls.command.gap);
    CommandKeeps(atQueue, PendingNow, calls);
    && !first.job.state.Terminal()
    && calls.queue.delivery == Answered && atQueue.Place().Pending?
    && calls.command.delivery == Answered && (atDelete.Place().Running? || atDelete.Place().Gone?)
    && GoesUnseen(Command(atQueue, PendingNow, calls).0, calls.lastHistory, calls.lastQueue)
  }

  /** What an answered delete comes to, by where it finds the prompt. */
  lemma AnsweredDelete(w: World, calls: CancelCalls)
    requires w.Known() && calls.command.delivery == Answered && Elapse(w, calls.command.gap).Known()
    ensures var atDelete := Elapse(w, calls.command.gap);
      var (after, goOn) := Command(w, PendingNow, calls);
      && goOn && after.Known() && after.job.queueDeleted && after.job.state == atDelete.job.state
      && after.Place() == if atDelete.Place().Pending? then Deleted else atDelete.Place()
  {
    hide Elapse;
  }

  /** A claim about a prompt that was picked up is misread exactly when the prompt then goes unseen. */
  lemma ClaimIsMisreadExactlyUnseen(w: World, history: Call, queue: Call)
    requires w.Known() && !w.job.state.Terminal() && w.job.queueDeleted && Started(w.Place())
    ensures Misreads(w, history, queue) <==> GoesUnseen(w, history, queue)
  {
    hide Elapse;
    StartedForGood(w, history.gap);
    ElapseKeeps(w, history.gap);
    StartedForGood(Elapse(w, history.gap), queue.gap);
    ElapseKeeps(Elapse(w, history.gap), queue.gap);
  }

  /** A filed prompt never goes unseen: the history is asked first. */
  lemma FiledIsSeen(w: World, history: Call, queue: Call)
    requires w.Known() && w.Place().Done?
    ensures !GoesUnseen(w, history, queue)
  {
    hide Elapse;
    ElapseKeeps(w, history.gap);
  }

  /** Only an answered delete makes a claim. */
  lemma NoOtherClaim(w: World, seen: QueuePlace, calls: CancelCalls)
    requires ClaimIsTrue(w) && (seen != PendingNow || calls.command.delivery != Answered)
    ensures Command(w, seen, calls).0.Known() && ClaimIsTrue(Command(w, seen, calls).0)
    ensures seen == PendingNow ==> !Command(w, seen, calls).1
  {
    hide Elapse;
    ElapseKeeps(w, calls.command.gap);
  }

  /** From a world whose claim is true, the end of a cancel misreads exactly when the prompt slips past its delete. */
  lemma ConcludingMisreadsExactly(w: World, calls: CancelCalls)
    requires ClaimIsTrue(w) && !w.job.state.Terminal()
    ensures var (after, goOn) := Command(w, ReadQueue(w.Place()), calls);
      var atDelete := Elapse(w, calls.command.gap);
      && after.Known() && atDelete.Known() && Command(w, PendingNow, calls).0.Known()
      && (goOn && Misreads(after, calls.lastHistory, calls.lastQueue) <==>
            && w.Place().Pending? && calls.command.delivery == Answered
            && (atDelete.Place().Running? || atDelete.Place().Gone?)
            && GoesUnseen(Command(w, PendingNow, calls).0, calls.lastHistory, calls.lastQueue))
  {
    hide Elapse, Misreads, GoesUnseen, Command;
    var seen := ReadQueue(w.Place());
    CommandKeeps(w, seen, calls);
    CommandKeeps(w, PendingNow, calls);
    CommandKeepsState(w, PendingNow, calls);
    ElapseKeeps(w, calls.command.gap);
    var after := Command(w, seen, calls).0;
    if seen == PendingNow && calls.command.delivery == Answered {
      AnsweredDelete(w, calls);
      if after.Place().Deleted? {
        TrueClaimIsNeverMisread(after, calls.lastHistory, calls.lastQueue);
      } else {
        ClaimIsMisreadExactlyUnseen(after, calls.lastHistory, calls.lastQueue);
        if after.Place().Done? {
          FiledIsSeen(after, calls.lastHistory, calls.lastQueue);
        }
      }
    } else {
      NoOtherClaim(w, seen, calls);
      TrueClaimIsNeverMisread(after, calls.lastHistory, calls.lastQueue);
    }
  }

  /** From a true claim, a cancel reports a cancellation that did not happen exactly when the prompt slips past it. */
  lemma CancelLiesExactlyWhenItsPromptSlipsPast(w: World, calls: CancelCalls)
    requires Honest(w) && ClaimIsTrue(w)
    ensures Honest(Cancel(w, calls)) <==> !SlipsPastCancel(w, calls)
  {
    assert w.Known();
    hide Refresh, Command, Elapse, Misreads, GoesUnseen, Honest;
    CancelLiesExactlyWhenItMisreads(w, calls);
    TrueClaimIsNeverMisread(w, calls.firstHistory, calls.firstQueue);
    RefreshKeeps(w, calls.firstHistory, calls.firstQueue);
    var first := Refresh(w, calls.firstHistory, calls.firstQueue);
    if !first.job.state.Terminal() {
      ElapseKeeps(first, calls.queue.gap);
      ConcludingMisreadsExactly(Elapse(first, calls.queue.gap), calls);
    }
  }

  // ----- whole runs, moment by moment -----

  /** An answered delete is claimed although it found the prompt picked up already, running, gone or filed. */
  ghost predicate Slips(w: World, steps: seq<Step>, i: nat)
    requires w.Known() && i < |steps|
  {
    steps[i].Claims? && Started(At(w, steps, i).Place())
  }

  /** A refresh asks the queue, and it still has the prompt, waiting or running; a cancel's own look is not one of these. */
  ghost predicate Sights(w: World, steps: seq<Step>, j: nat)
    requires w.Known() && j < |steps|
  {
    steps[j].AsksQueue? && (At(w, steps, j).Place().Pending? || At(w, steps, j).Place().Running?)
  }

  /** A refresh asks the queue when the prompt has left it without having been deleted or filed as interrupted. */
  ghost predicate Overlooks(w: World, steps: seq<Step>, k: nat)
    requires w.Known() && k < |steps|
  {
    steps[k].AsksQueue? && OutOfSight(At(w, steps, k).Place())
  }

  ghost predicate SightedBetween(w: World, steps: seq<Step>, i: nat, k: nat)
    requires w.Known() && k <= |steps|
  {
    exists j: nat :: i < j < k && Sights(w, steps, j)
  }

  /** A prompt slips past its delete at `i`, no queue read sees it, and the one at `k` no longer can. */
  ghost predicate SlipsUnseen(w: World, steps: seq<Step>, i: nat, k: nat)
    requires w.Known() && i < k < |steps|
  {
    Slips(w, steps, i) && Overlooks(w, steps, k) && !SightedBetween(w, steps, i, k)
  }

  ghost predicate NoneSlipsUnseen(w: World, steps: seq<Step>, n: nat)
    requires w.Known() && n <= |steps|
  {
    forall i: nat, k: nat :: i < k < n ==> !SlipsUnseen(w, steps, i, k)
  }

  ghost predicate HonestThroughout(w: World, steps: seq<Step>)
    requires w.Known()
  {
    forall k: nat :: k <= |steps| ==> Honest(At(w, steps, k))
  }

  // ----- single steps -----

  /** A prompt that was deleted or filed stays so, one that was picked up was, one that left the queue does not come back. */
  lemma PlacesMoveOn(w: World, step: Step)
    requires w.Known()
    ensures var place, place' := w.Place(), Take(w, step).Place();
      && (place.Done? || place.Deleted? ==> place' == place)
      && (Started(place) ==> Started(place'))
      && (ReadQueue(place) == Absent ==> ReadQueue(place') == Absent)
  {
    hide Publish, ApplyHistory, ApplyQueue, NoteProgress;
    match step
    case Happens(happening) => HappeningMovesOn(w, happening);
    case AsksHistory => PublishKeepsPlaces(w.(job := if w.Place().Done? then ApplyHistory(w.job, ReadHistory(w.Place())) else w.job));
    case AsksQueue => PublishKeepsPlaces(w.(job := ApplyQueue(w.job, ReadQueue(w.Place()))));
    case _ =>
  }

  lemma PublishKeepsPlaces(w: World)
    ensures Publish(w).places == w.places && Publish(w).job == w.job
  {
  }

  lemma HappeningMovesOn(w: World, happening: Happening)
    requires w.Known()
    ensures var w' := Happen(w, happening);
      && w'.Known() && w'.job.prompt == w.job.prompt
      && (w.Place().Done? || w.Place().Deleted? ==> w'.Place() == w.Place())
      && (Started(w.Place()) ==> Started(w'.Place()))
      && (ReadQueue(w.Place()) == Absent ==> ReadQueue(w'.Place()) == Absent)
  {
    hide ToView;
  }

  /** How one step changes the claim, and that it says `cancelled` only in two ways. */
  lemma StepOnTheClaim(w: World, step: Step)
    requires w.Known() && (!step.Happens? ==> !w.job.state.Terminal())
    ensures var w' := Take(w, step);
      && (w'.job.queueDeleted <==> step.Claims? || (w.job.queueDeleted && (step.AsksQueue? ==> ReadQueue(w.Place()) == Absent)))
      && (w'.job.state.Cancelled? <==>
            || (step.Happens? && w.job.state.Cancelled?)
            || (step.AsksHistory? && w.Place().Done? && WasInterrupted(w.Place().record))
            || (step.AsksQueue? && ReadQueue(w.Place()) == Absent && w.job.queueDeleted)
            )
  {
    hide ToView, ReadRecord, Results, Failure, WasInterrupted;
  }

  // ----- the claim along a run -----

  /** A claim stands from where it slipped until the prompt is sighted. */
  lemma {:induction false} SlippedClaimStands(w: World, steps: seq<Step>, i: nat, k: nat)
    requires w.Known() && Proper(w, steps) && i < k <= |steps|
    requires Slips(w, steps, i) && !SightedBetween(w, steps, i, k)
    ensures At(w, steps, k).job.queueDeleted && Started(At(w, steps, k).Place())
  {
    hide Take, TakeAll, At, Proper, SightedBetween;
    var before := At(w, steps, k - 1);
    NextMoment(w, steps, k - 1);
    MayBeTaken(w, steps, k - 1);
    StepOnTheClaim(before, steps[k - 1]);
    PlacesMoveOn(before, steps[k - 1]);
    if i < k - 1 {
      NotSightedSooner(w, steps, i, k);
      SlippedClaimStands(w, steps, i, k - 1);
    }
  }

  lemma MayBeTaken(w: World, steps: seq<Step>, k: nat)
    requires w.Known() && Proper(w, steps) && k < |steps|
    ensures !steps[k].Happens? ==> !At(w, steps, k).job.state.Terminal()
  {
    assert ProperAt(w, steps, k);
  }

  lemma NotSightedSooner(w: World, steps: seq<Step>, i: nat, k: nat)
    requires w.Known() && i < k - 1 && k <= |steps| && !SightedBetween(w, steps, i, k)
    ensures !SightedBetween(w, steps, i, k - 1) && !Sights(w, steps, k - 1)
  {
  }

  /** A standing claim is true, or goes back to a prompt that slipped and has not been sighted since. */
  ghost predicate ClaimHasItsReason(w: World, steps: seq<Step>, k: nat)
    requires w.Known() && k <= |steps|
  {
    At(w, steps, k).job.queueDeleted ==>
      At(w, steps, k).Place().Deleted? || exists i: nat :: i < k && Slips(w, steps, i) && !SightedBetween(w, steps, i, k)
  }

  lemma {:induction false} ClaimsHaveReasons(w: World, steps: seq<Step>, k: nat)
    requires ClaimIsTrue(w) && Proper(w, steps) && k <= |steps|
    ensures ClaimHasItsReason(w, steps, k)
  {
    hide Take, TakeAll, At, Proper, SightedBetween, Slips;
    if k == 0 {
      FirstMoment(w, steps);
    } else {
      ClaimsHaveReasons(w, steps, k - 1);
      var before := At(w, steps, k - 1);
      NextMoment(w, steps, k - 1);
      MayBeTaken(w, steps, k - 1);
      StepOnTheClaim(before, steps[k - 1]);
      PlacesMoveOn(before, steps[k - 1]);
      if steps[k - 1].Claims? {
        NewClaimHasItsReason(w, steps, k - 1);
      } else if before.job.queueDeleted && !before.Place().Deleted? {
        var i: nat :| i < k - 1 && Slips(w, steps, i) && !SightedBetween(w, steps, i, k - 1);
        if !Sights(w, steps, k - 1) {
          StillNotSighted(w, steps, i, k - 1);
        }
      }
    }
  }

  lemma StillNotSighted(w: World, steps: seq<Step>, i: nat, k: nat)
    requires w.Known() && i < k < |steps| && !SightedBetween(w, steps, i, k) && !Sights(w, steps, k)
    ensures !SightedBetween(w, steps, i, k + 1)
  {
    hide Sights;
    assert forall j: nat :: i < j < k + 1 ==> j == k || !Sights(w, steps, j);
  }

  /** A delete that was just served has left nothing waiting: the prompt is deleted, or it had slipped. */
  lemma NewClaimHasItsReason(w: World, steps: seq<Step>, k: nat)
    requires w.Known() && Proper(w, steps) && k < |steps| && steps[k].Claims?
    ensures At(w, steps, k).Place().Deleted? || Slips(w, steps, k)
    ensures Slips(w, steps, k) ==> !SightedBetween(w, steps, k, k + 1)
  {
    hide Take, TakeAll, At;
    assert ProperAt(w, steps, k);
    NextMoment(w, steps, k - 1);
    ServedDeleteLeavesNothingWaiting(At(w, steps, k - 1), steps[k - 1]);
  }

  lemma ServedDeleteLeavesNothingWaiting(w: World, step: Step)
    requires w.Known() && step.Serves? && step.seen == PendingNow
    ensures !Take(w, step).Place().Pending?
  {
    var moved := MovePlace(w.Place(), Delete(w.job.prompt));
    assert Take(w, step).places == w.places[w.job.prompt := moved];
    assert !moved.Pending? && Take(w, step).Place() == moved;
  }

  /** As long as the run was honest, the next step is a lie exactly when it overlooks a prompt that slipped unseen. */
  lemma NextStepLiesExactly(w: World, steps: seq<Step>, k: nat)
    requires ClaimIsTrue(w) && Proper(w, steps) && k < |steps| && Honest(At(w, steps, k))
    ensures Honest(At(w, steps, k + 1)) <==> forall i: nat :: i < k ==> !SlipsUnseen(w, steps, i, k)
  {
    hide Take, TakeAll, At, Proper, SightedBetween, Slips;
    var before := At(w, steps, k);
    NextMoment(w, steps, k);
    MayBeTaken(w, steps, k);
    StepOnTheClaim(before, steps[k]);
    PlacesMoveOn(before, steps[k]);
    ClaimsHaveReasons(w, steps, k);
    AskingKeepsThePlace(before, steps[k]);
    if !Honest(At(w, steps, k + 1)) {
      assert steps[k].AsksQueue? && before.job.queueDeleted && OutOfSight(before.Place());
      var i: nat :| i < k && Slips(w, steps, i) && !SightedBetween(w, steps, i, k);
      assert SlipsUnseen(w, steps, i, k);
    }
    forall i: nat | i < k && SlipsUnseen(w, steps, i, k)
      ensures !Honest(At(w, steps, k + 1))
    {
      SlippedClaimStands(w, steps, i, k);
      assert steps[k].AsksQueue? && ReadQueue(before.Place()) == Absent;
    }
  }

  lemma AskingKeepsThePlace(w: World, step: Step)
    requires w.Known()
    ensures step.AsksQueue? || step.AsksHistory? ==> Take(w, step).Place() == w.Place()
  {
    hide ToView, ApplyHistory, ApplyQueue;
  }

  lemma {:induction false} HonestUnlessUnseen(w: World, steps: seq<Step>, n: nat)
    requires Honest(w) && ClaimIsTrue(w) && Proper(w, steps) && n <= |steps| && NoneSlipsUnseen(w, steps, |steps|)
    ensures Honest(At(w, steps, n))
  {
    hide Take, TakeAll, At, Proper, SlipsUnseen;
    FirstMoment(w, steps);
    if n > 0 {
      HonestUnlessUnseen(w, steps, n - 1);
      NextStepLiesExactly(w, steps, n - 1);
    }
  }

  /**
   At every moment of a run, `cancelled` means interrupted or deleted while waiting, exactly when no prompt
   slips unseen: none is claimed deleted after it was picked up, then not sighted in a queue by a refresh, and then looked
   for in the queue, by a refresh again, when it has left.
   */
  lemma CancelledIsTrueExactlyUnlessUnseen(w: World, actions: seq<Action>)
    requires Honest(w) && ClaimIsTrue(w)
    ensures var steps := RunSteps(w, actions);
      HonestThroughout(w, steps) <==> NoneSlipsUnseen(w, steps, |steps|)
  {
    hide Take, TakeAll, At, Proper, SlipsUnseen;
    var steps := RunSteps(w, actions);
    RunIsItsSteps(w, actions);
    if HonestThroughout(w, steps) {
      forall i: nat, k: nat | i < k < |steps|
        ensures !SlipsUnseen(w, steps, i, k)
      {
        NextStepLiesExactly(w, steps, k);
      }
    }
    if NoneSlipsUnseen(w, steps, |steps|) {
      forall n: nat | n <= |steps|
        ensures Honest(At(w, steps, n))
      {
        HonestUnlessUnseen(w, steps, n);
      }
    }
  }

  // ----- one sighting by a refresh is enough -----

  /** The history is asked and has the prompt's entry. */
  ghost predicate Finds(w: World, steps: seq<Step>, j: nat)
    requires w.Known() && j < |steps|
  {
    steps[j].AsksHistory? && At(w, steps, j).Place().Done?
  }

  ghost predicate QueueAskedBetween(steps: seq<Step>, i: nat, k: nat)
    requires k <= |steps|
  {
    exists j: nat :: i < j < k && steps[j].AsksQueue?
  }

  /**
   What keeps a prompt that slipped at `i` from going unseen: one refresh of this or any later action
   still sees it in a queue, or finds it in the history before any asks the queue again, or none asks again.
   */
  ghost predicate Noticed(w: World, steps: seq<Step>, i: nat)
    requires w.Known() && i < |steps|
  {
    || SightedBetween(w, steps, i, |steps|)
    || (exists j: nat :: i < j < |steps| && Finds(w, steps, j) && !QueueAskedBetween(steps, i, j))
    || !QueueAskedBetween(steps, i, |steps|)
  }

  lemma {:induction false} PlacesMoveOnAlong(w: World, steps: seq<Step>, from: nat, to: nat)
    requires w.Known() && from <= to <= |steps|
    ensures var place, place' := At(w, steps, from).Place(), At(w, steps, to).Place();
      && (place.Done? ==> place'.Done?)
      && (ReadQueue(place) == Absent ==> ReadQueue(place') == Absent)
  {
    hide Take, TakeAll, At;
    if from < to {
      PlacesMoveOnAlong(w, steps, from, to - 1);
      NextMoment(w, steps, to - 1);
      PlacesMoveOn(At(w, steps, to - 1), steps[to - 1]);
    }
  }

  /** Once the history has the entry, the queue is not asked any more. */
  lemma FoundIsFound(w: World, steps: seq<Step>, j: nat, k: nat)
    requires w.Known() && Proper(w, steps) && j < k < |steps| && Finds(w, steps, j)
    ensures !steps[k].AsksQueue?
  {
    hide TakeAll, At;
    assert ProperAt(w, steps, k);
    if steps[k].AsksQueue? {
      var h: nat :| h < k && MissesBefore(w, steps, h, k);
      PlacesMoveOnAlong(w, steps, if j <= h then j else h, h);
    }
  }

  /** A prompt that is noticed does not go unseen. */
  lemma NoticedIsNotUnseen(w: World, steps: seq<Step>, i: nat, k: nat)
    requires w.Known() && Proper(w, steps) && i < k < |steps| && Noticed(w, steps, i)
    ensures !SlipsUnseen(w, steps, i, k)
  {
    hide TakeAll, At, Proper, Finds, Slips;
    if SightedBetween(w, steps, i, |steps|) {
      var j: nat :| i < j < |steps| && Sights(w, steps, j);
      if k <= j {
        PlacesMoveOnAlong(w, steps, k, j);
      }
    } else if QueueAskedBetween(steps, i, |steps|) {
      var j: nat :| i < j < |steps| && Finds(w, steps, j) && !QueueAskedBetween(steps, i, j);
      if j < k {
        FoundIsFound(w, steps, j, k);
      } else {
        NotAskedAt(w, steps, j);
      }
    }
  }

  lemma NotAskedAt(w: World, steps: seq<Step>, j: nat)
    requires w.Known() && j < |steps| && Finds(w, steps, j)
    ensures !steps[j].AsksQueue?
  {
  }

  /**
   Over whole runs, at every moment: `cancelled` is true as long as each prompt that slips past a delete is
   seen in a queue by one refresh before it leaves, or found in the history first.
   */
  lemma NoticedSlipsAreHonest(w: World, actions: seq<Action>)
    requires Honest(w) && ClaimIsTrue(w)
    requires var steps := RunSteps(w, actions); forall i: nat :: i < |steps| && Slips(w, steps, i) ==> Noticed(w, steps, i)
    ensures HonestThroughout(w, RunSteps(w, actions))
  {
    hide TakeAll, At, Proper, Noticed, Slips;
    var steps := RunSteps(w, actions);
    RunIsItsSteps(w, actions);
    forall i: nat, k: nat | i < k < |steps|
      ensures !SlipsUnseen(w, steps, i, k)
    {
      if Slips(w, steps, i) {
        NoticedIsNotUnseen(w, steps, i, k);
      }
    }
    CancelledIsTrueExactlyUnlessUnseen(w, actions);
  }

  // ----- the race itself -----

  function Quiet(): Call {
    Call([], Answered)
  }

  /** A cancel during which the executor picks the prompt up just before the delete, and leaves the queue before the last look. */
  function SlippingCalls(): CancelCalls {
    CancelCalls(Quiet(), Quiet(), Quiet(), Call([ComfyMoves(Start(0))], Answered), None,
                Quiet(), Call([ComfyMoves(Leave(0))], Answered))
  }

  /**
   The promise "`cancelled` is said only when it is true" fails on this run: the prompt slips past
   the delete, the job is answered `cancelled` for good, and then the generation succeeds.
   */
  lemma ACancelledJobThatCompletes(outputs: seq<OutputFile>)
    ensures var start := Created("j-1", "wf", 0, [Pending]);
      var record := Record(Some(Status("success", true, [])), Some(outputs));
      var end := Run(start, [Stop(SlippingCalls()), Time([ComfyMoves(File(0, record))]), Read(Quiet(), Quiet())]);
      end.job.state == Cancelled && end.Place() == Done(record) && WasFinished(record) && !Honest(end)
  {
    hide Cancel, LookInHistory, LookInQueue, ToView;
    var start := Created("j-1", "wf", 0, [Pending]);
    var record := Record(Some(Status("success", true, [])), Some(outputs));
    var file := Time([ComfyMoves(File(0, record))]);
    var stop := Stop(SlippingCalls());
    var look := Read(Quiet(), Quiet());
    var cancelled := SlippingCancel(start);
    assert [stop][..0] == [] && [stop, file][..1] == [stop] && [stop, file, look][..2] == [stop, file];
    assert Run(start, []) == start;
    assert Run(start, [stop]) == cancelled;
    var filed := Elapse(cancelled, [ComfyMoves(File(0, record))]);
    assert [ComfyMoves(File(0, record))][..0] == [];
    assert Elapse(cancelled, []) == cancelled;
    assert MoveAll([Gone], File(0, record)) == [Done(record)];
    assert filed == cancelled.(places := [Done(record)]);
    assert Run(start, [stop, file]) == filed;
    assert Run(start, [stop, file, look]) == filed;
  }

  lemma SlippingCancel(start: World) returns (end: World)
    requires start == Created("j-1", "wf", 0, [Pending])
    ensures end == Cancel(start, SlippingCalls())
    ensures end.places == [Gone] && end.job.prompt == 0 && end.job.state == Cancelled
  {
    var calls := SlippingCalls();
    assert Elapse(start, []) == start;
    assert Refresh(start, Quiet(), Quiet()) == start;
    var begun := start.(places := [ComfyServer.Running]);
    assert [ComfyMoves(Start(0))][..0] == [] && [ComfyMoves(Leave(0))][..0] == [];
    assert MoveAll([Pending], Start(0)) == [ComfyServer.Running];
    assert Elapse(start, calls.command.gap) == begun;
    var claimed := begun.(job := begun.job.(queueDeleted := true));
    assert MoveAll([ComfyServer.Running], Delete(0)) == [ComfyServer.Running];
    assert Command(start, PendingNow, calls) == (claimed, true);
    var left := claimed.(places := [Gone]);
    assert Elapse(claimed, []) == claimed;
    assert MoveAll([ComfyServer.Running], Leave(0)) == [Gone];
    assert Elapse(claimed, calls.lastQueue.gap) == left;
    end := Refresh(claimed, calls.lastHistory, calls.lastQueue);
    assert end == Publish(left.(job := ApplyQueue(left.job, Absent)));
  }

  // ----- a cancel's own look does not count -----

  /** As the slipping cancel, but its last refresh does not get through: the claim is left standing. */
  function LosingCalls(): CancelCalls {
    CancelCalls(Quiet(), Quiet(), Quiet(), Call([ComfyMoves(Start(0))], Answered), None, Call([], RequestLost), Quiet())
  }

  /** A cancel whose first refresh does not get through, whose interrupt has no effect yet, and whose prompt leaves before the last look. */
  function LookingCalls(): CancelCalls {
    CancelCalls(Call([], RequestLost), Quiet(), Quiet(), Quiet(), None, Quiet(), Call([ComfyMoves(Leave(0))], Answered))
  }

  /**
   A claim that is not true stands; the next cancel itself asks the queue, is answered that the prompt is running,
   interrupts it on that answer, and then reports a cancellation that did not happen. Only a refresh retires a claim.
   */
  lemma ACancelThatLooksAndStillLies(start: World) returns (slipped: World, end: World)
    requires start.Known() && start == Created("j-1", "wf", 0, [Pending])
    ensures slipped == Cancel(start, LosingCalls())
    ensures slipped.Known() && slipped.Place() == ComfyServer.Running && slipped.job.queueDeleted
    ensures end == Cancel(slipped, LookingCalls()) && Looks(RunningNow) in CancelSteps(slipped, LookingCalls())
    ensures end.Known() && end.job.state == Cancelled && end.Place() == Gone && !Honest(end)
  {
    hide Cancel, CancelSteps;
    slipped := LosingCancel(start);
    end := LookingCancel(slipped);
  }

  lemma LosingCancel(start: World) returns (end: World)
    requires start == Created("j-1", "wf", 0, [Pending])
    ensures start.Known() && end == Cancel(start, LosingCalls())
    ensures end.places == [ComfyServer.Running] && end.job.prompt == 0 && end.job.queueDeleted && !end.job.state.Terminal()
  {
    var calls := LosingCalls();
    assert Elapse(start, []) == start;
    assert Refresh(start, Quiet(), Quiet()) == start;
    var begun := start.(places := [ComfyServer.Running]);
    assert [ComfyMoves(Start(0))][..0] == [];
    assert MoveAll([Pending], Start(0)) == [ComfyServer.Running];
    assert Elapse(start, calls.command.gap) == begun;
    end := begun.(job := begun.job.(queueDeleted := true));
    assert MoveAll([ComfyServer.Running], Delete(0)) == [ComfyServer.Running];
    assert Command(start, PendingNow, calls) == (end, true);
    assert Elapse(end, []) == end;
  }

  lemma LookingCancel(start: World) returns (end: World)
    requires start.places == [ComfyServer.Running] && start.job.prompt == 0 && start.job.queueDeleted
    requires !start.job.state.Terminal()
    ensures end == Cancel(start, LookingCalls())
    ensures Looks(RunningNow) in CancelSteps(start, LookingCalls())
    ensures end.places == [Gone] && end.job.prompt == 0 && end.job.state == Cancelled
  {
    var calls := LookingCalls();
    assert Elapse(start, []) == start;
    assert Refresh(start, calls.firstHistory, calls.firstQueue) == start;
    assert Command(start, RunningNow, calls) == (start, true);
    var left := start.(places := [Gone]);
    assert [ComfyMoves(Leave(0))][..0] == [];
    assert MoveAll([ComfyServer.Running], Leave(0)) == [Gone];
    assert Elapse(start, calls.lastQueue.gap) == left;
    end := Refresh(start, calls.lastHistory, calls.lastQueue);
    assert end == Publish(left.(job := ApplyQueue(left.job, Absent)));
    assert Looks(RunningNow) in PursueSteps(start, calls);
  }
}
