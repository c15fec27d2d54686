/** The event stream: deltas between published views, and the client that rebuilds the snapshot from them. */
module JobEvents {
  import opened Prelude
  import opened ComfyServer
  import opened JobProtocol
  import opened JobTrace
  import opened JobSafety

  datatype Event =
    | ProgressEvent(progress: Progress)
    | ResultEvent(results: seq<ResultView>)
    | ErrorEvent(message: string)
    | StateEvent(state: JobState)

  function ProgressDelta(previous: Option<View>, current: View): seq<Event> {
    if current.progress.Some? && (previous.None? || previous.value.progress != current.progress)
    then [ProgressEvent(current.progress.value)] else []
  }

  function ResultDelta(previous: Option<View>, current: View): seq<Event> {
    if current.results != [] && (previous.None? || previous.value.results != current.results)
    then [ResultEvent(current.results)] else []
  }

  function ErrorDelta(previous: Option<View>, current: View): seq<Event> {
    if current.error.Some? && (previous.None? || previous.value.error != current.error)
    then [ErrorEvent(current.error.value.message)] else []
  }

  function StateDelta(previous: Option<View>, current: View): seq<Event> {
    if previous.None? || previous.value.state != current.state then [StateEvent(current.state)] else []
  }

  /** What changed between two snapshots, the state last; nothing was sent before the first. */
  function Deltas(previous: Option<View>, current: View): seq<Event> {
    ProgressDelta(previous, current) + ResultDelta(previous, current) + ErrorDelta(previous, current)
      + StateDelta(previous, current)
  }

  /** An event is sent exactly when its part of the snapshot is there to be shown and was not shown before. */
  lemma OnlyChangesAreSent(previous: Option<View>, current: View)
    ensures forall p :: ProgressEvent(p) in Deltas(previous, current) <==>
      current.progress == Some(p) && (previous.Some? ==> previous.value.progress != Some(p))
    ensures forall results :: ResultEvent(results) in Deltas(previous, current) <==>
      current.results == results != [] && (previous.Some? ==> previous.value.results != results)
    ensures forall message :: ErrorEvent(message) in Deltas(previous, current) <==>
      current.error.Some? && current.error.value.message == message && (previous.Some? ==> previous.value.error != current.error)
    ensures forall state :: StateEvent(state) in Deltas(previous, current) <==>
      current.state == state && (previous.Some? ==> previous.value.state != state)
    ensures Deltas(Some(current), current) == []
  {
    KindsApart(previous, current);
    var p, r, e, s := ProgressDelta(previous, current), ResultDelta(previous, current), ErrorDelta(previous, current), StateDelta(previous, current);
    assert forall event :: event in Deltas(previous, current) <==> event in p || event in r || event in e || event in s;
    hide Deltas;
    assert Deltas(Some(current), current) == [] by {
      NothingChanged(current);
    }
  }

  lemma NothingChanged(current: View)
    ensures Deltas(Some(current), current) == []
  {
  }

  lemma KindsApart(previous: Option<View>, current: View)
    ensures forall event :: event in ProgressDelta(previous, current) ==> event.ProgressEvent?
    ensures forall event :: event in ResultDelta(previous, current) ==> event.ResultEvent?
    ensures forall event :: event in ErrorDelta(previous, current) ==> event.ErrorEvent?
    ensures forall event :: event in StateDelta(previous, current) ==> event.StateEvent?
  {
  }

  /** What a client holds; a terminal state ends its progress. */
  datatype Client = Client(
    state: Option<JobState>,
    progress: Option<Progress>,
    results: seq<ResultView>,
    message: Option<string>)

  function Receive(client: Client, event: Event): Client {
    match event
    case ProgressEvent(progress) => client.(progress := Some(progress))
    case ResultEvent(results) => client.(results := results)
    case ErrorEvent(message) => client.(message := Some(message))
    case StateEvent(state) => client.(state := Some(state), progress := if state.Terminal() then None else client.progress)
  }

  function ReceiveAll(client: Client, events: seq<Event>): Client
    decreases |events|
  {
    if events == [] then client else Receive(ReceiveAll(client, events[..|events| - 1]), events[|events| - 1])
  }

  const NewClient: Client := Client(None, None, [], None)

  /** The part of a snapshot that the stream carries. */
  function Carried(view: View): Client {
    Client(Some(view.state), view.progress, view.results, if view.error.Some? then Some(view.error.value.message) else None)
  }

  /** A view the store publishes: what `Consistent` says of the snapshot. */
  ghost predicate Wellformed(view: View) {
    && (view.state.Terminal() ==> view.progress.None?)
    && (view.results != [] ==> view.state.Completed?)
    && (view.error.Some? ==> view.state.Failed?)
  }

  lemma PublishedViewsAreWellformed(w: World)
    requires Consistent(w)
    ensures Wellformed(w.view)
  {
  }

  /** The views the watcher picks, in order: any two of them are some steps of the job apart. */
  ghost predicate Successive(views: seq<View>) {
    && (forall i :: 0 <= i < |views| ==> Wellformed(views[i]))
    && (forall i :: 0 < i < |views| ==> ViewEvolves(views[i - 1], views[i]))
  }

  /** Not only neighbours: every view is one that may be shown after every view before it. */
  ghost predicate AllEvolve(views: seq<View>) {
    && (forall i :: 0 <= i < |views| ==> Wellformed(views[i]))
    && (forall i, j :: 0 <= i <= j < |views| ==> ViewEvolves(views[i], views[j]))
  }

  lemma {:induction false} ShownViewsEvolve(w: World, steps: seq<Step>, n: nat)
    requires Consistent(w) && Proper(w, steps) && n <= |steps|
    ensures AllEvolve(Shown(w, steps, n))
  {
    assert w.Known();
    hide Consistent, Take, TakeAll, At, Proper, Shown, Wellformed, ViewEvolves, AllEvolve;
    if n == 0 {
      OnlyTheFirstIsShown(w, steps);
    } else {
      ShownViewsEvolve(w, steps, n - 1);
      ShownViewEvolvesNext(w, steps, n - 1);
    }
  }

  lemma ShownViewEvolvesNext(w: World, steps: seq<Step>, n: nat)
    requires Consistent(w) && Proper(w, steps) && n < |steps| && AllEvolve(Shown(w, steps, n))
    ensures AllEvolve(Shown(w, steps, n + 1))
  {
    assert w.Known();
    hide Consistent, Take, TakeAll, At, Proper, Shown, Wellformed, ViewEvolves, AllEvolve;
    var before, after := At(w, steps, n), At(w, steps, n + 1);
    ShownNext(w, steps, n);
    EveryMomentIsSound(w, steps, n, n + 1);
    assert ViewEvolves(before.view, after.view);
    PublishedViewsAreWellformed(after);
    OneMoreEvolves(Shown(w, steps, n), after.view);
  }

  lemma OnlyTheFirstIsShown(w: World, steps: seq<Step>)
    requires Consistent(w)
    ensures AllEvolve(Shown(w, steps, 0))
  {
    NothingPublished(w, steps);
    PublishedViewsAreWellformed(w);
  }

  lemma OneMoreEvolves(views: seq<View>, next: View)
    requires views != [] && AllEvolve(views) && Wellformed(next) && ViewEvolves(views[|views| - 1], next)
    ensures AllEvolve(views + [next])
  {
    hide Wellformed;
  }

  /**
   The watcher is another thread and wakes whenever something is published, in the middle of a call too.
   Whichever of all the views shown along a run it picks, in order, they are successive.
   */
  lemma PicksAreSuccessive(w: World, actions: seq<Action>, picks: seq<nat>, views: seq<View>)
    requires Consistent(w) && |views| == |picks|
    requires var steps := RunSteps(w, actions);
      var shown := Shown(w, steps, |steps|);
      && (forall i :: 0 <= i < |picks| ==> picks[i] < |shown| && views[i] == shown[picks[i]])
      && (forall i, j :: 0 <= i < j < |picks| ==> picks[i] <= picks[j])
    ensures Successive(views)
  {
    assert w.Known();
    hide Consistent, ViewEvolves, Wellformed, Proper, Shown, RunSteps;
    var steps := RunSteps(w, actions);
    RunIsItsSteps(w, actions);
    ShownViewsEvolve(w, steps, |steps|);
  }

  function Before(previous: Option<View>): Client {
    if previous.Some? then Carried(previous.value) else NewClient
  }

  ghost predicate MayFollow(previous: Option<View>, current: View) {
    Wellformed(current) && (previous.Some? ==> Wellformed(previous.value) && ViewEvolves(previous.value, current))
  }

  lemma AtMostOne(client: Client, events: seq<Event>)
    requires |events| <= 1
    ensures ReceiveAll(client, events) == if events == [] then client else Receive(client, events[0])
  {
    if events != [] {
      assert events[..0] == [];
    }
  }

  /** One batch brings a client from the view sent before to the current one. */
  lemma BatchRebuilds(previous: Option<View>, current: View)
    requires MayFollow(previous, current)
    ensures ReceiveAll(Before(previous), Deltas(previous, current)) == Carried(current)
  {
    hide ReceiveAll;
    var progress, results := ProgressDelta(previous, current), ResultDelta(previous, current);
    var error, state := ErrorDelta(previous, current), StateDelta(previous, current);
    var start := Before(previous);
    ReceiveInTwo(start, progress + results + error, state);
    ReceiveInTwo(start, progress + results, error);
    ReceiveInTwo(start, progress, results);
    AtMostOne(start, progress);
    var withProgress := ReceiveAll(start, progress);
    AtMostOne(withProgress, results);
    var withResults := ReceiveAll(withProgress, results);
    AtMostOne(withResults, error);
    AtMostOne(ReceiveAll(withResults, error), state);
  }

  lemma {:induction false} ReceiveInTwo(client: Client, first: seq<Event>, second: seq<Event>)
    ensures ReceiveAll(client, first + second) == ReceiveAll(ReceiveAll(client, first), second)
    decreases |second|
  {
    hide Receive;
    if second == [] {
      assert first + second == first;
    } else {
      var front := second[..|second| - 1];
      ReceiveInTwo(client, first, front);
      assert (first + second)[..|first + second| - 1] == first + front;
    }
  }

  // ----- the whole stream -----

  /** Everything sent for the views the watcher picked, in order. */
  function Stream(views: seq<View>): seq<Event> {
    if views == [] then []
    else
      var front := views[..|views| - 1];
      Stream(front) + Deltas(Last(front), views[|views| - 1])
  }

  function Last(views: seq<View>): Option<View> {
    if views == [] then None else Some(views[|views| - 1])
  }

  /**
   Folding all messages from an empty start gives, after each batch, the state, progress, results and
   error message of the view it was about, whichever published views the watcher happened to pick.
   */
  lemma {:induction false} StreamRebuildsTheSnapshot(views: seq<View>)
    requires Successive(views)
    ensures ReceiveAll(NewClient, Stream(views)) == Before(Last(views))
  {
    if views != [] {
      var front := views[..|views| - 1];
      StreamRebuildsTheSnapshot(front);
      var current := views[|views| - 1];
      assert MayFollow(Last(front), current);
      ReceiveInTwo(NewClient, Stream(front), Deltas(Last(front), current));
      BatchRebuilds(Last(front), current);
    }
  }

  /** The state is the last message of its batch: whoever is told it has by then been told what it stands for. */
  lemma PayloadPrecedesTheState(previous: Option<View>, current: View, n: nat)
    requires MayFollow(previous, current)
    requires n < |Deltas(previous, current)| && Deltas(previous, current)[n].StateEvent?
    ensures n == |Deltas(previous, current)| - 1
    ensures var client := ReceiveAll(Before(previous), Deltas(previous, current)[..n]);
      client.results == current.results && client.message == Carried(current).message
  {
    hide ReceiveAll;
    var payload := ProgressDelta(previous, current) + ResultDelta(previous, current) + ErrorDelta(previous, current);
    assert n == |payload| && Deltas(previous, current)[..n] == payload;
    ReceiveInTwo(Before(previous), payload, StateDelta(previous, current));
    BatchRebuilds(previous, current);
    AtMostOne(ReceiveAll(Before(previous), payload), StateDelta(previous, current));
  }

  /** After a terminal state there is nothing more to say. */
  lemma NothingFollowsATerminalState(previous: View, current: View)
    requires previous.state.Terminal() && ViewEvolves(previous, current)
    ensures Deltas(Some(previous), current) == []
  {
  }

  /** One turn of the watcher: what the store had published when it looked, and whether the client was gone. */
  datatype Turn = Turn(view: View, gone: bool)

  /** The views the loop sends, one per turn, until one of them is terminal or the client has gone. */
  function Picked(first: View, turns: seq<Turn>): (picked: seq<View>)
    ensures picked != [] && picked[0] == first
    decreases |turns|
  {
    if turns == [] || first.state.Terminal() || turns[0].gone then [first]
    else [first] + Picked(turns[0].view, turns[1..])
  }

  /** No turn is skipped, nothing is sent after a terminal state, and the loop does not end before it has to. */
  lemma {:induction false} PicksUntilOver(first: View, turns: seq<Turn>)
    ensures var picked := Picked(first, turns); var n := |picked| - 1;
      && n <= |turns|
      && (forall i :: 0 <= i < n ==> picked[i + 1] == turns[i].view && !turns[i].gone && !picked[i].state.Terminal())
      && (picked[n].state.Terminal() || n == |turns| || turns[n].gone)
    decreases |turns|
  {
    if turns != [] && !first.state.Terminal() && !turns[0].gone {
      PicksUntilOver(turns[0].view, turns[1..]);
    }
  }

  lemma PickedNext(sent: View, turns: seq<Turn>, n: nat)
    requires n <= |turns|
    ensures Picked(sent, turns[n..]) ==
      if n == |turns| || sent.state.Terminal() || turns[n].gone then [sent]
      else [sent] + Picked(turns[n].view, turns[n + 1..])
  {
    if n < |turns| {
      assert turns[n..][1..] == turns[n + 1..];
    }
  }

  lemma StreamNext(before: seq<View>, sent: View, view: View)
    ensures Stream(before + [sent] + [view]) == Stream(before + [sent]) + Deltas(Some(sent), view)
  {
    hide Deltas;
    var all := before + [sent] + [view];
    assert all[..|all| - 1] == before + [sent];
  }

  lemma StreamOfOne(view: View)
    ensures Stream([] + [view]) == Deltas(None, view)
  {
    hide Deltas;
    assert ([] + [view])[..0] == [] && Stream([]) == [];
  }

  /** The watch loop without the socket. `first` is the view after the opening refresh. */
  method Watch(first: View, turns: seq<Turn>) returns (events: seq<Event>)
    ensures events == Stream(Picked(first, turns))
  {
    hide Deltas, Stream, Picked;
    var sent := first;
    events := Deltas(None, first);
    StreamOfOne(first);
    ghost var before := [];
    assert turns[0..] == turns;
    var n := 0;
    while n < |turns| && !sent.state.Terminal() && !turns[n].gone
      invariant 0 <= n <= |turns|
      invariant events == Stream(before + [sent])
      invariant before + Picked(sent, turns[n..]) == Picked(first, turns)
    {
      var view := turns[n].view;
      PickedNext(sent, turns, n);
      StreamNext(before, sent, view);
      events := events + Deltas(Some(sent), view);
      before := before + [sent];
      sent := view;
      n := n + 1;
    }
    PickedNext(sent, turns, n);
  }
}
