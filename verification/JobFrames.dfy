/** ComfyUI's event socket: whose step count a progress frame is, when older builds do not say. */
module JobFrames {
  import opened Prelude
  import opened JobProtocol

  type Prompt = string

  /** One frame, as far as it is read; a prompt is absent when the frame names none or an empty one. */
  datatype Frame =
    | Counts(prompt: Option<Prompt>, value: JsonNumber, maximum: JsonNumber)
    | Node(prompt: Option<Prompt>, last: bool)
    | Started(prompt: Option<Prompt>)
    | Cached(prompt: Option<Prompt>)
    | Ended(prompt: Option<Prompt>)
    | Other

  /** What the listener asks of the job store. */
  datatype SinkCall = NoteProgress(prompt: Prompt, position: Progress) | NoteChange(prompt: Prompt)

  /** The prompt the listener believes to be executing, after a frame. */
  function Believed(executing: Option<Prompt>, frame: Frame): Option<Prompt> {
    match frame
    case Node(Some(p), _) => Some(p)
    case Started(Some(p)) => Some(p)
    case Cached(Some(p)) => if executing == Some(p) then None else executing
    case Ended(Some(p)) => if executing == Some(p) then None else executing
    case _ => executing
  }

  /** The call one frame leads to, if any. */
  function Calls(executing: Option<Prompt>, frame: Frame): seq<SinkCall> {
    match frame
    case Counts(prompt, value, maximum) =>
      var whose := if prompt.Some? then prompt else executing;
      var position := Position(value, maximum);
      if whose.Some? && position.Some? then [NoteProgress(whose.value, position.value)] else []
    case Node(prompt, last) => if prompt.Some? && last then [NoteChange(prompt.value)] else []
    case Other => []
    case _ => if frame.prompt.Some? then [NoteChange(frame.prompt.value)] else []
  }

  /** The store is told to look again exactly by a start, an end, cached nodes and the node that ends a prompt's queue. */
  lemma ChangesAreNoted(executing: Option<Prompt>, frame: Frame, p: Prompt)
    ensures NoteChange(p) in Calls(executing, frame) <==> frame in {Started(Some(p)), Cached(Some(p)), Ended(Some(p)), Node(Some(p), true)}
    ensures |Calls(executing, frame)| <= 1
  {
  }

  class Listener {
    var executing: Option<Prompt>

    constructor ()
      ensures executing == None
    {
      executing := None;
    }

    method Handle(frame: Frame) returns (calls: seq<SinkCall>)
      modifies this
      ensures executing == Believed(old(executing), frame)
      ensures calls == Calls(old(executing), frame)
    {
      if frame.Counts? {
        var whose := if frame.prompt.Some? then frame.prompt else executing;
        if whose.None? {
          return [];
        }
        var position := Position(frame.value, frame.maximum);
        if position.None? {
          return [];
        }
        return [NoteProgress(whose.value, position.value)];
      }
      if frame.Node? {
        if frame.prompt.Some? {
          executing := frame.prompt;
        }
        return if frame.prompt.Some? && frame.last then [NoteChange(frame.prompt.value)] else [];
      }
      if frame.Other? || frame.prompt.None? {
        return [];
      }
      if frame.Started? {
        executing := frame.prompt;
      } else if executing == frame.prompt {
        executing := None;
      }
      return [NoteChange(frame.prompt.value)];
    }

    /** Everything one connection says; the next one starts with no belief. */
    method Listen(frames: seq<Frame>) returns (calls: seq<SinkCall>)
      modifies this
      ensures executing == None
      ensures calls == AllCalls(old(executing), frames)
    {
      calls := [];
      for n := 0 to |frames|
        invariant executing == BelievedAfter(old(executing), frames[..n])
        invariant calls == AllCalls(old(executing), frames[..n])
      {
        assert frames[..n + 1][..n] == frames[..n];
        var more := Handle(frames[n]);
        calls := calls + more;
      }
      assert frames[..|frames|] == frames;
      executing := None;
    }
  }

  function BelievedAfter(executing: Option<Prompt>, frames: seq<Frame>): Option<Prompt> {
    if frames == [] then executing
    else Believed(BelievedAfter(executing, frames[..|frames| - 1]), frames[|frames| - 1])
  }

  function AllCalls(executing: Option<Prompt>, frames: seq<Frame>): seq<SinkCall> {
    if frames == [] then []
    else
      AllCalls(executing, frames[..|frames| - 1])
      + Calls(BelievedAfter(executing, frames[..|frames| - 1]), frames[|frames| - 1])
  }

  // ----- a ComfyUI that runs one prompt at a time -----

  /** May this frame be sent while `running` is in the executor? Only step counts may leave the prompt out. */
  predicate MaySend(running: Option<Prompt>, frame: Frame) {
    match frame
    case Counts(prompt, _, _) => running.Some? && prompt in {None, running}
    case Node(prompt, last) => prompt.Some? && (prompt == running || (running.None? && last))
    case Started(prompt) => running.None? && prompt.Some?
    case Cached(prompt) => running.Some? && prompt == running
    case Ended(prompt) => running.Some? && prompt == running
    case Other => true
  }

  function Runs(running: Option<Prompt>, frame: Frame): Option<Prompt> {
    match frame
    case Started(prompt) => prompt
    case Ended(_) => None
    case _ => running
  }

  /** What is running after `n` frames of a stream that began while `running` was. */
  function RunningAfter(running: Option<Prompt>, frames: seq<Frame>): Option<Prompt> {
    if frames == [] then running
    else Runs(RunningAfter(running, frames[..|frames| - 1]), frames[|frames| - 1])
  }

  /** Every frame is one that a one-at-a-time executor may send at that moment. */
  ghost predicate Truthful(running: Option<Prompt>, frames: seq<Frame>) {
    forall n :: 0 <= n < |frames| ==> MaySend(RunningAfter(running, frames[..n]), frames[n])
  }

  /**
   The listener connects at any moment, knowing nothing. From then on it believes in nothing or in the
   prompt that is running, as long as one is.
   */
  lemma {:induction false} BeliefIsTrue(running: Option<Prompt>, frames: seq<Frame>)
    requires Truthful(running, frames)
    ensures var now := RunningAfter(running, frames); now.Some? ==> BelievedAfter(None, frames) in {None, now}
  {
    if frames != [] {
      var front := frames[..|frames| - 1];
      forall n | 0 <= n < |front|
        ensures front[..n] == frames[..n]
      {
      }
      BeliefIsTrue(running, front);
    }
  }

  /** The frame says that this prompt is being executed. */
  predicate Announces(frame: Frame, p: Prompt) {
    (frame.Started? || frame.Node?) && frame.prompt == Some(p)
  }

  /** The frame takes that back: cached nodes, or the end of the prompt. */
  predicate TakesBack(frame: Frame, p: Prompt) {
    (frame.Cached? || frame.Ended?) && frame.prompt == Some(p)
  }

  /** Some frame has announced the prompt, and none has taken it back since. */
  ghost predicate Announced(frames: seq<Frame>, p: Prompt) {
    exists j :: 0 <= j < |frames| && StandsFrom(frames, p, j)
  }

  ghost predicate StandsFrom(frames: seq<Frame>, p: Prompt, j: nat)
    requires j < |frames|
  {
    Announces(frames[j], p) && forall m :: j < m < |frames| ==> !TakesBack(frames[m], p)
  }

  lemma AnnouncedNext(front: seq<Frame>, frame: Frame, p: Prompt)
    ensures Announced(front + [frame], p) <==> Announces(frame, p) || (Announced(front, p) && !TakesBack(frame, p))
  {
    hide Announces, TakesBack;
    var all := front + [frame];
    if Announces(frame, p) {
      assert StandsFrom(all, p, |front|);
    } else if Announced(front, p) && !TakesBack(frame, p) {
      var j :| 0 <= j < |front| && StandsFrom(front, p, j);
      assert StandsFrom(all, p, j);
    }
    if Announced(all, p) && !Announces(frame, p) {
      var j :| 0 <= j < |all| && StandsFrom(all, p, j);
      assert all[|front|] == frame && forall m :: 0 <= m < |front| ==> all[m] == front[m];
      assert StandsFrom(front, p, j);
    }
  }

  /** While a prompt runs, the listener believes in it exactly as long as what was announced of it has not been taken back. */
  lemma {:induction false} BeliefIsWhatWasAnnounced(running: Option<Prompt>, frames: seq<Frame>)
    requires Truthful(running, frames)
    ensures var now := RunningAfter(running, frames);
      now.Some? ==> (BelievedAfter(None, frames) == now <==> Announced(frames, now.value))
  {
    if frames != [] {
      hide Announced, Truthful, MaySend, Runs, Believed;
      var front, last := frames[..|frames| - 1], frames[|frames| - 1];
      assert frames == front + [last];
      TruthfulFront(running, frames);
      BeliefIsTrue(running, front);
      BeliefIsWhatWasAnnounced(running, front);
      OneMoreFrame(RunningAfter(running, front), BelievedAfter(None, front), front, last);
    }
  }

  lemma TruthfulFront(running: Option<Prompt>, frames: seq<Frame>)
    requires frames != [] && Truthful(running, frames)
    ensures Truthful(running, frames[..|frames| - 1])
    ensures MaySend(RunningAfter(running, frames[..|frames| - 1]), frames[|frames| - 1])
  {
    hide MaySend;
    forall n | 0 <= n < |frames| - 1
      ensures frames[..|frames| - 1][..n] == frames[..n]
    {
    }
  }

  lemma OneMoreFrame(now: Option<Prompt>, believed: Option<Prompt>, front: seq<Frame>, frame: Frame)
    requires MaySend(now, frame)
    requires now.Some? ==> believed in {None, now} && (believed == now <==> Announced(front, now.value))
    ensures var after := Runs(now, frame);
      after.Some? ==> (Believed(believed, frame) == after <==> Announced(front + [frame], after.value))
  {
    hide Announced;
    var after := Runs(now, frame);
    if after.Some? {
      AnnouncedNext(front, frame, after.value);
    }
  }

  /**
   Of every stream, joined at any moment: a step count is only ever noted for the prompt whose it is.
   It is dropped exactly when it is no position, or names no prompt while nothing announced stands.
   */
  lemma CountsGoToTheirPrompt(running: Option<Prompt>, frames: seq<Frame>, n: nat)
    requires Truthful(running, frames) && n < |frames| && frames[n].Counts?
    ensures var now, before := RunningAfter(running, frames[..n]), frames[..n];
      var position := Position(frames[n].value, frames[n].maximum);
      now.Some?
      && Calls(BelievedAfter(None, before), frames[n]) ==
        if position.Some? && (frames[n].prompt.Some? || Announced(before, now.value))
        then [NoteProgress(now.value, position.value)] else []
  {
    hide Announced;
    forall m | 0 <= m < n
      ensures frames[..n][..m] == frames[..m]
    {
    }
    BeliefIsTrue(running, frames[..n]);
    BeliefIsWhatWasAnnounced(running, frames[..n]);
  }

  /**
   A start that is said to be followed by cached nodes is forgotten again until the next node is named:
   step counts that name no prompt are dropped in between, although ComfyUI has said what is running.
   */
  lemma CachedNodesForgetTheStart(p: Prompt, steps: JsonNumber, total: JsonNumber)
    ensures var frames := [Started(Some(p)), Cached(Some(p)), Counts(None, steps, total)];
      Truthful(None, frames) && RunningAfter(None, frames[..2]) == Some(p) && AllCalls(None, frames) == [NoteChange(p), NoteChange(p)]
  {
    var frames := [Started(Some(p)), Cached(Some(p)), Counts(None, steps, total)];
    assert frames[..2][..1] == frames[..1] == [frames[0]] && frames[..1][..0] == [];
    assert frames[..0] == [];
    assert RunningAfter(None, frames[..1]) == Some(p);
    assert RunningAfter(None, frames[..2]) == Some(p);
    assert BelievedAfter(None, frames[..1]) == Some(p);
    assert BelievedAfter(None, frames[..2]) == None;
    assert AllCalls(None, frames[..1]) == [NoteChange(p)];
    assert AllCalls(None, frames[..2]) == [NoteChange(p), NoteChange(p)];
    assert frames[..3] == frames;
  }
}
