/** What became of each upload, told by the steps its own thread has taken: every byte sent is counted, once. */
module MediaUploads {
  import opened Prelude
  import opened MediaItems
  import opened MediaProtocol
  import opened MediaSurvival

  // ----- the first free id -----

  /** The source's `continue`: the id is an item's, or its file is there. */
  ghost predicate IsTaken(st: State, id: MediaId, extension: string) {
    (exists item :: item in st.items && item.id == id) || (id, extension) in st.files
  }

  /** The first of the first `n` draws that is free. */
  ghost predicate IsFirstFree(st: State, draws: seq<MediaId>, extension: string, n: nat, i: int) {
    && 0 <= i < n && i < |draws| && !IsTaken(st, draws[i], extension)
    && forall j :: 0 <= j < i ==> IsTaken(st, draws[j], extension)
  }

  lemma TakenById(st: State, id: MediaId, extension: string)
    ensures IsTaken(st, id, extension) <==> id in Ids(st.items) || (id, extension) in st.files
  {
    if id in Ids(st.items) {
      var item := MemberOfId(st.items, id);
    }
    forall item | item in st.items
      ensures item.id in Ids(st.items)
    {
      IdOfMember(st.items, item);
    }
  }

  lemma {:induction false} FreeIsTheFirst(st: State, draws: seq<MediaId>, extension: string, n: nat)
    ensures FirstFree(st, draws, extension, n).None? <==>
      forall i :: 0 <= i < n && i < |draws| ==> IsTaken(st, draws[i], extension)
    ensures FirstFree(st, draws, extension, n).Some? ==>
      exists i :: IsFirstFree(st, draws, extension, n, i) && draws[i] == FirstFree(st, draws, extension, n).value
    decreases |draws|
  {
    hide IsTaken, Ids;
    if draws != [] && n > 0 {
      TakenById(st, draws[0], extension);
      if IsTaken(st, draws[0], extension) {
        var rest := draws[1..];
        FreeIsTheFirst(st, rest, extension, n - 1);
        assert forall i :: 0 <= i < |rest| ==> rest[i] == draws[i + 1];
        assert forall i :: 1 <= i < |draws| ==> draws[i] == rest[i - 1];
        if FirstFree(st, rest, extension, n - 1).Some? {
          var i :| IsFirstFree(st, rest, extension, n - 1, i) && rest[i] == FirstFree(st, rest, extension, n - 1).value;
          assert IsFirstFree(st, draws, extension, n, i + 1);
        }
      } else {
        assert IsFirstFree(st, draws, extension, n, 0);
      }
    }
  }

  /** A reservation takes the first free one of sixty-four draws; with none free nothing changes. */
  lemma ReservationTakesTheFirstFree(config: Config, st: State, draws: seq<MediaId>, extension: string, now: int)
    ensures var after := Reserve(config, st, draws, extension, now);
      if forall i :: 0 <= i < 64 && i < |draws| ==> IsTaken(st, draws[i], extension) then after == st
      else exists i :: IsFirstFree(st, draws, extension, 64, i) && after == State(
        st.items + [Item(draws[i], extension, "", "", "", 0, now, now + config.ttl)],
        st.files,
        st.uploads[draws[i] := Upload(extension, Reserved, 0)])
  {
    hide FirstFree, IsTaken;
    FreeIsTheFirst(st, draws, extension, 64);
  }

  // ----- the steps of one upload -----

  /** Is this a step that the upload of this id really takes? */
  ghost predicate Concerns(st: State, action: Action, id: MediaId) {
    match action
    case DoReserve(draws, extension, _) => FirstFree(st, draws, extension, DRAWS) == Some(id)
    case DoReap(_) => false
    case _ => action.id == id && Enabled(st, action)
  }

  /** The steps that the upload of this id has taken since its reservation, that one included. */
  ghost function Story(config: Config, actions: seq<Action>, id: MediaId): seq<Action>
    decreases |actions|
  {
    if actions == [] then []
    else
      var earlier, last := actions[..|actions| - 1], actions[|actions| - 1];
      if !Concerns(Run(config, Empty, earlier), last, id) then Story(config, earlier, id)
      else if last.DoReserve? then [last]
      else Story(config, earlier, id) + [last]
  }

  /** The bytes of these chunks together. */
  ghost function Sent(chunks: seq<Action>): nat {
    if chunks == [] then 0
    else
      var last := chunks[|chunks| - 1];
      Sent(chunks[..|chunks| - 1]) + if last.DoWrite? then last.size else 0
  }

  /** Every one of these is a chunk, and up to each of them what was sent was within its limit. */
  ghost predicate WithinLimits(chunks: seq<Action>) {
    forall n :: 0 <= n < |chunks| ==> chunks[n].DoWrite? && Sent(chunks[..n + 1]) <= chunks[n].limit
  }

  /** What comes after the reservation and the opening. */
  ghost predicate Opened(story: seq<Action>, extension: string) {
    |story| >= 2 && story[0].DoReserve? && story[0].extension == extension && story[1].DoOpen?
  }

  /** Where an upload stands and what it has counted, given the steps it has taken. */
  ghost predicate IsToldBy(upload: Upload, story: seq<Action>) {
    match upload.phase
    case Reserved =>
      |story| == 1 && story[0].DoReserve? && story[0].extension == upload.extension && upload.written == 0
    case Writing =>
      Opened(story, upload.extension) && WithinLimits(story[2..]) && upload.written == Sent(story[2..])
    case TooLarge =>
      Opened(story, upload.extension) && IsOverrun(story[2..])
    case Stamped(at) =>
      && Opened(story, upload.extension) && IsStampedAt(story[2..], at) && upload.written > 0
      && upload.written == Sent(story[2..|story| - 1])
    case Unlinked => story != [] && story[|story| - 1].DoUnlink?
  }

  /** Chunks within their limits and then a reading of the clock. */
  ghost predicate IsStampedAt(steps: seq<Action>, at: int) {
    var n := |steps| - 1;
    steps != [] && steps[n].DoStamp? && steps[n].now == at && WithinLimits(steps[..n])
  }

  /** Chunks within their limits and then the first that is not. */
  ghost predicate IsOverrun(steps: seq<Action>) {
    var n := |steps| - 1;
    steps != [] && steps[n].DoWrite? && Sent(steps) > steps[n].limit && WithinLimits(steps[..n])
  }

  ghost predicate EachIsTold(config: Config, actions: seq<Action>) {
    var st := Run(config, Empty, actions);
    forall id :: id in st.uploads ==> IsToldBy(st.uploads[id], Story(config, actions, id))
  }

  lemma SentSnoc(chunks: seq<Action>, last: Action)
    ensures Sent(chunks + [last]) == Sent(chunks) + if last.DoWrite? then last.size else 0
    ensures last.DoWrite? ==> (WithinLimits(chunks + [last]) <==> WithinLimits(chunks) && Sent(chunks) + last.size <= last.limit)
  {
    hide Sent;
    var all := chunks + [last];
    assert all[..|chunks|] == chunks && all[..|chunks| + 1] == all;
    assert Sent(all) == Sent(chunks) + if last.DoWrite? then last.size else 0 by {
      SentUnfolds(all);
    }
    assert all[|chunks|] == last;
    forall n | 0 <= n < |chunks|
      ensures all[..n + 1] == chunks[..n + 1] && all[n] == chunks[n]
    {
    }
    if last.DoWrite? && WithinLimits(all) {
      assert forall n :: 0 <= n < |chunks| ==> all[n].DoWrite? && Sent(all[..n + 1]) <= all[n].limit;
      assert Sent(all[..|chunks| + 1]) <= all[|chunks|].limit;
      assert WithinLimits(chunks);
    }
  }

  lemma SentUnfolds(chunks: seq<Action>)
    requires chunks != []
    ensures var last := chunks[|chunks| - 1];
      Sent(chunks) == Sent(chunks[..|chunks| - 1]) + if last.DoWrite? then last.size else 0
  {
  }

  /** A step leaves the uploads that it does not concern as they are. */
  lemma OthersStay(config: Config, st: State, action: Action, id: MediaId)
    requires id in Step(config, st, action).uploads && !Concerns(st, action, id)
    ensures id in st.uploads && Step(config, st, action).uploads[id] == st.uploads[id]
  {
    hide Replace, Evicted, Expired, Keep, Ids, Places, FirstFree;
    if Enabled(st, action) {
      match action
      case DoReserve(draws, extension, now) =>
        assert Step(config, st, action) == Reserve(config, st, draws, extension, now);
      case DoReap(now) =>
        assert Step(config, st, action) == Reap(st, now);
      case DoCommit(_, _, _, _) =>
        assert Step(config, st, action).uploads == st.uploads - {action.id};
      case _ =>
    }
  }

  /** What one step makes of an upload, and what it adds to its story. */
  lemma StepIsTold(config: Config, st: State, action: Action, id: MediaId, story: seq<Action>)
    requires Concerns(st, action, id) && !action.DoReserve?
    requires id in st.uploads && IsToldBy(st.uploads[id], story)
    ensures var after := Step(config, st, action);
      id in after.uploads ==> IsToldBy(after.uploads[id], story + [action])
  {
    hide IsToldBy, Sent, WithinLimits, Settle, Keep, Discard, FirstFree;
    match action
    case DoOpen(_) => OpeningIsTold(st.uploads[id], story, action);
    case DoWrite(_, _, _) => AChunkIsTold(st.uploads[id], story, action);
    case DoStamp(_, _) => AReadingIsTold(st.uploads[id], story, action);
    case DoUnlink(_) => AnUnlinkingIsTold(st.uploads[id], story, action);
    case DoForget(_) =>
    case DoCommit(_, _, _, _) => ACommitIsOver(config, st, action);
  }

  lemma ACommitIsOver(config: Config, st: State, action: Action)
    requires action.DoCommit? && Enabled(st, action)
    ensures action.id !in Step(config, st, action).uploads
  {
    hide Replace, Evicted, Keep, Ids, Places;
  }

  lemma AnUnlinkingIsTold(upload: Upload, story: seq<Action>, action: Action)
    requires action.DoUnlink?
    ensures IsToldBy(upload.(phase := Unlinked), story + [action])
  {
  }

  lemma OpeningIsTold(upload: Upload, story: seq<Action>, action: Action)
    requires IsToldBy(upload, story) && upload.phase.Reserved? && action.DoOpen?
    ensures IsToldBy(upload.(phase := Writing), story + [action])
  {
    hide Sent, WithinLimits;
    assert (story + [action])[2..] == [];
    NothingSent();
  }

  lemma AChunkIsTold(upload: Upload, story: seq<Action>, action: Action)
    requires IsToldBy(upload, story) && upload.phase.Writing? && action.DoWrite?
    ensures var sum := upload.written + action.size;
      IsToldBy(if sum > action.limit then upload.(phase := TooLarge) else upload.(written := sum), story + [action])
  {
    hide Sent, WithinLimits;
    var steps := story[2..];
    assert (story + [action])[2..] == steps + [action] && (steps + [action])[..|steps|] == steps;
    SentSnoc(steps, action);
  }

  lemma AReadingIsTold(upload: Upload, story: seq<Action>, action: Action)
    requires IsToldBy(upload, story) && upload.phase.Writing? && upload.written > 0 && action.DoStamp?
    ensures IsToldBy(upload.(phase := Stamped(action.now)), story + [action])
  {
    hide Sent, WithinLimits;
    var steps := story[2..];
    assert (story + [action])[2..] == steps + [action] && (steps + [action])[..|steps|] == steps;
    assert (story + [action])[2..|story|] == steps;
  }

  lemma NothingSent()
    ensures Sent([]) == 0 && WithinLimits([])
  {
  }

  lemma AReservationIsTold(config: Config, st: State, action: Action, id: MediaId)
    requires Concerns(st, action, id) && action.DoReserve?
    ensures var after := Step(config, st, action); id in after.uploads && IsToldBy(after.uploads[id], [action])
  {
    hide FirstFree, Ids;
  }

  lemma OnlyUploadsGoOn(st: State, action: Action, id: MediaId)
    requires Concerns(st, action, id) && !action.DoReserve?
    ensures id in st.uploads
  {
  }

  /** In every run, every upload stands where its own steps have brought it, and has counted what it was sent. */
  lemma {:induction false} EveryUploadIsTold(config: Config, actions: seq<Action>)
    ensures EachIsTold(config, actions)
    decreases |actions|
  {
    hide Run, Step, IsToldBy, Concerns, Story;
    if actions == [] {
      NothingRuns(config);
    } else {
      var n := |actions| - 1;
      var earlier, action := actions[..n], actions[n];
      var st, after := Run(config, Empty, earlier), Run(config, Empty, actions);
      EveryUploadIsTold(config, earlier);
      RunSnoc(config, Empty, actions, n);
      assert actions[..n + 1] == actions;
      forall id | id in after.uploads
        ensures IsToldBy(after.uploads[id], Story(config, actions, id))
      {
        StoryGoesOn(config, actions, id);
        if !Concerns(st, action, id) {
          OthersStay(config, st, action, id);
        } else if action.DoReserve? {
          AReservationIsTold(config, st, action, id);
        } else {
          OnlyUploadsGoOn(st, action, id);
          StepIsTold(config, st, action, id, Story(config, earlier, id));
        }
      }
    }
  }

  lemma NothingRuns(config: Config)
    ensures Run(config, Empty, []) == Empty
  {
  }

  lemma StoryGoesOn(config: Config, actions: seq<Action>, id: MediaId)
    requires actions != []
    ensures var earlier, last := actions[..|actions| - 1], actions[|actions| - 1];
      Story(config, actions, id) ==
        if !Concerns(Run(config, Empty, earlier), last, id) then Story(config, earlier, id)
        else if last.DoReserve? then [last]
        else Story(config, earlier, id) + [last]
  {
  }

  // ----- what that says of the limit -----

  /** Every chunk among these steps was written under this limit. */
  ghost predicate UnderLimit(steps: seq<Action>, limit: nat) {
    forall i :: 0 <= i < |steps| && steps[i].DoWrite? ==> steps[i].limit == limit
  }

  lemma WithinOneLimit(chunks: seq<Action>, limit: nat)
    requires WithinLimits(chunks) && UnderLimit(chunks, limit)
    ensures forall n :: 0 <= n <= |chunks| ==> Sent(chunks[..n]) <= limit
  {
    hide Sent;
    NothingSent();
    assert chunks[..0] == [];
    forall n | 0 < n <= |chunks|
      ensures Sent(chunks[..n]) <= limit
    {
      assert Sent(chunks[..(n - 1) + 1]) <= chunks[n - 1].limit;
    }
  }

  /**
   With one limit for the upload: it is refused by the first chunk that brings what was sent above the limit,
   and whatever still writes or waits to commit has counted all that was sent, which is within the limit.
   */
  lemma RefusedExactlyAboveTheLimit(config: Config, actions: seq<Action>, id: MediaId, limit: nat)
    requires id in Run(config, Empty, actions).uploads && UnderLimit(Story(config, actions, id), limit)
    ensures var upload, story := Run(config, Empty, actions).uploads[id], Story(config, actions, id);
      && (upload.phase.Writing? || upload.phase.Stamped? ==> upload.written == Sent(story) <= limit)
      && (upload.phase.TooLarge? ==> story != [] && Sent(story[..|story| - 1]) <= limit < Sent(story))
  {
    hide Run, Story, Sent;
    EveryUploadIsTold(config, actions);
    var upload, story := Run(config, Empty, actions).uploads[id], Story(config, actions, id);
    if upload.phase.Writing? || upload.phase.Stamped? || upload.phase.TooLarge? {
      var steps, n := story[2..], |story| - 3;
      SentAfterOpening(story);
      if upload.phase.Writing? {
        WithinOneLimit(steps, limit);
        assert steps[..|steps|] == steps;
      } else {
        WithinOneLimit(steps[..n], limit);
        assert steps[..n][..n] == steps[..n];
        assert steps == steps[..n] + [steps[n]] && story[2..|story| - 1] == steps[..n];
        assert steps[n] == story[|story| - 1];
        SentSnoc(steps[..n], steps[n]);
        assert story[..|story| - 1][2..] == steps[..n];
        if n >= 0 {
          SentAfterOpening(story[..|story| - 1]);
        }
      }
    }
  }

  lemma {:induction false} SentAfterOpening(story: seq<Action>)
    requires |story| >= 2 && story[0].DoReserve? && story[1].DoOpen?
    ensures Sent(story) == Sent(story[2..])
  {
    if |story| == 2 {
      assert story[..1][..0] == [];
      assert Sent(story[..1]) == 0;
    } else {
      var n := |story| - 1;
      SentAfterOpening(story[..n]);
      assert story[..n][2..] == story[2..][..n - 2];
    }
  }

  // ----- and of what is stored -----

  /**
   What was committed by the `k`th action: the steps of its upload were a reservation, an opening, chunks and a
   reading of the clock; its bytes are those of the chunks, and its life starts at the reading.
   */
  ghost predicate IsStoredBy(config: Config, actions: seq<Action>, k: nat, item: Item)
    requires k < |actions|
  {
    var story := Story(config, actions[..k], item.id);
    && actions[k] == DoCommit(item.id, item.kind, item.filename, item.contentType)
    && Opened(story, item.extension) && IsStampedAt(story[2..], item.createdAt)
    && item.bytes == Sent(story) > 0
    && item.expiresAt == item.createdAt + config.ttl
  }

  /** In every run, every item stored is what its own upload sent. */
  lemma EveryItemIsWhatWasSent(config: Config, actions: seq<Action>, item: Item)
    requires item in Run(config, Empty, actions).items && item.Settled()
    ensures exists k: nat :: k < |actions| && IsStoredBy(config, actions, k, item)
  {
    hide Run, Step, Story, Sent, WithinLimits, Invariant;
    EmptyStoreIsInvariant(config);
    assert actions[..|actions|] == actions;
    SettledHaveASource(config, Empty, actions, |actions|, item);
    var k: nat :| k < |actions| && CommittedAt(config, Empty, actions, k, item);
    EveryUploadIsTold(config, actions[..k]);
    var story := Story(config, actions[..k], item.id);
    var n := |story| - 1;
    var upload := Run(config, Empty, actions[..k]).uploads[item.id];
    assert upload.phase.Stamped? && IsToldBy(upload, story);
    assert IsStampedAt(story[2..], item.createdAt);
    SentAfterOpening(story);
    assert story[2..] == story[2..n] + [story[n]];
    SentSnoc(story[2..n], story[n]);
    assert IsStoredBy(config, actions, k, item);
  }
}
