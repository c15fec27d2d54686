/** What the clock has to do with it: which committed items are still there, and what a look-up may answer. */
module MediaSurvival {
  import opened Prelude
  import opened MediaItems
  import opened MediaProtocol

  // ----- one commit -----

  /** A commit: what it stores survives its own eviction exactly when it fits together with all that would go after it. */
  lemma CommitSurvivesExactly(config: Config, st: State, action: Action)
    requires Invariant(config, st) && action.DoCommit? && Enabled(st, action)
    ensures var item := Committed(config, st, action);
      item in Step(config, st, action).items <==>
        item.bytes + BytesBehind(Replace(st.items, item), item) <= config.ceiling
  {
    hide ById, Replace, Ids, DistinctIds, Total, AfterEviction, BytesBehind;
    var item := Committed(config, st, action);
    CommittedIsEntered(config, st, action);
    SurvivesExactly(Replace(st.items, item), item, config.ceiling);
    AfterEvictionIsKept(Replace(st.items, item), config.ceiling);
  }

  lemma {:induction false} ReplaceEnters(items: seq<Item>, item: Item)
    ensures item.id in Ids(items) ==> item in Replace(items, item)
    ensures forall other :: other in Replace(items, item) ==> other == item || other in items
  {
    if items != [] {
      ReplaceEnters(items[1..], item);
    }
  }

  lemma CommittedIsEntered(config: Config, st: State, action: Action)
    requires Invariant(config, st) && action.DoCommit? && Enabled(st, action)
    ensures var item := Committed(config, st, action); var items := Replace(st.items, item);
      && item in items && item.Settled() && DistinctIds(items)
      && forall other :: other in items && other != item ==> other in st.items
  {
    hide ById, Ids, DistinctIds, Total, FilesMatch, Replace;
    var item := Committed(config, st, action);
    ByIdIsTheItems(st.items);
    ByIdReplace(st.items, item);
    ReplaceEnters(st.items, item);
  }

  /** What is committed with a later reading than that of every settled item is there afterwards if it fits alone. */
  lemma NewestCommitSurvives(config: Config, st: State, action: Action)
    requires Invariant(config, st) && action.DoCommit? && Enabled(st, action)
    requires st.uploads[action.id].written <= config.ceiling
    requires forall item :: item in st.items && item.Settled() ==> item.createdAt < st.uploads[action.id].phase.at
    ensures Committed(config, st, action) in Step(config, st, action).items
  {
    hide ById, Replace, Ids, DistinctIds, Total, AfterEviction;
    var item := Committed(config, st, action);
    CommittedIsEntered(config, st, action);
    NewestSurvives(Replace(st.items, item), item, config.ceiling);
    AfterEvictionIsKept(Replace(st.items, item), config.ceiling);
  }

  // ----- whole runs with a clock -----

  /** Each reading of the clock is later than the readings before it. */
  ghost predicate ClockIncreases(actions: seq<Action>) {
    forall i, j :: 0 <= i < j < |actions| && actions[i].DoStamp? && actions[j].DoStamp? ==> actions[i].now < actions[j].now
  }

  /** The upload that commits here is, of those that have read the clock, the one that read it first. */
  ghost predicate InTurn(st: State, action: Action) {
    action.DoCommit? && Enabled(st, action) ==>
      forall id :: id in st.uploads && id != action.id && st.uploads[id].phase.Stamped? ==>
        st.uploads[action.id].phase.at < st.uploads[id].phase.at
  }

  /** Commits take the lock in the order in which they read the clock. */
  ghost predicate CommitsInTurn(config: Config, st: State, actions: seq<Action>) {
    forall k :: 0 <= k < |actions| ==> InTurn(Run(config, st, actions[..k]), actions[k])
  }

  /** Every settled item was read before every reading that still waits for its commit, and nothing was read after `clock`. */
  ghost predicate OnTime(st: State, clock: int) {
    && (forall item :: item in st.items && item.Settled() ==> item.createdAt <= clock)
    && (forall id :: id in st.uploads && st.uploads[id].phase.Stamped? ==> st.uploads[id].phase.at <= clock)
    && (forall item, id :: item in st.items && item.Settled() && id in st.uploads && st.uploads[id].phase.Stamped? ==>
          item.createdAt < st.uploads[id].phase.at)
  }

  lemma {:induction false} RunSnoc(config: Config, st: State, actions: seq<Action>, k: nat)
    requires k < |actions|
    ensures Run(config, st, actions[..k + 1]) == Step(config, Run(config, st, actions[..k]), actions[k])
    decreases k
  {
    hide Step;
    if k == 0 {
      assert actions[..1] == [actions[0]] && actions[..1][1..] == [] && actions[..0] == [];
    } else {
      var next := Step(config, st, actions[0]);
      RunSnoc(config, next, actions[1..], k - 1);
      assert actions[..k + 1][1..] == actions[1..][..k] && actions[..k][1..] == actions[1..][..k - 1];
    }
  }

  /** Nothing but a commit enters a settled item. */
  lemma SettledComeFromCommits(config: Config, st: State, action: Action, item: Item)
    requires Invariant(config, st) && item in Step(config, st, action).items && item.Settled()
    ensures item in st.items || (action.DoCommit? && Enabled(st, action) && item == Committed(config, st, action))
  {
    hide ById, Ids, DistinctIds, Total, FilesMatch, Reservations, Replace, Evicted, Expired;
    if Enabled(st, action) {
      if action.DoCommit? {
        CommittedIsEntered(config, st, action);
      }
    }
  }

  /** A step leaves the readings that wait as they are, but for the one it makes or commits. */
  lemma ReadingsWait(config: Config, st: State, action: Action, id: MediaId)
    requires var after := Step(config, st, action); id in after.uploads && after.uploads[id].phase.Stamped?
    ensures (id in st.uploads && st.uploads[id] == Step(config, st, action).uploads[id] && !(action.DoCommit? && Enabled(st, action) && id == action.id))
      || (action.DoStamp? && Step(config, st, action).uploads[id].phase.at == action.now)
  {
    hide Replace, Evicted, Expired, Keep, Ids, FirstFree;
  }

  lemma StepOnTime(config: Config, st: State, action: Action, clock: int)
    requires Invariant(config, st) && OnTime(st, clock) && InTurn(st, action) && (action.DoStamp? ==> clock < action.now)
    ensures OnTime(Step(config, st, action), if action.DoStamp? then action.now else clock)
  {
    hide Invariant, Step;
    var after := Step(config, st, action);
    forall id | id in after.uploads && after.uploads[id].phase.Stamped?
      ensures (id in st.uploads && st.uploads[id] == after.uploads[id] && !(action.DoCommit? && Enabled(st, action) && id == action.id))
        || (action.DoStamp? && after.uploads[id].phase.at == action.now)
    {
      ReadingsWait(config, st, action, id);
    }
    forall item | item in after.items && item.Settled()
      ensures item in st.items || (action.DoCommit? && Enabled(st, action) && item == Committed(config, st, action))
    {
      SettledComeFromCommits(config, st, action, item);
    }
  }

  lemma {:induction false} RunOnTime(config: Config, actions: seq<Action>, k: nat) returns (clock: int)
    requires ClockIncreases(actions) && CommitsInTurn(config, Empty, actions) && k <= |actions|
    ensures OnTime(Run(config, Empty, actions[..k]), clock)
    ensures forall j :: k <= j < |actions| && actions[j].DoStamp? ==> clock < actions[j].now
    ensures Invariant(config, Run(config, Empty, actions[..k]))
  {
    hide Invariant, Step, OnTime, InTurn;
    EmptyStoreIsInvariant(config);
    EveryInterleavingKeepsInvariant(config, Empty, actions[..k]);
    if k == 0 {
      clock := FirstReading(actions) - 1;
      NothingYet(clock);
      assert actions[..0] == [];
    } else {
      var before := RunOnTime(config, actions, k - 1);
      var st, action := Run(config, Empty, actions[..k - 1]), actions[k - 1];
      assert InTurn(st, action);
      StepOnTime(config, st, action, before);
      RunSnoc(config, Empty, actions, k - 1);
      clock := if action.DoStamp? then action.now else before;
    }
  }

  lemma NothingYet(clock: int)
    ensures OnTime(Empty, clock)
  {
  }

  function FirstReading(actions: seq<Action>): (first: int)
    ensures ClockIncreases(actions) ==> forall j :: 0 <= j < |actions| && actions[j].DoStamp? ==> first <= actions[j].now
  {
    if actions == [] then 0
    else if actions[0].DoStamp? then actions[0].now
    else
      assert ClockIncreases(actions) ==> ClockIncreases(actions[1..]);
      assert forall j :: 0 < j < |actions| ==> actions[1..][j - 1] == actions[j];
      FirstReading(actions[1..])
  }

  /** With an increasing clock and commits in turn, every item that fits alone is there after its commit, in every run. */
  lemma CommitsInTurnSurvive(config: Config, actions: seq<Action>, k: nat)
    requires ClockIncreases(actions) && CommitsInTurn(config, Empty, actions) && k < |actions| && actions[k].DoCommit?
    requires var st := Run(config, Empty, actions[..k]);
      Enabled(st, actions[k]) && st.uploads[actions[k].id].written <= config.ceiling
    ensures var st := Run(config, Empty, actions[..k]);
      Committed(config, st, actions[k]) in Run(config, Empty, actions[..k + 1]).items
  {
    hide Invariant, Step, Run;
    var clock := RunOnTime(config, actions, k);
    RunSnoc(config, Empty, actions, k);
    NewestCommitSurvives(config, Run(config, Empty, actions[..k]), actions[k]);
  }

  // ----- what a look-up answers -----

  const PNG := ".png"

  /** This item is what the `k`th of these actions commits. */
  ghost predicate CommittedAt(config: Config, st: State, actions: seq<Action>, k: nat, item: Item)
    requires k < |actions|
  {
    var before := Run(config, st, actions[..k]);
    actions[k].DoCommit? && Enabled(before, actions[k]) && item == Committed(config, before, actions[k])
  }

  lemma {:induction false} SettledHaveASource(config: Config, st: State, actions: seq<Action>, n: nat, item: Item)
    requires Invariant(config, st) && n <= |actions|
    requires item in Run(config, st, actions[..n]).items && item.Settled() && item !in st.items
    ensures exists k: nat :: k < n && CommittedAt(config, st, actions, k, item)
  {
    hide Invariant, Step, CommittedAt;
    assert actions[..0] == [];
    if n > 0 {
      var before := Run(config, st, actions[..n - 1]);
      RunSnoc(config, st, actions, n - 1);
      EveryInterleavingKeepsInvariant(config, st, actions[..n - 1]);
      SettledComeFromCommits(config, before, actions[n - 1], item);
      if item in before.items {
        SettledHaveASource(config, st, actions, n - 1, item);
      } else {
        CommittedHere(config, st, actions, n - 1, item);
      }
    }
  }

  lemma CommittedHere(config: Config, st: State, actions: seq<Action>, k: nat, item: Item)
    requires k < |actions| && actions[k].DoCommit? && Enabled(Run(config, st, actions[..k]), actions[k])
    requires item == Committed(config, Run(config, st, actions[..k]), actions[k])
    ensures CommittedAt(config, st, actions, k, item)
  {
  }

  /**
   A look-up reaps in one locked section and looks in another. A settled item it answers has expired by the
   time of the reaping exactly when its commit fell in between, with a reading that was old enough by then.
   */
  lemma LookUpAnswersExpiredExactly(config: Config, st: State, now: int, between: seq<Action>, item: Item)
    requires Invariant(config, st)
    requires item in Run(config, Reap(st, now), between).items && item.Settled()
    ensures item.expiresAt <= now <==>
      exists k: nat :: k < |between| && CommittedAt(config, Reap(st, now), between, k, item) && item.createdAt + config.ttl <= now
  {
    hide Invariant, Step, Reap;
    ReapKeepsInvariant(config, st, now);
    Distinct(config, st);
    SurvivorsAreFresh(st, now);
    assert between[..|between|] == between;
    if item.expiresAt <= now {
      SettledHaveASource(config, Reap(st, now), between, |between|, item);
    }
  }

  lemma Distinct(config: Config, st: State)
    requires Invariant(config, st)
    ensures DistinctIds(st.items)
  {
  }

  /** An upload that has read the clock at 10 and waits for the lock. */
  function SlowWriter(config: Config): State {
    State([Blank(config, "a", PNG, 1)], {("a", PNG)}, map["a" := Upload(PNG, Stamped(10), 6)])
  }

  lemma SlowWriterIsInvariant(config: Config)
    ensures Invariant(config, SlowWriter(config))
  {
    var items := SlowWriter(config).items;
    assert items[1..] == [];
    assert ById(items) == map["a" := items[0]];
  }

  /** A slow writer: with a life of 5 its reading is stale when a look-up reaps at 16, and what it then commits is found. */
  lemma ALookUpThatAnswersAnExpiredItem()
    ensures var config := Config(5, 10);
      var after := Run(config, Reap(SlowWriter(config), 16), [DoCommit("a", "image", "a.png", "image/png")]);
      && Invariant(config, SlowWriter(config))
      && exists item :: item in after.items && item.id == "a" && item.Settled() && item.expiresAt == 15
  {
    hide Step, Committed, Invariant;
    var config, commit := Config(5, 10), DoCommit("a", "image", "a.png", "image/png");
    SlowWriterIsInvariant(config);
    SlowWriterCommits(config, Reap(SlowWriter(config), 16), commit, SlowWriter(config));
    assert [commit][1..] == [];
  }

  lemma SlowWriterCommits(config: Config, reaped: State, commit: Action, st: State)
    requires config == Config(5, 10) && Invariant(config, st) && reaped == Reap(st, 16)
    requires st.items == [Blank(config, "a", PNG, 1)] && st.uploads == map["a" := Upload(PNG, Stamped(10), 6)]
    requires commit == DoCommit("a", "image", "a.png", "image/png")
    ensures exists item :: item in Step(config, reaped, commit).items && item.id == "a" && item.Settled() && item.expiresAt == 15
  {
    hide Invariant, Step, Replace;
    assert st.items[1..] == [] && Expired(st.items, 16) == [];
    KeepNothingGone(st.items);
    assert reaped.items == st.items && reaped.uploads == st.uploads;
    ReapKeepsInvariant(config, st, 16);
    NewestCommitSurvives(config, reaped, commit);
    assert Committed(config, reaped, commit).expiresAt == 15;
  }

  // ----- an upload that evicts itself -----

  /** Two uploads side by side: `a` reads the clock first, `b` takes the lock first. */
  function Racing(): seq<Action> {
    [DoReserve(["a"], PNG, 1), DoReserve(["b"], PNG, 2), DoOpen("a"), DoOpen("b"), DoWrite("a", 6, 100), DoWrite("b", 6, 100),
     DoStamp("a", 10), DoStamp("b", 11), DoCommit("b", "image", "b.png", "image/png"), DoCommit("a", "image", "a.png", "image/png")]
  }

  /**
   The promise that the item just stored is there afterwards fails on this run: the clock only moves on, each
   item fits the ceiling alone, and what `a` stores is dropped by the very commit that stores it.
   */
  lemma ACommitThatEvictsItself()
    ensures var config, actions := Config(3600, 10), Racing();
      && |actions| == 10 && ClockIncreases(actions)
      && var st := Run(config, Empty, actions[..9]);
      && Enabled(st, actions[9]) && st.uploads["a"].written == 6 <= config.ceiling
      && Committed(config, st, actions[9]) !in Run(config, Empty, actions[..10]).items
  {
    hide Step, Run, Invariant, Racing, ClockIncreases;
    var config, actions := Config(3600, 10), Racing();
    RacingReadsTheClock();
    RacingBeforeTheLast();
    EmptyStoreIsInvariant(config);
    EveryInterleavingKeepsInvariant(config, Empty, actions[..9]);
    RunSnoc(config, Empty, actions, 9);
    TheLastCommit(config, Run(config, Empty, actions[..9]), actions[9]);
  }

  lemma RacingReadsTheClock()
    ensures |Racing()| == 10 && Racing()[9] == DoCommit("a", "image", "a.png", "image/png")
    ensures ClockIncreases(Racing())
  {
  }

  lemma TheLastCommit(config: Config, st: State, action: Action)
    requires config.ceiling == 10 && Invariant(config, st) && |st.items| == 2
    requires st.items[0].id == "a" && st.items[1].id == "b" && st.items[1].bytes == 6 && st.items[1].createdAt == 11
    requires action.DoCommit? && action.id == "a" && st.uploads == map["a" := Upload(PNG, Stamped(10), 6)]
    ensures Enabled(st, action) && Committed(config, st, action) !in Step(config, st, action).items
  {
    hide Invariant, Step, Replace, BytesBehind;
    var item := Committed(config, st, action);
    CommitSurvivesExactly(config, st, action);
    ReplaceOne(st.items, item);
    BehindTheFirst(item, st.items[1]);
  }

  lemma BehindTheFirst(first: Item, second: Item)
    requires first.createdAt <= second.createdAt && first.id != second.id
    ensures BytesBehind([first, second], first) == second.bytes
  {
    assert [first, second][1..] == [second] && [second][1..] == [];
    assert BytesFrom([second], first.createdAt) == second.bytes + BytesFrom([], first.createdAt);
  }

  lemma ReplaceOne(items: seq<Item>, item: Item)
    requires |items| == 2 && items[0].id != items[1].id
    ensures item.id == items[0].id ==> Replace(items, item) == [item, items[1]]
    ensures item.id == items[1].id ==> Replace(items, item) == [items[0], item]
  {
    assert items[1..] == [items[1]] && items[1..][1..] == [];
    assert Replace(items[1..][1..], item) == [];
    assert Replace(items[1..], item) == [if items[1].id == item.id then item else items[1]];
  }

  lemma RacingBeforeTheLast()
    ensures var config := Config(3600, 10);
      var st := Run(config, Empty, Racing()[..9]);
      && |st.items| == 2 && st.items[0] == Blank(config, "a", PNG, 1)
      && st.items[1].id == "b" && st.items[1].bytes == 6 && st.items[1].createdAt == 11
      && st.uploads == map["a" := Upload(PNG, Stamped(10), 6)]
  {
    hide Run, Step;
    var config, actions := Config(3600, 10), Racing();
    RacingStamps();
    RunSnoc(config, Empty, actions, 8);
    CommitB(config, Run(config, Empty, actions[..8]));
  }

  /** Where the run is after `n` steps: both reservations are there, and the uploads are these. */
  ghost predicate RacingAt(n: nat, a: Upload, b: Upload)
    requires n <= |Racing()|
  {
    var config := Config(3600, 10);
    var st := Run(config, Empty, Racing()[..n]);
    st.items == [Blank(config, "a", PNG, 1), Blank(config, "b", PNG, 2)] && st.uploads == map["a" := a, "b" := b]
  }

  lemma RacingOpens()
    ensures RacingAt(4, Upload(PNG, Writing, 0), Upload(PNG, Writing, 0))
  {
    hide Run;
    RacingReserves();
    RunSnoc(Config(3600, 10), Empty, Racing(), 2);
    RunSnoc(Config(3600, 10), Empty, Racing(), 3);
  }

  lemma RacingWrites()
    ensures RacingAt(6, Upload(PNG, Writing, 6), Upload(PNG, Writing, 6))
  {
    hide Run;
    RacingOpens();
    RunSnoc(Config(3600, 10), Empty, Racing(), 4);
    RunSnoc(Config(3600, 10), Empty, Racing(), 5);
  }

  lemma RacingStamps()
    ensures RacingAt(8, Upload(PNG, Stamped(10), 6), Upload(PNG, Stamped(11), 6))
  {
    hide Run;
    RacingWrites();
    RunSnoc(Config(3600, 10), Empty, Racing(), 6);
    RunSnoc(Config(3600, 10), Empty, Racing(), 7);
  }

  lemma RacingReserves()
    ensures var config := Config(3600, 10);
      Run(config, Empty, Racing()[..2]) == State(
        [Blank(config, "a", PNG, 1), Blank(config, "b", PNG, 2)], {},
        map["a" := Upload(PNG, Reserved, 0), "b" := Upload(PNG, Reserved, 0)])
  {
    var config, actions := Config(3600, 10), Racing();
    assert actions[..0] == [] && Run(config, Empty, []) == Empty;
    RunSnoc(config, Empty, actions, 0);
    RunSnoc(config, Empty, actions, 1);
    var first := State([Blank(config, "a", PNG, 1)], {}, map["a" := Upload(PNG, Reserved, 0)]);
    assert FirstFree(Empty, ["a"], PNG, DRAWS) == Some("a");
    assert Step(config, Empty, actions[0]) == first;
    assert first.items[1..] == [] && FirstFree(first, ["b"], PNG, DRAWS) == Some("b");
  }

  /** The first commit drops nothing: it fits the ceiling alone, and a reservation weighs nothing. */
  lemma CommitB(config: Config, st: State)
    requires config == Config(3600, 10) && st.items == [Blank(config, "a", PNG, 1), Blank(config, "b", PNG, 2)]
    requires st.uploads == map["a" := Upload(PNG, Stamped(10), 6), "b" := Upload(PNG, Stamped(11), 6)]
    ensures var after := Step(config, st, DoCommit("b", "image", "b.png", "image/png"));
      && after.items == [st.items[0], Item("b", PNG, "image", "b.png", "image/png", 6, 11, 3611)]
      && after.uploads == map["a" := Upload(PNG, Stamped(10), 6)]
  {
    var a, b := st.items[0], Item("b", PNG, "image", "b.png", "image/png", 6, 11, 3611);
    ReplaceOne(st.items, b);
    NothingToDrop(a, b);
    KeepNothingGone([a, b]);
  }

  lemma NothingToDrop(a: Item, b: Item)
    requires a.bytes + b.bytes <= 10
    ensures Evicted([a, b], 10) == []
  {
    assert [a, b][1..] == [b] && [b][1..] == [];
    assert Total([b]) == b.bytes + Total([]);
  }
}
