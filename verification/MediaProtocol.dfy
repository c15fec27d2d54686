/**
 The media store under concurrent uploads: every locked section and every step of a writing thread
 is one action, and the actions of all threads interleave freely.
 */
module MediaProtocol {
  import opened Prelude
  import opened MediaItems

  /** Where the writing thread is. The clock is read after the last byte and before the lock is taken. */
  datatype Phase = Reserved | Writing | TooLarge | Unlinked | Stamped(at: int) {
    predicate HasFile() {
      Writing? || TooLarge? || Stamped?
    }
  }

  datatype Upload = Upload(extension: string, phase: Phase, written: nat)

  datatype Config = Config(ttl: nat, ceiling: nat)

  datatype State = State(items: seq<Item>, files: set<Path>, uploads: map<MediaId, Upload>)

  const DRAWS := 64

  // ----- the items by id -----

  function ById(items: seq<Item>): map<MediaId, Item> {
    if items == [] then map[] else ById(items[1..])[items[0].id := items[0]]
  }

  lemma {:induction false} ByIdIsTheItems(items: seq<Item>)
    ensures ById(items).Keys == Ids(items)
    ensures forall id :: id in ById(items) ==> ById(items)[id].id == id && ById(items)[id] in items
    ensures DistinctIds(items) ==> forall item :: item in items ==> item.id in ById(items) && ById(items)[item.id] == item
  {
    if items != [] {
      ByIdIsTheItems(items[1..]);
      if DistinctIds(items) {
        forall item | item in items
          ensures item.id in ById(items) && ById(items)[item.id] == item
        {
          if item != items[0] {
            IdOfMember(items[1..], item);
          }
        }
      }
    }
  }

  lemma {:induction false} ByIdKeep(items: seq<Item>, gone: set<MediaId>)
    ensures ById(Keep(items, gone)) == ById(items) - gone
  {
    if items != [] {
      ByIdKeep(items[1..], gone);
    }
  }

  lemma {:induction false} ByIdSnoc(items: seq<Item>, item: Item)
    requires item.id !in Ids(items)
    ensures ById(items + [item]) == ById(items)[item.id := item]
    ensures Ids(items + [item]) == Ids(items) + {item.id}
    ensures DistinctIds(items) ==> DistinctIds(items + [item])
  {
    if items == [] {
      assert items + [item] == [item];
    } else {
      ByIdSnoc(items[1..], item);
      assert (items + [item])[1..] == items[1..] + [item];
    }
  }

  /** The item of this id, replaced where it stands. */
  function Replace(items: seq<Item>, item: Item): seq<Item> {
    if items == [] then []
    else [if items[0].id == item.id then item else items[0]] + Replace(items[1..], item)
  }

  lemma {:induction false} ByIdReplace(items: seq<Item>, item: Item)
    requires item.id in ById(items) && DistinctIds(items)
    ensures ById(Replace(items, item)) == ById(items)[item.id := item]
    ensures Ids(Replace(items, item)) == Ids(items) && DistinctIds(Replace(items, item))
    ensures Total(Replace(items, item)) == Total(items) - ById(items)[item.id].bytes + item.bytes
  {
    if items[0].id == item.id {
      ReplaceAbsent(items[1..], item);
    } else {
      ByIdIsTheItems(items[1..]);
      ByIdReplace(items[1..], item);
    }
  }

  lemma {:induction false} ReplaceAbsent(items: seq<Item>, item: Item)
    requires item.id !in Ids(items)
    ensures Replace(items, item) == items
  {
    if items != [] {
      ReplaceAbsent(items[1..], item);
    }
  }

  // ----- the actions -----

  function Places(items: seq<Item>): set<Path> {
    if items == [] then {} else {items[0].Place()} + Places(items[1..])
  }

  /** Drop these items and their files. */
  function Discard(st: State, gone: seq<Item>): State {
    st.(items := Keep(st.items, Ids(gone)), files := st.files - Places(gone))
  }

  function EvictOverCapacity(config: Config, st: State): State {
    Discard(st, Evicted(st.items, config.ceiling))
  }

  function Expired(items: seq<Item>, now: int): (r: seq<Item>)
    ensures forall item :: item in r <==> item in items && item.Settled() && item.expiresAt <= now
  {
    if items == [] then []
    else if items[0].Settled() && items[0].expiresAt <= now then [items[0]] + Expired(items[1..], now)
    else Expired(items[1..], now)
  }

  function Reap(st: State, now: int): State {
    Discard(st, Expired(st.items, now))
  }

  /** The first of at most 64 drawn ids that is neither an item nor a file's name. */
  function FirstFree(st: State, draws: seq<MediaId>, extension: string, n: nat): Option<MediaId>
    decreases |draws|
  {
    if draws == [] || n == 0 then None
    else if draws[0] in Ids(st.items) || (draws[0], extension) in st.files then FirstFree(st, draws[1..], extension, n - 1)
    else Some(draws[0])
  }

  function Blank(config: Config, id: MediaId, extension: string, now: int): Item {
    Item(id, extension, "", "", "", 0, now, now + config.ttl)
  }

  function Reserve(config: Config, st: State, draws: seq<MediaId>, extension: string, now: int): State {
    var id := FirstFree(st, draws, extension, DRAWS);
    if id.None? then st
    else st.(items := st.items + [Blank(config, id.value, extension, now)],
             uploads := st.uploads[id.value := Upload(extension, Reserved, 0)])
  }

  datatype Action =
    | DoReserve(draws: seq<MediaId>, extension: string, now: int)
    | DoOpen(id: MediaId)
    | DoWrite(id: MediaId, size: nat, limit: nat)
    | DoUnlink(id: MediaId)
    | DoForget(id: MediaId)
    | DoStamp(id: MediaId, now: int)
    | DoCommit(id: MediaId, kind: string, filename: string, contentType: string)
    | DoReap(now: int)

  /** May the thread that owns this upload take this step now? */
  predicate Enabled(st: State, action: Action) {
    match action
    case DoReserve(_, _, _) => true
    case DoOpen(id) => id in st.uploads && st.uploads[id].phase == Reserved
    case DoWrite(id, _, _) => id in st.uploads && st.uploads[id].phase == Writing
    case DoUnlink(id) => id in st.uploads && st.uploads[id].phase in {Reserved, Writing, TooLarge}
    case DoForget(id) => id in st.uploads && st.uploads[id].phase == Unlinked
    case DoStamp(id, _) => id in st.uploads && st.uploads[id].phase == Writing && st.uploads[id].written > 0
    case DoCommit(id, _, _, _) => id in st.uploads && st.uploads[id].phase.Stamped? && st.uploads[id].written > 0
    case DoReap(_) => true
  }

  function Settle(config: Config, st: State, item: Item): State
    requires item.id in st.uploads
  {
    EvictOverCapacity(config, st.(items := Replace(st.items, item), uploads := st.uploads - {item.id}))
  }

  /** What a commit makes of the reservation: what was written, and a life that starts at the reading of the clock. */
  function Committed(config: Config, st: State, action: Action): Item
    requires action.DoCommit? && Enabled(st, action)
  {
    var upload := st.uploads[action.id];
    Item(action.id, upload.extension, action.kind, action.filename, action.contentType, upload.written,
         upload.phase.at, upload.phase.at + config.ttl)
  }

  function Step(config: Config, st: State, action: Action): State {
    if !Enabled(st, action) then st else
    match action
    case DoReserve(draws, extension, now) => Reserve(config, st, draws, extension, now)
    case DoOpen(id) =>
      var upload := st.uploads[id];
      st.(files := st.files + {(id, upload.extension)}, uploads := st.uploads[id := upload.(phase := Writing)])
    case DoWrite(id, size, limit) =>
      var upload := st.uploads[id];
      st.(uploads := st.uploads[id :=
        if upload.written + size > limit then upload.(phase := TooLarge) else upload.(written := upload.written + size)])
    case DoUnlink(id) =>
      var upload := st.uploads[id];
      st.(files := st.files - {(id, upload.extension)}, uploads := st.uploads[id := upload.(phase := Unlinked)])
    case DoForget(id) =>
      st.(items := Keep(st.items, {id}), uploads := st.uploads - {id})
    case DoStamp(id, now) =>
      st.(uploads := st.uploads[id := st.uploads[id].(phase := Stamped(now))])
    case DoCommit(_, _, _, _) => Settle(config, st, Committed(config, st, action))
    case DoReap(now) => Reap(st, now)
  }

  function Run(config: Config, st: State, actions: seq<Action>): State
    decreases |actions|
  {
    if actions == [] then st else Run(config, Step(config, st, actions[0]), actions[1..])
  }

  const Empty: State := State([], {}, map[])

  // ----- what every interleaving keeps -----

  /** Every upload in progress has its own unsettled reservation, and every reservation its upload. */
  ghost predicate Reservations(st: State) {
    var byId := ById(st.items);
    && (forall id :: id in st.uploads ==>
          id in byId && !byId[id].Settled() && byId[id].extension == st.uploads[id].extension)
    && (forall id :: id in byId && !byId[id].Settled() ==> id in st.uploads)
  }

  /** Every file belongs to an item, every settled item has its file, and each upload has its own from opening to unlinking. */
  ghost predicate FilesMatch(st: State) {
    var byId := ById(st.items);
    && (forall file :: file in st.files ==> file.0 in byId && byId[file.0].extension == file.1)
    && (forall id :: id in byId && byId[id].Settled() ==> byId[id].Place() in st.files)
    && (forall id :: id in st.uploads ==>
          ((id, st.uploads[id].extension) in st.files <==> st.uploads[id].phase.HasFile()))
  }

  ghost predicate Invariant(config: Config, st: State) {
    DistinctIds(st.items) && Reservations(st) && FilesMatch(st) && Total(st.items) <= config.ceiling
  }

  lemma {:induction false} FirstFreeIsFree(st: State, draws: seq<MediaId>, extension: string, n: nat)
    ensures var id := FirstFree(st, draws, extension, n);
      id.Some? ==> id.value in draws && id.value !in Ids(st.items) && (id.value, extension) !in st.files
    decreases |draws|
  {
    if draws != [] && n > 0 {
      FirstFreeIsFree(st, draws[1..], extension, n - 1);
    }
  }

  lemma ReservationIsNew(st: State, item: Item, upload: Upload)
    requires DistinctIds(st.items) && Reservations(st) && FilesMatch(st)
    requires item.id !in Ids(st.items) && !item.Settled() && upload == Upload(item.extension, Reserved, 0)
    ensures var after := st.(items := st.items + [item], uploads := st.uploads[item.id := upload]);
      DistinctIds(after.items) && Reservations(after) && FilesMatch(after)
  {
    hide Ids, ById, DistinctIds;
    ByIdIsTheItems(st.items);
    ByIdSnoc(st.items, item);
  }

  lemma ReserveKeepsInvariant(config: Config, st: State, draws: seq<MediaId>, extension: string, now: int)
    requires Invariant(config, st)
    ensures Invariant(config, Reserve(config, st, draws, extension, now))
  {
    hide FirstFree, Ids, DistinctIds, Total, Reservations, FilesMatch;
    FirstFreeIsFree(st, draws, extension, DRAWS);
    var id := FirstFree(st, draws, extension, DRAWS);
    if id.Some? {
      var item := Blank(config, id.value, extension, now);
      ReservationIsNew(st, item, Upload(extension, Reserved, 0));
      TotalSnoc(st.items, item);
    }
  }

  lemma {:induction false} PlacesOf(items: seq<Item>, item: Item)
    requires item in items
    ensures item.Place() in Places(items)
  {
    if items[0] != item {
      PlacesOf(items[1..], item);
    }
  }

  lemma {:induction false} PlaceHasItem(items: seq<Item>, place: Path) returns (item: Item)
    requires place in Places(items)
    ensures item in items && item.Place() == place
  {
    if items[0].Place() == place {
      item := items[0];
    } else {
      item := PlaceHasItem(items[1..], place);
    }
  }

  /** Housekeeping only ever takes settled items, with their files. */
  lemma DiscardKeepsMatching(st: State, gone: seq<Item>)
    requires DistinctIds(st.items) && Reservations(st) && FilesMatch(st)
    requires forall item :: item in gone ==> item in st.items && item.Settled()
    ensures var after := Discard(st, gone);
      DistinctIds(after.items) && Reservations(after) && FilesMatch(after) && after.uploads == st.uploads
    ensures ById(Discard(st, gone).items) == ById(st.items) - Ids(gone)
  {
    hide ById, Keep, Ids, DistinctIds, Places;
    var after := Discard(st, gone);
    ByIdIsTheItems(st.items);
    ByIdKeep(st.items, Ids(gone));
    KeepKeepsDistinct(st.items, Ids(gone));
    GoneById(st.items, gone);
    forall file | file in st.files
      ensures file in Places(gone) <==> file.0 in Ids(gone)
    {
      var item := ById(st.items)[file.0];
      if file in Places(gone) {
        var other := PlaceHasItem(gone, file);
        IdOfMember(gone, other);
      }
      if file.0 in Ids(gone) {
        PlacesOf(gone, item);
      }
    }
    forall id | id in st.uploads
      ensures id !in Ids(gone)
    {
      assert ById(st.items)[id] in st.items;
    }
    forall id | id in ById(after.items) && ById(after.items)[id].Settled()
      ensures ById(after.items)[id].Place() in after.files
    {
      assert ById(st.items)[id].Place() in st.files;
    }
  }

  /** Reaping drops exactly the settled items whose time has come. */
  lemma SurvivorsAreFresh(st: State, now: int)
    requires DistinctIds(st.items)
    ensures forall item :: item in Reap(st, now).items <==> item in st.items && (!item.Settled() || item.expiresAt > now)
  {
    GoneById(st.items, Expired(st.items, now));
  }

  lemma ReapKeepsInvariant(config: Config, st: State, now: int)
    requires Invariant(config, st)
    ensures Invariant(config, Reap(st, now))
  {
    DiscardKeepsMatching(st, Expired(st.items, now));
    KeepNeverAdds(st.items, Ids(Expired(st.items, now)));
  }

  lemma {:induction false} KeepNeverAdds(items: seq<Item>, gone: set<MediaId>)
    ensures Total(Keep(items, gone)) <= Total(items)
  {
    if items != [] {
      KeepNeverAdds(items[1..], gone);
    }
  }

  lemma EvictionRestoresCeiling(config: Config, st: State)
    requires DistinctIds(st.items) && Reservations(st) && FilesMatch(st)
    ensures Invariant(config, EvictOverCapacity(config, st))
  {
    hide AfterEviction, Evicted, Ids, Keep, DistinctIds, Reservations, FilesMatch;
    EvictionIsTheShortestPrefix(st.items, config.ceiling);
    EvictedAreSettled(st.items, config.ceiling);
    DiscardKeepsMatching(st, Evicted(st.items, config.ceiling));
    AfterEvictionIsKept(st.items, config.ceiling);
  }

  lemma AfterEvictionIsKept(items: seq<Item>, ceiling: nat)
    ensures AfterEviction(items, ceiling) == Keep(items, Ids(Evicted(items, ceiling)))
  {
  }

  lemma EvictedAreSettled(items: seq<Item>, ceiling: nat)
    ensures forall item :: item in Evicted(items, ceiling) ==> item in items && item.Settled()
  {
    hide OldestFirst, SettledOnly, EvictCount;
    var sorted := OldestFirst(SettledOnly(items));
    assert forall item :: item in Evicted(items, ceiling) ==> item in sorted;
  }

  lemma CommitKeepsInvariant(config: Config, st: State, action: Action)
    requires Invariant(config, st) && action.DoCommit? && Enabled(st, action)
    ensures Invariant(config, Step(config, st, action))
  {
    hide ById, Replace, Ids, DistinctIds, Total, EvictOverCapacity;
    var item := Committed(config, st, action);
    ByIdIsTheItems(st.items);
    ByIdReplace(st.items, item);
    var settled := st.(items := Replace(st.items, item), uploads := st.uploads - {item.id});
    assert Reservations(settled) && FilesMatch(settled);
    EvictionRestoresCeiling(config, settled);
  }

  lemma ForgetKeepsInvariant(config: Config, st: State, id: MediaId)
    requires Invariant(config, st) && Enabled(st, DoForget(id))
    ensures Invariant(config, Step(config, st, DoForget(id)))
  {
    hide ById, Keep, Ids, DistinctIds, Total;
    ByIdIsTheItems(st.items);
    ByIdKeep(st.items, {id});
    KeepKeepsDistinct(st.items, {id});
    KeepNeverAdds(st.items, {id});
  }

  /** Opening, writing, unlinking and reading the clock concern only the thread's own file. */
  lemma FileStepKeepsInvariant(config: Config, st: State, action: Action)
    requires Invariant(config, st) && Enabled(st, action)
    requires action.DoOpen? || action.DoWrite? || action.DoUnlink? || action.DoStamp?
    ensures Invariant(config, Step(config, st, action))
  {
    hide Invariant, Reservations, FilesMatch, ById, Ids, DistinctIds, Total;
    var upload := st.uploads[action.id];
    if upload.phase.HasFile() {
      OwnFileIsThere(config, st, action.id);
    }
    match action
    case DoOpen(id) => UploadMoves(config, st, id, upload.(phase := Writing));
    case DoUnlink(id) => UploadMoves(config, st, id, upload.(phase := Unlinked));
    case DoWrite(id, _, _) => UploadMoves(config, st, id, Step(config, st, action).uploads[id]);
    case DoStamp(id, now) => UploadMoves(config, st, id, upload.(phase := Stamped(now)));
  }

  lemma OwnFileIsThere(config: Config, st: State, id: MediaId)
    requires Invariant(config, st) && id in st.uploads && st.uploads[id].phase.HasFile()
    ensures st.files + {(id, st.uploads[id].extension)} == st.files
  {
  }

  /** A thread may go on with its own upload and its own file. */
  lemma UploadMoves(config: Config, st: State, id: MediaId, upload: Upload)
    requires Invariant(config, st) && id in st.uploads && upload.extension == st.uploads[id].extension
    ensures var file := (id, upload.extension);
      Invariant(config, st.(files := if upload.phase.HasFile() then st.files + {file} else st.files - {file},
                            uploads := st.uploads[id := upload]))
  {
    hide ById, Ids, DistinctIds, Total;
    ByIdIsTheItems(st.items);
  }

  lemma StepKeepsInvariant(config: Config, st: State, action: Action)
    requires Invariant(config, st)
    ensures Invariant(config, Step(config, st, action))
  {
    hide Invariant, Reap, Reserve;
    if Enabled(st, action) {
      match action
      case DoReserve(draws, extension, now) => ReserveKeepsInvariant(config, st, draws, extension, now);
      case DoCommit(_, _, _, _) => CommitKeepsInvariant(config, st, action);
      case DoReap(now) => ReapKeepsInvariant(config, st, now);
      case DoForget(id) => ForgetKeepsInvariant(config, st, id);
      case _ => FileStepKeepsInvariant(config, st, action);
    }
  }

  /**
   Under every interleaving of uploads, commits, failures and reaping: each upload in progress keeps its
   own unsettled reservation, every file belongs to an item, and the store stays within its ceiling.
   */
  lemma {:induction false} EveryInterleavingKeepsInvariant(config: Config, st: State, actions: seq<Action>)
    requires Invariant(config, st)
    ensures Invariant(config, Run(config, st, actions))
    decreases |actions|
  {
    hide Invariant, Step;
    if actions != [] {
      StepKeepsInvariant(config, st, actions[0]);
      EveryInterleavingKeepsInvariant(config, Step(config, st, actions[0]), actions[1..]);
    }
  }

  lemma EmptyStoreIsInvariant(config: Config)
    ensures Invariant(config, Empty)
  {
  }

  /** The look-up in the commit cannot miss: whatever other threads did, the reservation is still there. */
  lemma CommitFindsItsReservation(config: Config, actions: seq<Action>, id: MediaId)
    requires id in Run(config, Empty, actions).uploads
    ensures var st := Run(config, Empty, actions);
      id in ById(st.items) && ById(st.items)[id].bytes == 0 && ById(st.items)[id].extension == st.uploads[id].extension
  {
    EmptyStoreIsInvariant(config);
    EveryInterleavingKeepsInvariant(config, Empty, actions);
  }
}
