/** Every store that can be reached: any requests, on any jobs, one after another, with ComfyUI free to move throughout. */
module JobStoreRuns {
  import opened Prelude
  import opened ComfyServer
  import P = JobProtocol
  import opened JobTrace
  import opened JobSafety
  import opened JobStore

  /** What reaches the store, and what happens on its own between two requests. */
  datatype Request =
    | Submitted(id: P.JobId, workflow: string, prompt: PromptId)
    | Elapses(gap: seq<P.Happening>)
    | Reads(id: P.JobId, history: P.Call, queue: P.Call)
    | Cancels(id: P.JobId, calls: P.CancelCalls)

  type Worlds = map<P.JobId, P.World>

  ghost function WorldsOf(store: Store): (worlds: Worlds)
    requires store.Valid()
    reads store, store.records, store.comfy
    ensures worlds.Keys == store.jobs.Keys && forall id :: id in worlds ==> worlds[id] == store.WorldOf(id)
  {
    map id | id in store.jobs :: store.WorldOf(id)
  }

  /** Every job there is has a snapshot that ComfyUI backs. */
  ghost predicate AllConsistent(worlds: Worlds) {
    forall id :: id in worlds ==> Consistent(worlds[id])
  }

  /** No job is lost, and each has moved on as its watchers may rely on. */
  ghost predicate AllEvolve(before: Worlds, after: Worlds) {
    forall id :: id in before ==> id in after && Evolves(before[id], after[id])
  }

  /** One action on one job, whole. */
  lemma ActIsSound(w: P.World, action: P.Action)
    requires Consistent(w)
    ensures w.Known() && Consistent(P.Act(w, action)) && Evolves(w, P.Act(w, action))
  {
    assert w.Known();
    hide Consistent, Evolves, Proper, P.Act, ActSteps, At;
    ActIsItsSteps(w, action);
    FirstMoment(w, ActSteps(w, action));
    EveryMomentIsSound(w, ActSteps(w, action), 0, |ActSteps(w, action)|);
  }

  /** The action is about one job; the others see time go by. */
  ghost predicate ActsOn(before: Worlds, after: Worlds, id: P.JobId, action: P.Action, elapsed: seq<P.Happening>) {
    && after.Keys == before.Keys
    && (forall other :: other in before && other != id ==> after[other] == P.Elapse(before[other], elapsed))
    && (id in before ==> before[id].Known() && after[id] == P.Act(before[id], action))
  }

  lemma ActingIsSound(before: Worlds, after: Worlds, id: P.JobId, action: P.Action, elapsed: seq<P.Happening>)
    requires AllConsistent(before) && ActsOn(before, after, id, action, elapsed)
    ensures AllConsistent(after) && AllEvolve(before, after)
  {
    hide Consistent, Evolves;
    forall other | other in before
      ensures Consistent(after[other]) && Evolves(before[other], after[other])
    {
      ActIsSound(before[other], if other == id then action else P.Time(elapsed));
    }
  }

  lemma AddingIsSound(before: Worlds, after: Worlds, id: P.JobId, workflow: string, prompt: PromptId, places: seq<Place>)
    requires AllConsistent(before) && prompt < |places| && id !in before
    requires after.Keys == before.Keys + {id} && after[id] == P.Created(id, workflow, prompt, places)
    requires forall other :: other in before ==> after[other] == before[other]
    ensures AllConsistent(after) && AllEvolve(before, after)
  {
    hide Consistent, Evolves, P.Created;
    CreatedIsConsistent(id, workflow, prompt, places);
    NothingMoves(before);
  }

  lemma NothingMoves(worlds: Worlds)
    requires AllConsistent(worlds)
    ensures AllEvolve(worlds, worlds)
  {
    forall id | id in worlds
      ensures Evolves(worlds[id], worlds[id])
    {
      ReflexiveEvolves(worlds[id]);
    }
  }

  /** One request: every job stays consistent, whichever it was about, and moves on as its watchers may rely on. */
  method Handle(store: Store, request: Request)
    requires store.Valid() && AllConsistent(WorldsOf(store))
    modifies store, store.records, store.comfy
    ensures store.Valid() && AllConsistent(WorldsOf(store)) && AllEvolve(old(WorldsOf(store)), WorldsOf(store))
    ensures fresh(store.records - old(store.records))
  {
    hide AllConsistent, AllEvolve;
    match request
    case Submitted(id, workflow, prompt) =>
      Submit(store, id, workflow, prompt);
    case Elapses(gap) =>
      Wait(store, gap);
    case Reads(id, history, queue) =>
      Read(store, id, history, queue);
    case Cancels(id, calls) =>
      Cancel(store, id, calls);
  }

  /** A prompt ComfyUI has accepted, under an id that is not in use; anything else is no submission. */
  method Submit(store: Store, id: P.JobId, workflow: string, prompt: PromptId)
    requires store.Valid() && AllConsistent(WorldsOf(store))
    modifies store
    ensures store.Valid() && AllConsistent(WorldsOf(store)) && AllEvolve(old(WorldsOf(store)), WorldsOf(store))
    ensures fresh(store.records - old(store.records))
  {
    hide AllConsistent, AllEvolve, P.Created, Store.WorldOf, Store.Valid;
    ghost var before := WorldsOf(store);
    NothingMoves(before);
    if id !in store.jobs && prompt !in store.byPrompt && prompt < |store.comfy.places| {
      var _ := store.Create(id, workflow, prompt);
      AddingIsSound(before, WorldsOf(store), id, workflow, prompt, store.comfy.places);
    }
  }

  method Wait(store: Store, gap: seq<P.Happening>)
    requires store.Valid() && AllConsistent(WorldsOf(store))
    modifies store, store.records, store.comfy
    ensures store.Valid() && AllConsistent(WorldsOf(store)) && AllEvolve(old(WorldsOf(store)), WorldsOf(store))
    ensures store.records == old(store.records)
  {
    hide AllConsistent, AllEvolve, P.Elapse, Store.WorldOf, Store.Valid;
    ghost var before := WorldsOf(store);
    store.Elapse(gap);
    WaitingIsSound(before, WorldsOf(store), gap);
  }

  lemma WaitingIsSound(before: Worlds, after: Worlds, gap: seq<P.Happening>)
    requires AllConsistent(before) && after.Keys == before.Keys
    requires forall id :: id in before ==> after[id] == P.Elapse(before[id], gap)
    ensures AllConsistent(after) && AllEvolve(before, after)
  {
    hide Consistent, Evolves;
    forall id | id in before
      ensures Consistent(after[id]) && Evolves(before[id], after[id])
    {
      ActIsSound(before[id], P.Time(gap));
    }
  }

  /** What a snapshot does to the job asked for, and to the others. */
  method ReadKnown(store: Store, id: P.JobId, history: P.Call, queue: P.Call) returns (ghost elapsed: seq<P.Happening>)
    requires store.Valid() && id in store.jobs && WorldsOf(store)[id].Known()
    modifies store, store.records, store.comfy
    ensures store.Valid() && store.records == old(store.records)
    ensures ActsOn(old(WorldsOf(store)), WorldsOf(store), id, P.Read(history, queue), elapsed)
  {
    hide P.Elapse, P.Refresh, Store.WorldOf, Store.Valid, Store.Get;
    var _, more := store.Snapshot(id, history, queue);
    elapsed := more;
  }

  method Read(store: Store, id: P.JobId, history: P.Call, queue: P.Call)
    requires store.Valid() && AllConsistent(WorldsOf(store))
    modifies store, store.records, store.comfy
    ensures store.Valid() && AllConsistent(WorldsOf(store)) && AllEvolve(old(WorldsOf(store)), WorldsOf(store))
    ensures store.records == old(store.records)
  {
    ghost var before := WorldsOf(store);
    hide AllConsistent, AllEvolve, ActsOn, Store.Valid;
    if id in store.jobs {
      IsKnown(before, id);
      ghost var elapsed := ReadKnown(store, id, history, queue);
      ActingIsSound(before, WorldsOf(store), id, P.Read(history, queue), elapsed);
    } else {
      NothingMoves(before);
    }
  }

  lemma IsKnown(worlds: Worlds, id: P.JobId)
    requires AllConsistent(worlds) && id in worlds
    ensures worlds[id].Known()
  {
  }

  /** What a cancel does to the job asked for, and to the others. */
  method CancelKnown(store: Store, id: P.JobId, calls: P.CancelCalls) returns (ghost elapsed: seq<P.Happening>)
    requires store.Valid() && id in store.jobs && WorldsOf(store)[id].Known()
    modifies store, store.records, store.comfy
    ensures store.Valid() && store.records == old(store.records)
    ensures ActsOn(old(WorldsOf(store)), WorldsOf(store), id, P.Stop(calls), elapsed)
  {
    hide P.Elapse, P.Cancel, Store.WorldOf, Store.Valid, Store.Get;
    var _, more := store.Cancel(id, calls);
    elapsed := more;
  }

  method Cancel(store: Store, id: P.JobId, calls: P.CancelCalls)
    requires store.Valid() && AllConsistent(WorldsOf(store))
    modifies store, store.records, store.comfy
    ensures store.Valid() && AllConsistent(WorldsOf(store)) && AllEvolve(old(WorldsOf(store)), WorldsOf(store))
    ensures store.records == old(store.records)
  {
    ghost var before := WorldsOf(store);
    hide AllConsistent, AllEvolve, ActsOn, Store.Valid;
    if id in store.jobs {
      IsKnown(before, id);
      ghost var elapsed := CancelKnown(store, id, calls);
      ActingIsSound(before, WorldsOf(store), id, P.Stop(calls), elapsed);
    } else {
      NothingMoves(before);
    }
  }

  /** From an empty store, any requests in any order lead to a store whose every job is consistent. */
  method Reach(requests: seq<Request>) returns (store: Store)
    ensures store.Valid() && AllConsistent(WorldsOf(store))
  {
    hide Consistent, AllEvolve;
    var comfy := new ComfyUI();
    store := new Store(comfy);
    for n := 0 to |requests|
      invariant store.Valid() && AllConsistent(WorldsOf(store))
      invariant fresh(store) && fresh(store.records) && fresh(store.comfy)
    {
      Handle(store, requests[n]);
    }
  }
}
