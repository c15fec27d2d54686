/** The media store's locked sections as they run, each doing exactly its step of `MediaProtocol`. */
module MediaStore {
  import opened Prelude
  import opened MediaItems
  import opened MediaProtocol

  lemma {:induction false} IdsSnoc(items: seq<Item>, item: Item)
    ensures Ids(items + [item]) == Ids(items) + {item.id}
    ensures Places(items + [item]) == Places(items) + {item.Place()}
  {
    if items == [] {
      assert items + [item] == [item];
      assert [item][1..] == [];
    } else {
      IdsSnoc(items[1..], item);
      assert (items + [item])[1..] == items[1..] + [item];
    }
  }

  lemma NothingDiscarded(st: State)
    ensures Discard(st, []) == st
  {
    KeepNothingGone(st.items);
  }

  lemma DiscardOneMore(st: State, gone: seq<Item>, item: Item)
    ensures var before := Discard(st, gone);
      Discard(st, gone + [item]) ==
        before.(items := Keep(before.items, {item.id}), files := before.files - {item.Place()})
  {
    hide Keep, Ids, Places;
    IdsSnoc(gone, item);
    KeepTwice(st.items, Ids(gone), {item.id});
  }

  lemma NothingToEvict(config: Config, st: State)
    requires Total(st.items) <= config.ceiling
    ensures EvictOverCapacity(config, st) == st
  {
    NothingDiscarded(st);
  }

  lemma EvictOneMore(sorted: seq<Item>, total: int, ceiling: nat)
    requires sorted != [] && total > ceiling
    ensures EvictCount(sorted, total, ceiling) == 1 + EvictCount(sorted[1..], total - sorted[0].bytes, ceiling)
  {
  }

  lemma EvictionIsOver(sorted: seq<Item>, total: int, ceiling: nat)
    requires sorted == [] || total <= ceiling
    ensures EvictCount(sorted, total, ceiling) == 0
  {
  }

  lemma CommitIsAStep(config: Config, st: State, action: Action)
    requires action.DoCommit? && Enabled(st, action)
    ensures Step(config, st, action) == EvictOverCapacity(config,
      st.(items := Replace(st.items, Committed(config, st, action)), uploads := st.uploads - {action.id}))
  {
  }

  class Store {
    const config: Config
    /** A Python dictionary keeps the order in which its keys were first entered. */
    var items: seq<Item>
    var files: set<Path>
    /** What the writing threads know of themselves. */
    ghost var uploads: map<MediaId, Upload>

    ghost function Now(): State
      reads this
    {
      State(items, files, uploads)
    }

    constructor (config: Config)
      ensures this.config == config && Now() == Empty
    {
      this.config := config;
      items, files, uploads := [], {}, map[];
    }

    /** Forgets one item and deletes its file. */
    method Drop(item: Item)
      modifies this
      ensures items == Keep(old(items), {item.id}) && files == old(files) - {item.Place()} && uploads == old(uploads)
    {
      items := Keep(items, {item.id});
      files := files - {item.Place()};
    }

    /** Discards the expired settled items and counts them. */
    method ReapExpired(now: int) returns (count: nat)
      modifies this
      ensures Now() == Reap(old(Now()), now) && count == |Expired(old(items), now)|
    {
      var expired := Expired(items, now);
      DropAll(expired);
      return |expired|;
    }

    method DropAll(gone: seq<Item>)
      modifies this
      ensures Now() == Discard(old(Now()), gone)
    {
      NothingDiscarded(Now());
      assert gone[..0] == [];
      for i := 0 to |gone|
        invariant Now() == Discard(old(Now()), gone[..i])
      {
        hide Discard;
        DiscardOneMore(old(Now()), gone[..i], gone[i]);
        Drop(gone[i]);
        assert gone[..i + 1] == gone[..i] + [gone[i]];
      }
      assert gone[..|gone|] == gone;
    }

    /** Discards settled items by age while the running total is above the ceiling. */
    method Evict()
      modifies this
      ensures Now() == EvictOverCapacity(config, old(Now()))
    {
      hide Keep, Ids, Places, OldestFirst, SettledOnly, Total, Discard, EvictCount;
      var total: int := Total(items);
      NothingDiscarded(Now());
      if total <= config.ceiling {
        NothingToEvict(config, Now());
        return;
      }
      var sorted := OldestFirst(SettledOnly(items));
      var i := 0;
      assert sorted[..0] == [] && sorted[0..] == sorted;
      while i < |sorted| && total > config.ceiling
        invariant 0 <= i <= |sorted|
        invariant EvictCount(sorted, Total(old(items)), config.ceiling) == i + EvictCount(sorted[i..], total, config.ceiling)
        invariant Now() == Discard(old(Now()), sorted[..i])
      {
        var item := sorted[i];
        EvictOneMore(sorted[i..], total, config.ceiling);
        total := total - item.bytes;
        DiscardOneMore(old(Now()), sorted[..i], item);
        Drop(item);
        assert sorted[..i + 1] == sorted[..i] + [item];
        assert sorted[i..][1..] == sorted[i + 1..];
        i := i + 1;
      }
      EvictionIsOver(sorted[i..], total, config.ceiling);
    }

    /** The first of at most 64 drawn ids that is free becomes a reservation. */
    method Claim(draws: seq<MediaId>, extension: string, now: int) returns (id: Option<MediaId>)
      modifies this
      ensures Now() == Reserve(config, old(Now()), draws, extension, now)
      ensures id == FirstFree(old(Now()), draws, extension, DRAWS)
    {
      var tried := 0;
      while tried < DRAWS && tried < |draws|
        invariant 0 <= tried <= DRAWS && tried <= |draws| && Now() == old(Now())
        invariant FirstFree(old(Now()), draws, extension, DRAWS) == FirstFree(old(Now()), draws[tried..], extension, DRAWS - tried)
      {
        var draw := draws[tried];
        assert draws[tried..][0] == draw && draws[tried..][1..] == draws[tried + 1..];
        if draw !in Ids(items) && (draw, extension) !in files {
          items := items + [Blank(config, draw, extension, now)];
          uploads := uploads[draw := Upload(extension, Reserved, 0)];
          return Some(draw);
        }
        tried := tried + 1;
      }
      return None;
    }

    /** The writer is done: its reservation becomes an item, and the store makes room for it. */
    method Commit(id: MediaId, extension: string, written: nat, kind: string, filename: string, contentType: string, now: int)
      requires id in uploads && uploads[id] == Upload(extension, Stamped(now), written) && written > 0
      modifies this
      ensures Now() == Step(config, old(Now()), DoCommit(id, kind, filename, contentType))
    {
      ghost var action := DoCommit(id, kind, filename, contentType);
      CommitIsAStep(config, Now(), action);
      hide EvictOverCapacity, Replace, Step;
      items := Replace(items, Item(id, extension, kind, filename, contentType, written, now, now + config.ttl));
      uploads := uploads - {id};
      Evict();
    }

    /** The second locked section of a look-up. */
    method LookUp(id: MediaId) returns (item: Option<Item>)
      ensures item == if id in ById(items) then Some(ById(items)[id]) else None
    {
      var byId := ById(items);
      item := if id in byId then Some(byId[id]) else None;
    }

    /** Both sections with nothing in between: reap, then look the id up. */
    method Get(id: MediaId, now: int) returns (item: Option<Item>)
      requires Invariant(config, Now())
      modifies this
      ensures Now() == Reap(old(Now()), now) && Invariant(config, Now())
      ensures item == if id in ById(items) then Some(ById(items)[id]) else None
      ensures item.Some? ==> (!item.value.Settled() && id in uploads) || (item.value.Settled() && item.value.expiresAt > now)
    {
      ReapKeepsInvariant(config, Now(), now);
      ghost var before := Now();
      var _ := ReapExpired(now);
      SurvivorsAreFresh(before, now);
      ByIdIsTheItems(items);
      item := LookUp(id);
    }
  }
}
