/** The media store's items in the order they were reserved, and what eviction and reaping leave of them. */
module MediaItems {
  import opened Prelude

  type MediaId = string

  type Path = (MediaId, string)

  /** One upload the gateway holds; zero bytes means its file is still being written. */
  datatype Item = Item(
    id: MediaId,
    extension: string,
    kind: string,
    filename: string,
    contentType: string,
    bytes: nat,
    createdAt: int,
    expiresAt: int)
  {
    predicate Settled() {
      bytes > 0
    }

    function Place(): Path {
      (id, extension)
    }
  }

  function Ids(items: seq<Item>): set<MediaId> {
    if items == [] then {} else {items[0].id} + Ids(items[1..])
  }

  predicate DistinctIds(items: seq<Item>) {
    items != [] ==> items[0].id !in Ids(items[1..]) && DistinctIds(items[1..])
  }

  lemma {:induction false} IdOfMember(items: seq<Item>, item: Item)
    requires item in items
    ensures item.id in Ids(items)
  {
    if items[0] != item {
      IdOfMember(items[1..], item);
    }
  }

  lemma {:induction false} SameIdSameItem(items: seq<Item>, item: Item, other: Item)
    requires DistinctIds(items) && item in items && other in items && item.id == other.id
    ensures item == other
  {
    if items[0] != item && items[0] != other {
      SameIdSameItem(items[1..], item, other);
    } else if items[0] != item {
      IdOfMember(items[1..], item);
    } else if items[0] != other {
      IdOfMember(items[1..], other);
    }
  }

  lemma {:induction false} DistinctPlaces(items: seq<Item>, i: nat, j: nat)
    requires DistinctIds(items) && i < j < |items|
    ensures items[i] != items[j]
  {
    if i == 0 {
      IdOfMember(items[1..], items[1..][j - 1]);
    } else {
      DistinctPlaces(items[1..], i - 1, j - 1);
    }
  }

  function Total(items: seq<Item>): nat {
    if items == [] then 0 else items[0].bytes + Total(items[1..])
  }

  /** Everything but the items named in `gone`, in the same order. */
  function Keep(items: seq<Item>, gone: set<MediaId>): (kept: seq<Item>)
    ensures forall item :: item in kept <==> item in items && item.id !in gone
  {
    if items == [] then []
    else
      var rest := Keep(items[1..], gone);
      if items[0].id in gone then rest else [items[0]] + rest
  }

  lemma {:induction false} KeepKeepsDistinct(items: seq<Item>, gone: set<MediaId>)
    ensures Ids(Keep(items, gone)) == Ids(items) - gone
    ensures DistinctIds(items) ==> DistinctIds(Keep(items, gone))
  {
    if items != [] {
      KeepKeepsDistinct(items[1..], gone);
    }
  }

  lemma {:induction false} KeepNothingGone(items: seq<Item>)
    ensures Keep(items, {}) == items
  {
    if items != [] {
      KeepNothingGone(items[1..]);
    }
  }

  lemma {:induction false} KeepTwice(items: seq<Item>, first: set<MediaId>, second: set<MediaId>)
    ensures Keep(Keep(items, first), second) == Keep(items, first + second)
  {
    if items != [] {
      KeepTwice(items[1..], first, second);
    }
  }

  lemma {:induction false} TotalSnoc(items: seq<Item>, item: Item)
    ensures Total(items + [item]) == Total(items) + item.bytes
  {
    if items == [] {
      assert items + [item] == [item];
    } else {
      TotalSnoc(items[1..], item);
      assert (items + [item])[1..] == items[1..] + [item];
    }
  }

  lemma {:induction false} MemberWeighsAtMostTotal(items: seq<Item>, item: Item)
    requires item in items
    ensures item.bytes <= Total(items)
  {
    if items[0] != item {
      MemberWeighsAtMostTotal(items[1..], item);
    }
  }

  // ----- oldest first -----

  function SettledOnly(items: seq<Item>): (r: seq<Item>)
    ensures forall item :: item in r <==> item in items && item.Settled()
    ensures Total(r) == Total(items)
  {
    if items == [] then []
    else
      var rest := SettledOnly(items[1..]);
      if items[0].Settled() then [items[0]] + rest else rest
  }

  /** Put an item in front of the first one that is not older: sorting by insertion, and stable. */
  function InsertByAge(item: Item, sorted: seq<Item>): (r: seq<Item>)
    ensures forall other :: other in r <==> other == item || other in sorted
  {
    if sorted == [] then [item]
    else if item.createdAt <= sorted[0].createdAt then [item] + sorted
    else [sorted[0]] + InsertByAge(item, sorted[1..])
  }

  /** `sorted(items, key=created_at)`: items of equal age keep the order they were reserved in. */
  function OldestFirst(items: seq<Item>): (r: seq<Item>)
    ensures forall item :: item in r <==> item in items
  {
    if items == [] then [] else InsertByAge(items[0], OldestFirst(items[1..]))
  }

  ghost predicate Sorted(items: seq<Item>) {
    forall i, j :: 0 <= i < j < |items| ==> items[i].createdAt <= items[j].createdAt
  }

  lemma {:induction false} InsertKeepsSorted(item: Item, sorted: seq<Item>)
    requires Sorted(sorted)
    ensures Sorted(InsertByAge(item, sorted))
  {
    if sorted != [] && item.createdAt > sorted[0].createdAt {
      var rest := InsertByAge(item, sorted[1..]);
      InsertKeepsSorted(item, sorted[1..]);
      forall j | 0 <= j < |rest|
        ensures sorted[0].createdAt <= rest[j].createdAt
      {
        assert rest[j] in rest;
        if rest[j] != item {
          var k :| 0 <= k < |sorted[1..]| && sorted[1..][k] == rest[j];
          assert sorted[k + 1] == rest[j];
        }
      }
    }
  }

  lemma {:induction false} InsertKeepsDistinct(item: Item, sorted: seq<Item>)
    ensures Ids(InsertByAge(item, sorted)) == {item.id} + Ids(sorted)
    ensures item.id !in Ids(sorted) && DistinctIds(sorted) ==> DistinctIds(InsertByAge(item, sorted))
  {
    if sorted != [] && item.createdAt > sorted[0].createdAt {
      InsertKeepsDistinct(item, sorted[1..]);
    } else {
      assert ([item] + sorted)[1..] == sorted;
    }
  }

  lemma {:induction false} InsertWeighs(item: Item, sorted: seq<Item>)
    ensures Total(InsertByAge(item, sorted)) == item.bytes + Total(sorted)
    ensures multiset(InsertByAge(item, sorted)) == multiset{item} + multiset(sorted)
  {
    if sorted != [] && item.createdAt > sorted[0].createdAt {
      InsertWeighs(item, sorted[1..]);
      assert sorted == [sorted[0]] + sorted[1..];
    } else {
      assert ([item] + sorted)[1..] == sorted;
    }
  }

  /** Sorting by age really sorts. */
  lemma {:induction false} OldestFirstIsSorted(items: seq<Item>)
    ensures Sorted(OldestFirst(items))
  {
    if items != [] {
      OldestFirstIsSorted(items[1..]);
      InsertKeepsSorted(items[0], OldestFirst(items[1..]));
    }
  }

  /** It keeps the same items and the same weight. */
  lemma OldestFirstKeepsItems(items: seq<Item>)
    ensures multiset(OldestFirst(items)) == multiset(items)
    ensures Total(OldestFirst(items)) == Total(items)
    ensures Ids(OldestFirst(items)) == Ids(items)
    ensures DistinctIds(items) ==> DistinctIds(OldestFirst(items))
  {
    OldestFirstWeighs(items);
    OldestFirstKeepsIds(items);
  }

  lemma {:induction false} OldestFirstWeighs(items: seq<Item>)
    ensures multiset(OldestFirst(items)) == multiset(items)
    ensures Total(OldestFirst(items)) == Total(items)
  {
    hide InsertByAge;
    if items != [] {
      OldestFirstWeighs(items[1..]);
      InsertWeighs(items[0], OldestFirst(items[1..]));
      assert items == [items[0]] + items[1..];
    }
  }

  lemma {:induction false} OldestFirstKeepsIds(items: seq<Item>)
    ensures Ids(OldestFirst(items)) == Ids(items)
    ensures DistinctIds(items) ==> DistinctIds(OldestFirst(items))
  {
    hide InsertByAge;
    if items != [] {
      OldestFirstKeepsIds(items[1..]);
      InsertKeepsDistinct(items[0], OldestFirst(items[1..]));
    }
  }

  function OfAge(items: seq<Item>, age: int): seq<Item> {
    if items == [] then []
    else if items[0].createdAt == age then [items[0]] + OfAge(items[1..], age)
    else OfAge(items[1..], age)
  }

  /** Of two items of one age, the one reserved first stays first. */
  lemma {:induction false} OldestFirstIsStable(items: seq<Item>, age: int)
    ensures OfAge(OldestFirst(items), age) == OfAge(items, age)
  {
    if items != [] {
      var rest := OldestFirst(items[1..]);
      OldestFirstIsStable(items[1..], age);
      InsertIsStable(items[0], rest, age);
      assert ([items[0]] + rest)[1..] == rest;
    }
  }

  lemma {:induction false} InsertIsStable(item: Item, sorted: seq<Item>, age: int)
    ensures OfAge(InsertByAge(item, sorted), age) == OfAge([item] + sorted, age)
  {
    assert ([item] + sorted)[1..] == sorted;
    if sorted != [] && item.createdAt > sorted[0].createdAt {
      var rest := sorted[1..];
      InsertIsStable(item, rest, age);
      assert ([item] + rest)[1..] == rest;
      assert InsertByAge(item, sorted)[1..] == InsertByAge(item, rest);
    }
  }

  lemma {:induction false} SettledKeepsDistinct(items: seq<Item>)
    ensures Ids(SettledOnly(items)) <= Ids(items)
    ensures DistinctIds(items) ==> DistinctIds(SettledOnly(items))
  {
    if items != [] {
      SettledKeepsDistinct(items[1..]);
    }
  }

  // ----- eviction -----

  /** How many of the oldest have to go before `total` fits. */
  function EvictCount(sorted: seq<Item>, total: int, ceiling: nat): (n: nat)
    ensures n <= |sorted|
  {
    if sorted == [] || total <= ceiling then 0 else 1 + EvictCount(sorted[1..], total - sorted[0].bytes, ceiling)
  }

  function Evicted(items: seq<Item>, ceiling: nat): seq<Item> {
    var sorted := OldestFirst(SettledOnly(items));
    sorted[..EvictCount(sorted, Total(items), ceiling)]
  }

  function AfterEviction(items: seq<Item>, ceiling: nat): seq<Item> {
    Keep(items, Ids(Evicted(items, ceiling)))
  }

  lemma {:induction false} EvictCountIsLeast(sorted: seq<Item>, total: int, ceiling: nat)
    requires total - Total(sorted) <= ceiling
    ensures var n := EvictCount(sorted, total, ceiling);
      total - Total(sorted[..n]) <= ceiling && forall m :: 0 <= m < n ==> total - Total(sorted[..m]) > ceiling
  {
    if sorted != [] && total > ceiling {
      var rest := sorted[1..];
      EvictCountIsLeast(rest, total - sorted[0].bytes, ceiling);
      var n := EvictCount(sorted, total, ceiling);
      assert sorted[..n][1..] == rest[..n - 1];
      forall m | 0 <= m < n
        ensures total - Total(sorted[..m]) > ceiling
      {
        if m > 0 {
          assert sorted[..m][1..] == rest[..m - 1];
        }
      }
    }
  }

  /** Removing some of the items removes exactly their weight. */
  lemma {:induction false} KeepWeighs(items: seq<Item>, gone: seq<Item>)
    requires DistinctIds(items) && DistinctIds(gone)
    requires forall item :: item in gone ==> item in items
    ensures Total(Keep(items, Ids(gone))) == Total(items) - Total(gone)
    decreases |gone|
  {
    if gone == [] {
      KeepNothingGone(items);
    } else {
      var item, rest := gone[0], gone[1..];
      KeepOneWeighs(items, item);
      KeepKeepsDistinct(items, {item.id});
      forall other | other in rest
        ensures other in Keep(items, {item.id})
      {
        IdOfMember(rest, other);
        assert other in gone;
      }
      KeepWeighs(Keep(items, {item.id}), rest);
      KeepTwice(items, {item.id}, Ids(rest));
    }
  }

  lemma {:induction false} KeepOneWeighs(items: seq<Item>, item: Item)
    requires DistinctIds(items) && item in items
    ensures Total(Keep(items, {item.id})) == Total(items) - item.bytes
  {
    if items[0] == item {
      KeepAbsent(items[1..], item.id);
    } else {
      IdOfMember(items[1..], item);
      KeepOneWeighs(items[1..], item);
    }
  }

  lemma {:induction false} KeepAbsent(items: seq<Item>, id: MediaId)
    requires id !in Ids(items)
    ensures Keep(items, {id}) == items
  {
    if items != [] {
      KeepAbsent(items[1..], id);
    }
  }

  /**
   Eviction drops exactly the shortest oldest-first run of settled items that brings the total to the
   ceiling. Uploads still being written are not touched, and what stays keeps its order.
   */
  lemma EvictionIsTheShortestPrefix(items: seq<Item>, ceiling: nat)
    requires DistinctIds(items)
    ensures var sorted := OldestFirst(SettledOnly(items));
      var n := |Evicted(items, ceiling)|;
      Evicted(items, ceiling) == sorted[..n]
      && Total(AfterEviction(items, ceiling)) == Total(items) - Total(sorted[..n]) <= ceiling
      && (forall m :: 0 <= m < n ==> Total(items) - Total(sorted[..m]) > ceiling)
    ensures forall item :: item in items && !item.Settled() ==> item in AfterEviction(items, ceiling)
    ensures forall item :: item in items ==> (item in Evicted(items, ceiling) <==> item !in AfterEviction(items, ceiling))
    ensures DistinctIds(AfterEviction(items, ceiling))
  {
    hide OldestFirst, SettledOnly, Total, Keep, EvictCount;
    var settled := SettledOnly(items);
    var sorted := OldestFirst(settled);
    var gone := Evicted(items, ceiling);
    SettledKeepsDistinct(items);
    OldestFirstKeepsItems(settled);
    EvictCountIsLeast(sorted, Total(items), ceiling);
    PrefixIsDistinct(sorted, |gone|);
    assert forall i :: 0 <= i < |gone| ==> gone[i] == sorted[i];
    assert forall item :: item in gone ==> item in sorted;
    KeepWeighs(items, gone);
    KeepKeepsDistinct(items, Ids(gone));
    GoneById(items, gone);
  }

  lemma {:induction false} PrefixIsDistinct(items: seq<Item>, n: nat)
    requires DistinctIds(items) && n <= |items|
    ensures Ids(items[..n]) <= Ids(items) && DistinctIds(items[..n])
  {
    if n > 0 {
      PrefixIsDistinct(items[1..], n - 1);
      assert items[..n][1..] == items[1..][..n - 1];
    }
  }

  lemma {:induction false} MemberOfId(items: seq<Item>, id: MediaId) returns (item: Item)
    requires id in Ids(items)
    ensures item in items && item.id == id
  {
    if items[0].id == id {
      item := items[0];
    } else {
      item := MemberOfId(items[1..], id);
    }
  }

  /** Among items with distinct ids, to go by id is to go. */
  lemma GoneById(items: seq<Item>, gone: seq<Item>)
    requires DistinctIds(items) && forall item :: item in gone ==> item in items && item.Settled()
    ensures forall item :: item in items ==> (item.id in Ids(gone) <==> item in gone)
  {
    forall item | item in items
      ensures item.id in Ids(gone) <==> item in gone
    {
      if item.id in Ids(gone) {
        var other := MemberOfId(gone, item.id);
        SameIdSameItem(items, item, other);
      } else if item in gone {
        IdOfMember(gone, item);
      }
    }
  }

  // ----- which items survive -----

  /** The bytes of the items no older than this. */
  function BytesFrom(items: seq<Item>, age: int): nat {
    if items == [] then 0
    else (if items[0].createdAt >= age then items[0].bytes else 0) + BytesFrom(items[1..], age)
  }

  /** The bytes that go after this item when the oldest go first: of younger items, and of those of its age reserved later. */
  function BytesBehind(items: seq<Item>, item: Item): nat {
    if items == [] then 0
    else if items[0] == item then BytesFrom(items[1..], item.createdAt)
    else (if items[0].createdAt > item.createdAt then items[0].bytes else 0) + BytesBehind(items[1..], item)
  }

  /** The bytes of what follows the item in a list. */
  function BytesAfter(sorted: seq<Item>, item: Item): nat {
    if sorted == [] then 0
    else if sorted[0] == item then Total(sorted[1..])
    else BytesAfter(sorted[1..], item)
  }

  lemma {:induction false} InsertedFrom(item: Item, sorted: seq<Item>, age: int)
    ensures BytesFrom(InsertByAge(item, sorted), age) == BytesFrom(sorted, age) + if item.createdAt >= age then item.bytes else 0
  {
    if sorted != [] && item.createdAt > sorted[0].createdAt {
      InsertedFrom(item, sorted[1..], age);
    } else {
      assert ([item] + sorted)[1..] == sorted;
    }
  }

  lemma {:induction false} SortedFrom(items: seq<Item>, age: int)
    ensures BytesFrom(OldestFirst(items), age) == BytesFrom(items, age)
  {
    if items != [] {
      SortedFrom(items[1..], age);
      InsertedFrom(items[0], OldestFirst(items[1..]), age);
    }
  }

  lemma {:induction false} AllFrom(sorted: seq<Item>, age: int)
    requires forall i :: 0 <= i < |sorted| ==> sorted[i].createdAt >= age
    ensures BytesFrom(sorted, age) == Total(sorted)
  {
    if sorted != [] {
      AllFrom(sorted[1..], age);
    }
  }

  /** What an item is inserted in front of is what is no older. */
  lemma {:induction false} AfterTheInserted(item: Item, sorted: seq<Item>)
    requires Sorted(sorted) && item !in sorted
    ensures BytesAfter(InsertByAge(item, sorted), item) == BytesFrom(sorted, item.createdAt)
  {
    if sorted != [] && item.createdAt > sorted[0].createdAt {
      AfterTheInserted(item, sorted[1..]);
    } else {
      assert ([item] + sorted)[1..] == sorted;
      AllFrom(sorted, item.createdAt);
    }
  }

  /** Another item goes behind it exactly when it is younger. */
  lemma {:induction false} InsertedBehind(other: Item, sorted: seq<Item>, item: Item)
    requires Sorted(sorted) && item in sorted && other != item
    ensures BytesAfter(InsertByAge(other, sorted), item) ==
      BytesAfter(sorted, item) + if other.createdAt > item.createdAt then other.bytes else 0
  {
    var i :| 0 <= i < |sorted| && sorted[i] == item;
    if other.createdAt > sorted[0].createdAt {
      if sorted[0] == item {
        InsertWeighs(other, sorted[1..]);
      } else {
        InsertedBehind(other, sorted[1..], item);
      }
    } else {
      assert ([other] + sorted)[1..] == sorted && sorted[0].createdAt <= sorted[i].createdAt;
    }
  }

  lemma {:induction false} SortedBehind(items: seq<Item>, item: Item)
    requires DistinctIds(items) && item in items
    ensures BytesAfter(OldestFirst(items), item) == BytesBehind(items, item)
  {
    hide InsertByAge, BytesAfter, Ids;
    var rest := OldestFirst(items[1..]);
    OldestFirstIsSorted(items[1..]);
    if items[0] == item {
      if item in items[1..] {
        IdOfMember(items[1..], item);
      }
      AfterTheInserted(item, rest);
      SortedFrom(items[1..], item.createdAt);
    } else {
      SortedBehind(items[1..], item);
      InsertedBehind(items[0], rest, item);
    }
  }

  /** Unsettled items weigh nothing behind anything. */
  lemma {:induction false} OnlySettledWeigh(items: seq<Item>, item: Item, age: int)
    requires item.Settled()
    ensures BytesFrom(SettledOnly(items), age) == BytesFrom(items, age)
    ensures BytesBehind(SettledOnly(items), item) == BytesBehind(items, item)
  {
    if items != [] {
      OnlySettledWeigh(items[1..], item, age);
      OnlySettledWeigh(items[1..], item, item.createdAt);
    }
  }

  lemma {:induction false} TotalInTwo(first: seq<Item>, second: seq<Item>)
    ensures Total(first + second) == Total(first) + Total(second)
  {
    if first == [] {
      assert first + second == second;
    } else {
      TotalInTwo(first[1..], second);
      assert (first + second)[1..] == first[1..] + second;
    }
  }

  lemma {:induction false} AfterAPlace(sorted: seq<Item>, k: nat)
    requires DistinctIds(sorted) && k < |sorted|
    ensures BytesAfter(sorted, sorted[k]) == Total(sorted[k + 1..])
  {
    if k > 0 {
      DistinctPlaces(sorted, 0, k);
      AfterAPlace(sorted[1..], k - 1);
      assert sorted[1..][k..] == sorted[k + 1..];
    }
  }

  /** The place in the order of eviction decides: an item survives exactly when it and all behind it fit. */
  lemma SurvivesByItsPlace(items: seq<Item>, ceiling: nat, k: nat)
    requires DistinctIds(items) && k < |OldestFirst(SettledOnly(items))|
    ensures var sorted := OldestFirst(SettledOnly(items));
      sorted[k] in AfterEviction(items, ceiling) <==> Total(sorted[k..]) <= ceiling
  {
    hide OldestFirst, SettledOnly, Keep, EvictCount, Total, Ids, DistinctIds, AfterEviction;
    var sorted, n := OldestFirst(SettledOnly(items)), |Evicted(items, ceiling)|;
    EvictionIsTheShortestPrefix(items, ceiling);
    SettledKeepsDistinct(items);
    OldestFirstKeepsItems(SettledOnly(items));
    assert sorted[k] in sorted && sorted[k] in items;
    TotalInTwo(sorted[..k], sorted[k..]);
    assert sorted == sorted[..k] + sorted[k..];
    if k < n {
      assert Evicted(items, ceiling)[k] == sorted[k];
    } else {
      PrefixWeighsLess(sorted, n, k);
      forall j | 0 <= j < n
        ensures sorted[j] != sorted[k]
      {
        DistinctPlaces(sorted, j, k);
      }
      assert forall j :: 0 <= j < n ==> Evicted(items, ceiling)[j] == sorted[j];
    }
  }

  lemma PrefixWeighsLess(items: seq<Item>, m: nat, n: nat)
    requires m <= n <= |items|
    ensures Total(items[..m]) <= Total(items[..n])
  {
    TotalInTwo(items[..m], items[m..n]);
    assert items[..n] == items[..m] + items[m..n];
  }

  /** A settled item survives eviction exactly when it fits together with all that would go after it. */
  lemma SurvivesExactly(items: seq<Item>, item: Item, ceiling: nat)
    requires DistinctIds(items) && item in items && item.Settled()
    ensures item in AfterEviction(items, ceiling) <==> item.bytes + BytesBehind(items, item) <= ceiling
  {
    hide OldestFirst, SettledOnly, AfterEviction, BytesBehind, BytesAfter, DistinctIds;
    var settled := SettledOnly(items);
    var sorted := OldestFirst(settled);
    SettledKeepsDistinct(items);
    OldestFirstKeepsItems(settled);
    var k :| 0 <= k < |sorted| && sorted[k] == item;
    SurvivesByItsPlace(items, ceiling, k);
    AfterAPlace(sorted, k);
    SortedBehind(settled, item);
    OnlySettledWeigh(items, item, item.createdAt);
    assert sorted[k..] == [item] + sorted[k + 1..];
  }

  lemma {:induction false} NothingYoungerBehind(items: seq<Item>, item: Item)
    requires item in items
    requires forall other :: other in items && other != item ==> !other.Settled() || other.createdAt < item.createdAt
    requires DistinctIds(items)
    ensures BytesBehind(items, item) == 0
  {
    if items[0] == item {
      if item in items[1..] {
        IdOfMember(items[1..], item);
      }
      NothingFrom(items[1..], item.createdAt);
    } else {
      NothingYoungerBehind(items[1..], item);
    }
  }

  lemma {:induction false} NothingFrom(items: seq<Item>, age: int)
    requires forall other :: other in items ==> !other.Settled() || other.createdAt < age
    ensures BytesFrom(items, age) == 0
  {
    if items != [] {
      NothingFrom(items[1..], age);
    }
  }

  /** With no settled item as young, the newest one survives whenever it fits the ceiling alone. */
  lemma NewestSurvives(items: seq<Item>, newest: Item, ceiling: nat)
    requires DistinctIds(items) && newest in items && newest.Settled() && newest.bytes <= ceiling
    requires forall item :: item in items && item.Settled() && item != newest ==> item.createdAt < newest.createdAt
    ensures newest in AfterEviction(items, ceiling)
  {
    hide AfterEviction, BytesBehind, DistinctIds;
    SurvivesExactly(items, newest, ceiling);
    NothingYoungerBehind(items, newest);
  }
}
