/** Python's order on strings and tuples of strings, and sorting by such a key. */
module Sorting {

  /** By code point, a prefix first. */
  predicate AtMost(a: string, b: string) {
    a == [] || (b != [] && (a[0] < b[0] || (a[0] == b[0] && AtMost(a[1..], b[1..]))))
  }

  lemma {:induction false} StringsAreOrdered(a: string, b: string)
    ensures AtMost(a, a)
    ensures AtMost(a, b) || AtMost(b, a)
    ensures AtMost(a, b) && AtMost(b, a) ==> a == b
    decreases |a| + |b|
  {
    if a != [] {
      StringsAreOrdered(a[1..], if b == [] then [] else b[1..]);
      assert a == [a[0]] + a[1..];
    }
    if b != [] {
      assert b == [b[0]] + b[1..];
    }
  }

  /** Equal up to here, and then a smaller character. */
  ghost predicate SmallerAt(a: string, b: string, i: int) {
    0 <= i < |a| && i < |b| && a[..i] == b[..i] && a[i] < b[i]
  }

  /** One is the beginning of the other, or has the smaller character where they first differ. */
  lemma {:induction false} AtMostByFirstDifference(a: string, b: string)
    ensures AtMost(a, b) <==> a <= b || exists i :: SmallerAt(a, b, i)
  {
    if a != [] && b != [] {
      assert a == [a[0]] + a[1..] && b == [b[0]] + b[1..];
      forall i | SmallerAt(a, b, i) && i > 0
        ensures a[0] == b[0]
      {
        assert a[..i][0] == b[..i][0];
      }
      if a[0] == b[0] {
        AtMostByFirstDifference(a[1..], b[1..]);
        if exists i :: SmallerAt(a[1..], b[1..], i) {
          var i :| SmallerAt(a[1..], b[1..], i);
          assert a[..i + 1] == [a[0]] + a[1..][..i] && b[..i + 1] == [b[0]] + b[1..][..i];
          assert SmallerAt(a, b, i + 1);
        }
        forall i | SmallerAt(a, b, i)
          ensures SmallerAt(a[1..], b[1..], i - 1)
        {
          assert a[1..][..i - 1] == a[..i][1..] && b[1..][..i - 1] == b[..i][1..];
        }
      } else {
        assert a[0] < b[0] ==> SmallerAt(a, b, 0);
      }
    }
  }

  lemma {:induction false} StringOrderIsTransitive(a: string, b: string, c: string)
    requires AtMost(a, b) && AtMost(b, c)
    ensures AtMost(a, c)
  {
    if a != [] && a[0] == b[0] == c[0] {
      StringOrderIsTransitive(a[1..], b[1..], c[1..]);
    }
  }

  type Key = seq<string>

  /** Tuples: the first difference decides. */
  predicate KeyAtMost(a: Key, b: Key) {
    a == [] || (b != [] && if a[0] == b[0] then KeyAtMost(a[1..], b[1..]) else AtMost(a[0], b[0]))
  }

  /** Four texts in turn: the first of them that differ decide. */
  lemma KeysOfFour(a: Key, b: Key)
    requires |a| == |b| == 4
    ensures KeyAtMost(a, b) <==>
      if a[0] != b[0] then AtMost(a[0], b[0])
      else if a[1] != b[1] then AtMost(a[1], b[1])
      else if a[2] != b[2] then AtMost(a[2], b[2])
      else AtMost(a[3], b[3])
  {
    StringsAreOrdered(a[3], b[3]);
    assert a[1..][1..][1..][1..] == [] && b[1..][1..][1..][1..] == [];
    hide AtMost;
    assert KeyAtMost(a[1..][1..][1..], b[1..][1..][1..]) <==> (a[3] == b[3] || AtMost(a[3], b[3]));
    assert KeyAtMost(a[1..][1..], b[1..][1..]) <==>
      if a[2] == b[2] then KeyAtMost(a[1..][1..][1..], b[1..][1..][1..]) else AtMost(a[2], b[2]);
    assert KeyAtMost(a[1..], b[1..]) <==> if a[1] == b[1] then KeyAtMost(a[1..][1..], b[1..][1..]) else AtMost(a[1], b[1]);
  }

  lemma {:induction false} KeysAreOrdered(a: Key, b: Key)
    ensures KeyAtMost(a, b) || KeyAtMost(b, a)
    ensures KeyAtMost(a, b) && KeyAtMost(b, a) ==> a == b
  {
    if a != [] && b != [] {
      if a[0] == b[0] {
        KeysAreOrdered(a[1..], b[1..]);
        assert a == [a[0]] + a[1..] && b == [b[0]] + b[1..];
      } else {
        StringsAreOrdered(a[0], b[0]);
      }
    }
  }

  lemma {:induction false} KeyOrderIsTransitive(a: Key, b: Key, c: Key)
    requires KeyAtMost(a, b) && KeyAtMost(b, c)
    ensures KeyAtMost(a, c)
  {
    if a != [] {
      if a[0] == b[0] && b[0] == c[0] {
        KeyOrderIsTransitive(a[1..], b[1..], c[1..]);
      } else if a[0] != b[0] && b[0] != c[0] {
        StringOrderIsTransitive(a[0], b[0], c[0]);
        StringsAreOrdered(a[0], b[0]);
      }
    }
  }

  ghost predicate Sorted<T(!new)>(items: seq<T>, key: T -> Key) {
    forall i, j :: 0 <= i < j < |items| ==> KeyAtMost(key(items[i]), key(items[j]))
  }

  /** `sorted(items, key=...)`, by insertion. */
  function Sort<T>(items: seq<T>, key: T -> Key): (r: seq<T>)
    ensures multiset(r) == multiset(items)
  {
    if items == [] then []
    else
      assert items == [items[0]] + items[1..];
      Insert(items[0], Sort(items[1..], key), key)
  }

  function Insert<T>(item: T, sorted: seq<T>, key: T -> Key): (r: seq<T>)
    ensures multiset(r) == multiset(sorted) + multiset{item}
  {
    if sorted == [] then [item]
    else if KeyAtMost(key(item), key(sorted[0])) then [item] + sorted
    else
      assert sorted == [sorted[0]] + sorted[1..];
      [sorted[0]] + Insert(item, sorted[1..], key)
  }

  lemma {:induction false} SortSorts<T(!new)>(items: seq<T>, key: T -> Key)
    ensures Sorted(Sort(items, key), key)
  {
    if items != [] {
      SortSorts(items[1..], key);
      InsertKeepsSorted(items[0], Sort(items[1..], key), key);
    }
  }

  lemma {:induction false} InsertKeepsSorted<T(!new)>(item: T, sorted: seq<T>, key: T -> Key)
    requires Sorted(sorted, key)
    ensures Sorted(Insert(item, sorted, key), key)
  {
    hide KeyAtMost;
    if sorted == [] {
    } else if KeyAtMost(key(item), key(sorted[0])) {
      forall j | 0 <= j < |sorted|
        ensures KeyAtMost(key(item), key(sorted[j]))
      {
        if j > 0 {
          KeyOrderIsTransitive(key(item), key(sorted[0]), key(sorted[j]));
        }
      }
    } else {
      var rest := Insert(item, sorted[1..], key);
      InsertKeepsSorted(item, sorted[1..], key);
      KeysAreOrdered(key(item), key(sorted[0]));
      forall j | 0 <= j < |rest|
        ensures KeyAtMost(key(sorted[0]), key(rest[j]))
      {
        assert rest[j] in multiset(rest);
        if rest[j] != item {
          assert rest[j] in sorted[1..];
          var k :| 0 <= k < |sorted[1..]| && sorted[1..][k] == rest[j];
          assert sorted[k + 1] == rest[j];
        }
      }
    }
  }

  /** Two sorted lists of the same elements are the same list, when no two of them have the same key. */
  lemma {:induction false} SortedIsUnique<T(!new)>(a: seq<T>, b: seq<T>, key: T -> Key)
    requires Sorted(a, key) && Sorted(b, key) && multiset(a) == multiset(b)
    requires TellsApart(multiset(a), key)
    ensures a == b
  {
    hide KeyAtMost, TellsApart;
    SameLength(a, b);
    if a != [] {
      SameFirst(a, b, key);
      WithoutTheFirst(a);
      WithoutTheFirst(b);
      assert TellsApart(multiset(a[1..]), key) by {
        FewerAreToldApart(multiset(a), multiset(a[1..]), key);
      }
      SortedIsUnique(a[1..], b[1..], key);
    }
  }

  /** No two different elements have the same key. */
  ghost predicate TellsApart<T(!new)>(items: multiset<T>, key: T -> Key) {
    forall x, y :: x in items && y in items && key(x) == key(y) ==> x == y
  }

  lemma FewerAreToldApart<T(!new)>(items: multiset<T>, fewer: multiset<T>, key: T -> Key)
    requires TellsApart(items, key) && fewer <= items
    ensures TellsApart(fewer, key)
  {
  }

  lemma SameLength<T>(a: seq<T>, b: seq<T>)
    requires multiset(a) == multiset(b)
    ensures |a| == |b|
  {
    assert |a| == |multiset(a)| == |multiset(b)| == |b|;
  }

  lemma WithoutTheFirst<T>(items: seq<T>)
    requires items != []
    ensures items == [items[0]] + items[1..]
    ensures multiset(items[1..]) == multiset(items) - multiset{items[0]}
    ensures multiset(items[1..]) <= multiset(items)
  {
    assert items == [items[0]] + items[1..];
    assert multiset(items) == multiset{items[0]} + multiset(items[1..]);
  }

  lemma SameFirst<T(!new)>(a: seq<T>, b: seq<T>, key: T -> Key)
    requires Sorted(a, key) && Sorted(b, key) && multiset(a) == multiset(b) && a != [] && b != []
    requires TellsApart(multiset(a), key)
    ensures a[0] == b[0]
  {
    hide KeyAtMost, Sorted;
    assert a[0] in multiset(a) && b[0] in multiset(b);
    SmallestFirst(a, b[0], key);
    SmallestFirst(b, a[0], key);
    KeysAreOrdered(key(a[0]), key(b[0]));
  }

  lemma SmallestFirst<T(!new)>(items: seq<T>, item: T, key: T -> Key)
    requires Sorted(items, key) && item in items
    ensures KeyAtMost(key(items[0]), key(item))
  {
    KeysAreOrdered(key(item), key(item));
    var k :| 0 <= k < |items| && items[k] == item;
  }

  /** Sorting by a key that tells elements apart forgets the order they came in. */
  lemma SortForgetsOrder<T(!new)>(items: seq<T>, other: seq<T>, key: T -> Key)
    requires multiset(items) == multiset(other) && TellsApart(multiset(items), key)
    ensures Sort(items, key) == Sort(other, key)
  {
    SortSorts(items, key);
    SortSorts(other, key);
    SortedIsUnique(Sort(items, key), Sort(other, key), key);
  }
}
