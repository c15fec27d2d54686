/** Version keys and specifier clauses of scripts/lib/gateway_health.py, on parsed version fields. */
module Versions {
  import opened Prelude

  /** The groups of the version pattern; `pre` is (rank, number) with a = 0, b = 1, rc = 2. */
  datatype Version = Version(
    epoch: nat,
    release: seq<nat>,
    pre: Option<(nat, nat)>,
    post: Option<nat>,
    dev: Option<nat>)

  /** The sort key: a tuple of tuples that Python compares from left to right. */
  datatype Key = Key(epoch: nat, release: seq<nat>, pre: (int, int, int), post: int, dev: (int, int))

  // ----- comparison of tuples: negative, zero or positive -----

  function CompareInt(a: int, b: int): int {
    if a < b then -1 else if a == b then 0 else 1
  }

  /** Python's order on tuples: the first difference decides, a proper prefix comes first. */
  function CompareSeq(a: seq<nat>, b: seq<nat>): int {
    if a == [] then (if b == [] then 0 else -1)
    else if b == [] then 1
    else if a[0] != b[0] then CompareInt(a[0], b[0])
    else CompareSeq(a[1..], b[1..])
  }

  function Then(first: int, second: int): int {
    if first != 0 then first else second
  }

  function CompareKeys(a: Key, b: Key): int {
    Then(CompareInt(a.epoch, b.epoch),
    Then(CompareSeq(a.release, b.release),
    Then(Then(CompareInt(a.pre.0, b.pre.0), Then(CompareInt(a.pre.1, b.pre.1), CompareInt(a.pre.2, b.pre.2))),
    Then(CompareInt(a.post, b.post),
    Then(CompareInt(a.dev.0, b.dev.0), CompareInt(a.dev.1, b.dev.1))))))
  }

  // ----- the key of a version -----

  /** The release without trailing zeros, but never empty when `release` is not. */
  function Stripped(release: seq<nat>): seq<nat> {
    if |release| > 1 && release[|release| - 1] == 0 then Stripped(release[..|release| - 1]) else release
  }

  method Strip(release: seq<nat>) returns (stripped: seq<nat>)
    ensures stripped == Stripped(release)
  {
    stripped := release;
    while |stripped| > 1 && stripped[|stripped| - 1] == 0
      invariant Stripped(stripped) == Stripped(release)
    {
      stripped := stripped[..|stripped| - 1];
    }
  }

  function KeyOf(v: Version): Key {
    Key(v.epoch,
        Stripped(v.release),
        if v.pre.Some? then (0, v.pre.value.0, v.pre.value.1)
        else if v.dev.Some? && v.post.None? then (-1, 0, 0)
        else (1, 0, 0),
        if v.post.Some? then v.post.value else -1,
        if v.dev.Some? then (0, v.dev.value) else (1, 0))
  }

  // ----- the key order is total -----

  lemma {:induction false} CompareSeqIsTotal(a: seq<nat>, b: seq<nat>)
    ensures CompareSeq(a, b) == -CompareSeq(b, a)
    ensures CompareSeq(a, b) == 0 <==> a == b
    ensures CompareSeq(a, b) in {-1, 0, 1}
  {
    if a != [] && b != [] {
      CompareSeqIsTotal(a[1..], b[1..]);
      assert a == [a[0]] + a[1..] && b == [b[0]] + b[1..];
    }
  }

  lemma {:induction false} CompareSeqIsTransitive(a: seq<nat>, b: seq<nat>, c: seq<nat>)
    requires CompareSeq(a, b) <= 0 && CompareSeq(b, c) <= 0
    ensures CompareSeq(a, c) <= 0
    ensures CompareSeq(a, b) < 0 || CompareSeq(b, c) < 0 ==> CompareSeq(a, c) < 0
  {
    if a != [] && b != [] && c != [] && a[0] == b[0] == c[0] {
      CompareSeqIsTransitive(a[1..], b[1..], c[1..]);
    }
  }

  /** Any two keys compare, one way only, and as equal exactly when they are the same key. */
  lemma KeyOrderIsTotal(a: Key, b: Key)
    ensures CompareKeys(a, b) == -CompareKeys(b, a)
    ensures CompareKeys(a, b) == 0 <==> a == b
  {
    CompareSeqIsTotal(a.release, b.release);
  }

  lemma KeyOrderIsTransitive(a: Key, b: Key, c: Key)
    requires CompareKeys(a, b) <= 0 && CompareKeys(b, c) <= 0
    ensures CompareKeys(a, c) <= 0
  {
    hide CompareSeq;
    CompareSeqIsTotal(a.release, b.release);
    CompareSeqIsTotal(b.release, c.release);
    CompareSeqIsTotal(a.release, c.release);
    if CompareSeq(a.release, b.release) <= 0 && CompareSeq(b.release, c.release) <= 0 {
      CompareSeqIsTransitive(a.release, b.release, c.release);
    }
  }

  // ----- releases compare as if padded with zeros -----

  function Part(release: seq<nat>, i: nat): nat {
    if i < |release| then release[i] else 0
  }

  /** PEP 440: component by component, the shorter release padded with zeros, from position `i` on. */
  function ComparePadded(a: seq<nat>, b: seq<nat>, i: nat): int
    decreases |a| + |b| - i
  {
    if i >= |a| && i >= |b| then 0
    else Then(CompareInt(Part(a, i), Part(b, i)), ComparePadded(a, b, i + 1))
  }

  /** Without its last component, a zero, a release compares as before. */
  lemma {:induction false} LastZeroIsPadding(a: seq<nat>, b: seq<nat>, i: nat)
    requires a != [] && a[|a| - 1] == 0 && i <= |a|
    ensures ComparePadded(a[..|a| - 1], b, i) == ComparePadded(a, b, i)
    ensures ComparePadded(b, a[..|a| - 1], i) == ComparePadded(b, a, i)
    decreases |a| - i
  {
    if i < |a| {
      LastZeroIsPadding(a, b, i + 1);
      assert Part(a[..|a| - 1], i) == Part(a, i);
    } else {
      SameTail(a[..|a| - 1], a, b, i);
    }
  }

  lemma {:induction false} SameTail(a: seq<nat>, a': seq<nat>, b: seq<nat>, i: nat)
    requires |a| <= i && |a'| <= i
    ensures ComparePadded(a, b, i) == ComparePadded(a', b, i)
    ensures ComparePadded(b, a, i) == ComparePadded(b, a', i)
    decreases |b| - i
  {
    if i < |b| {
      SameTail(a, a', b, i + 1);
    }
  }

  /** Stripping the trailing zeros of either side is sound. */
  lemma {:induction false} StrippingIsPadding(a: seq<nat>, b: seq<nat>)
    ensures ComparePadded(Stripped(a), b, 0) == ComparePadded(a, b, 0)
    ensures ComparePadded(b, Stripped(a), 0) == ComparePadded(b, a, 0)
  {
    if |a| > 1 && a[|a| - 1] == 0 {
      LastZeroIsPadding(a, b, 0);
      StrippingIsPadding(a[..|a| - 1], b);
    }
  }

  ghost predicate NoTrailingZero(a: seq<nat>) {
    a != [] && (|a| > 1 ==> a[|a| - 1] != 0)
  }

  lemma {:induction false} StrippedHasNoTrailingZero(a: seq<nat>)
    requires a != []
    ensures NoTrailingZero(Stripped(a))
  {
    if |a| > 1 && a[|a| - 1] == 0 {
      StrippedHasNoTrailingZero(a[..|a| - 1]);
    }
  }

  /** A release that still has a component differs from nothing but zeros. */
  lemma {:induction false} LongerIsGreater(a: seq<nat>, b: seq<nat>, i: nat)
    requires |a| <= i < |b| && b[|b| - 1] != 0
    ensures ComparePadded(a, b, i) == -1 && ComparePadded(b, a, i) == 1
    decreases |b| - i
  {
    if i + 1 < |b| {
      LongerIsGreater(a, b, i + 1);
    }
  }

  lemma {:induction false} TuplesCompareAsPadded(a: seq<nat>, b: seq<nat>, i: nat)
    requires NoTrailingZero(a) && NoTrailingZero(b) && i <= |a| && i <= |b|
    requires a[..i] == b[..i]
    ensures CompareSeq(a[i..], b[i..]) == ComparePadded(a, b, i)
    decreases |a| - i
  {
    if i < |a| && i < |b| {
      if a[i] == b[i] {
        assert a[..i + 1] == a[..i] + [a[i]] && b[..i + 1] == b[..i] + [b[i]];
        assert a[i..][1..] == a[i + 1..] && b[i..][1..] == b[i + 1..];
        TuplesCompareAsPadded(a, b, i + 1);
      }
    } else if i < |b| {
      LongerIsGreater(a, b, i);
    } else if i < |a| {
      LongerIsGreater(b, a, i);
    }
  }

  lemma ReleasesCompareAsPadded(v: Version, w: Version)
    requires v.release != [] && w.release != []
    ensures CompareSeq(KeyOf(v).release, KeyOf(w).release) == ComparePadded(v.release, w.release, 0)
  {
    var a, b := Stripped(v.release), Stripped(w.release);
    StrippedHasNoTrailingZero(v.release);
    StrippedHasNoTrailingZero(w.release);
    TuplesCompareAsPadded(a, b, 0);
    assert a[0..] == a && b[0..] == b;
    StrippingIsPadding(v.release, b);
    StrippingIsPadding(w.release, v.release);
  }

  // ----- the order PEP 440 prescribes -----

  /** Within one numeric release: development releases, then pre-releases, then the final one, then post-releases. */
  function Stage(v: Version): int {
    if v.pre.Some? then 1 else if v.post.Some? then 3 else if v.dev.Some? then 0 else 2
  }

  /** An absent post-release comes before every post-release. */
  function ComparePost(a: Option<nat>, b: Option<nat>): int {
    match (a, b)
    case (None, None) => 0
    case (None, Some(_)) => -1
    case (Some(_), None) => 1
    case (Some(m), Some(n)) => CompareInt(m, n)
  }

  /** An absent dev segment comes after every dev segment. */
  function CompareDev(a: Option<nat>, b: Option<nat>): int {
    match (a, b)
    case (None, None) => 0
    case (None, Some(_)) => 1
    case (Some(_), None) => -1
    case (Some(m), Some(n)) => CompareInt(m, n)
  }

  /** Of two pre-releases of one numeric release: alphas, betas, candidates, each by its number. */
  function ComparePre(v: Version, w: Version): int {
    if v.pre.Some? && w.pre.Some?
    then Then(CompareInt(v.pre.value.0, w.pre.value.0), CompareInt(v.pre.value.1, w.pre.value.1))
    else 0
  }

  function PrescribedOrder(v: Version, w: Version): int {
    Then(CompareInt(v.epoch, w.epoch),
    Then(ComparePadded(v.release, w.release, 0),
    Then(CompareInt(Stage(v), Stage(w)),
    Then(ComparePre(v, w),
    Then(ComparePost(v.post, w.post), CompareDev(v.dev, w.dev))))))
  }

  /** Comparing the keys is comparing the versions as PEP 440 prescribes. */
  lemma KeysOrderAsPrescribed(v: Version, w: Version)
    requires v.release != [] && w.release != []
    ensures CompareKeys(KeyOf(v), KeyOf(w)) == PrescribedOrder(v, w)
  {
    hide CompareSeq, ComparePadded, Stripped;
    ReleasesCompareAsPadded(v, w);
  }

  // ----- specifier clauses -----

  datatype Relation = EQ | NE | LE | GE | LT | GT

  /** One clause after its operator has been read; an unreadable part is `None`. */
  datatype Clause =
    | Identical(literal: string)
    | Prefix(wanted: bool, prefix: Option<seq<int>>)
    | Compatible(target: Option<Version>)
    | Ordered(relation: Relation, target: Option<Version>)
    | Unreadable

  /** A version as installed: its text without surrounding blanks, and what the pattern read from it. */
  datatype Installed = Installed(text: string, parsed: Option<Version>)

  /** Do the first components of the release, padded with zeros, spell this prefix? */
  function HasPrefix(release: seq<nat>, prefix: seq<int>): bool {
    forall i :: 0 <= i < |prefix| ==> Part(release, i) == prefix[i]
  }

  function Holds(relation: Relation, order: int): bool {
    match relation
    case EQ => order == 0
    case NE => order != 0
    case LE => order <= 0
    case GE => order >= 0
    case LT => order < 0
    case GT => order > 0
  }

  /** True or false, or `None` when the clause cannot be decided. */
  function Accepts(text: string, version: Version, clause: Clause): Option<bool> {
    match clause
    case Identical(literal) => Some(text == literal)
    case Prefix(wanted, prefix) =>
      if prefix.None? then None else Some(HasPrefix(version.release, prefix.value) == wanted)
    case Compatible(target) =>
      if target.None? || |target.value.release| < 2 then None
      else
        var release := target.value.release;
        Some(CompareKeys(KeyOf(version), KeyOf(target.value)) >= 0 && HasPrefix(version.release, release[..|release| - 1]))
    case Ordered(relation, target) =>
      if target.None? then None else Some(Holds(relation, CompareKeys(KeyOf(version), KeyOf(target.value))))
    case Unreadable => None
  }

  /** The clauses in turn: the first one that fails or cannot be decided settles the answer. */
  function AcceptsAll(text: string, version: Version, clauses: seq<Clause>): Option<bool> {
    if clauses == [] then Some(true)
    else
      var first :- Accepts(text, version, clauses[0]);
      if !first then Some(false) else AcceptsAll(text, version, clauses[1..])
  }

  function Satisfies(installed: Installed, clauses: seq<Clause>): Option<bool> {
    if installed.parsed.None? then None else AcceptsAll(installed.text, installed.parsed.value, clauses)
  }

  ghost predicate IsFirstFailing(text: string, version: Version, clauses: seq<Clause>, i: int) {
    && 0 <= i < |clauses|
    && Accepts(text, version, clauses[i]) != Some(true)
    && forall j :: 0 <= j < i ==> Accepts(text, version, clauses[j]) == Some(true)
  }

  /** All clauses hold, or the first that does not hold, for failing or for not being decided, is the answer. */
  lemma {:induction false} FirstClauseThatFailsSettles(text: string, version: Version, clauses: seq<Clause>)
    ensures AcceptsAll(text, version, clauses) == Some(true) <==>
      forall i :: 0 <= i < |clauses| ==> Accepts(text, version, clauses[i]) == Some(true)
    ensures forall i :: IsFirstFailing(text, version, clauses, i) ==> AcceptsAll(text, version, clauses) == Accepts(text, version, clauses[i])
  {
    hide Accepts;
    if clauses != [] {
      var rest := clauses[1..];
      FirstClauseThatFailsSettles(text, version, rest);
      assert forall i :: 0 <= i < |rest| ==> rest[i] == clauses[i + 1];
      assert forall i :: 1 <= i < |clauses| ==> clauses[i] == rest[i - 1];
      forall i | IsFirstFailing(text, version, clauses, i)
        ensures AcceptsAll(text, version, clauses) == Accepts(text, version, clauses[i])
      {
        if i > 0 {
          assert IsFirstFailing(text, version, rest, i - 1);
        }
      }
    }
  }

  lemma OneClause(text: string, version: Version, clause: Clause)
    ensures Satisfies(Installed(text, Some(version)), [clause]) == Accepts(text, version, clause)
  {
    hide Accepts;
    assert [clause][1..] == [] && AcceptsAll(text, version, []) == Some(true);
  }

  /** PEP 440, "Compatible release": `~=` is `>=` together with the wildcard on all but the last component. */
  lemma CompatibleIsAtLeastAndPrefix(installed: Installed, target: Version)
    requires |target.release| >= 2
    ensures Satisfies(installed, [Compatible(Some(target))])
         == Satisfies(installed, [Ordered(GE, Some(target)), Prefix(true, Some(target.release[..|target.release| - 1]))])
  {
    hide CompareKeys, KeyOf, HasPrefix;
    var atLeast, prefix := Ordered(GE, Some(target)), Prefix(true, Some(target.release[..|target.release| - 1]));
    assert [Compatible(Some(target))][1..] == [];
    assert [atLeast, prefix][1..] == [prefix] && [prefix][1..] == [];
    if installed.parsed.Some? {
      var text, version := installed.text, installed.parsed.value;
      assert AcceptsAll(text, version, []) == Some(true);
      assert AcceptsAll(text, version, [prefix]) == Accepts(text, version, prefix);
    }
  }

  /** The release that no compatible one may reach: the prefix with its last component raised. */
  function Ceiling(target: Version): seq<nat>
    requires |target.release| >= 2
  {
    var n := |target.release| - 2;
    target.release[..n] + [target.release[n] + 1]
  }

  lemma {:induction false} NothingIsBelowZeros(a: seq<nat>, b: seq<nat>, i: nat)
    requires |b| <= i
    ensures ComparePadded(a, b, i) >= 0
    decreases |a| - i
  {
    if i < |a| {
      NothingIsBelowZeros(a, b, i + 1);
    }
  }

  /** From position `i` on, between a release with this prefix and the raised prefix there is only the prefix itself. */
  lemma {:induction false} BetweenIsPrefix(release: seq<nat>, target: Version, i: nat)
    requires |target.release| >= 2 && i <= |target.release| - 1
    ensures ComparePadded(release, target.release, i) >= 0 && ComparePadded(release, Ceiling(target), i) < 0 ==>
      forall j :: i <= j < |target.release| - 1 ==> Part(release, j) == target.release[j]
    ensures i < |target.release| - 1 && (forall j :: i <= j < |target.release| - 1 ==> Part(release, j) == target.release[j]) ==>
      ComparePadded(release, Ceiling(target), i) < 0
    decreases |target.release| - i
  {
    var n := |target.release| - 2;
    if i < n {
      assert Part(Ceiling(target), i) == target.release[i];
      BetweenIsPrefix(release, target, i + 1);
    } else if i == n {
      assert Part(Ceiling(target), n) == target.release[n] + 1;
      NothingIsBelowZeros(release, Ceiling(target), n + 1);
    }
  }

  /** With the same epoch, `~=` accepts exactly the versions from the target up to, not including, the raised prefix. */
  lemma CompatibleIsARange(text: string, version: Version, target: Version)
    requires |target.release| >= 2 && version.release != [] && version.epoch == target.epoch
    ensures Accepts(text, version, Compatible(Some(target))) == Some(
      PrescribedOrder(version, target) >= 0 && ComparePadded(version.release, Ceiling(target), 0) < 0)
  {
    KeysOrderAsPrescribed(version, target);
    BetweenIsPrefix(version.release, target, 0);
    var prefix := target.release[..|target.release| - 1];
    assert HasPrefix(version.release, prefix) <==>
      forall j :: 0 <= j < |target.release| - 1 ==> Part(version.release, j) == target.release[j] by {
      assert forall j :: 0 <= j < |prefix| ==> prefix[j] == target.release[j];
    }
  }

  /** The range PEP 440 gives `~=`: the target's epoch, from the target up to, not including, the raised prefix. */
  ghost predicate InCompatibleRange(version: Version, target: Version)
    requires |target.release| >= 2
  {
    && version.epoch == target.epoch
    && PrescribedOrder(version, target) >= 0
    && ComparePadded(version.release, Ceiling(target), 0) < 0
  }

  /** `~=` decides as PEP 440 says unless the version has a later epoch and still shows the prefix. */
  lemma CompatibleIsTheRangeExactly(text: string, version: Version, target: Version)
    requires |target.release| >= 2 && version.release != []
    ensures Accepts(text, version, Compatible(Some(target))) == Some(InCompatibleRange(version, target))
      <==> !(version.epoch > target.epoch && HasPrefix(version.release, target.release[..|target.release| - 1]))
  {
    hide CompareSeq, ComparePadded, Stripped, HasPrefix;
    if version.epoch == target.epoch {
      CompatibleIsARange(text, version, target);
    } else {
      KeysOrderAsPrescribed(version, target);
    }
  }

  /** The prefix tests look at no epoch, so a version of a later epoch can pass `~=` without being in the range. */
  lemma CompatibleIgnoresLaterEpochs()
    ensures var version := Version(1, [2, 5], None, None, None);
      var target := Version(0, [2, 2], None, None, None);
      Accepts("1!2.5", version, Compatible(Some(target))) == Some(true) && !InCompatibleRange(version, target)
  {
    var version := Version(1, [2, 5], None, None, None);
    var target := Version(0, [2, 2], None, None, None);
    assert target.release[..1] == [2];
    assert CompareInt(version.epoch, target.epoch) == 1;
  }

  // ----- the wildcards -----

  /**
   PEP 440, "Version matching": `==V.*` compares the epoch too. The prefix the code reads has none written, and
   none written is epoch 0.
   */
  predicate MatchesPrefix(version: Version, prefix: seq<int>) {
    version.epoch == 0 && HasPrefix(version.release, prefix)
  }

  /** `==V.*` and `!=V.*` decide as PEP 440 says unless the version has a later epoch than 0 and still shows the prefix. */
  lemma PrefixIsAsPrescribedExactly(text: string, version: Version, wanted: bool, prefix: seq<int>)
    ensures Accepts(text, version, Prefix(wanted, Some(prefix))) == Some(MatchesPrefix(version, prefix) == wanted)
      <==> !(version.epoch > 0 && HasPrefix(version.release, prefix))
  {
  }

  lemma PrefixIgnoresEpochs()
    ensures var version := Version(1, [2, 5], None, None, None);
      && Accepts("1!2.5", version, Prefix(true, Some([2]))) == Some(true) && !MatchesPrefix(version, [2])
      && Accepts("1!2.5", version, Prefix(false, Some([2]))) == Some(false)
  {
  }

  // ----- the exclusive comparisons -----

  /** PEP 440 counts a development release as a pre-release. */
  predicate IsPre(v: Version) {
    v.pre.Some? || v.dev.Some?
  }

  /** The same epoch and numeric release, whatever stage. */
  predicate SameBase(v: Version, w: Version) {
    v.epoch == w.epoch && ComparePadded(v.release, w.release, 0) == 0
  }

  /** PEP 440, "Exclusive ordered comparison": `<V` is below V, and no pre-release of V itself unless V is one. */
  predicate IsBelow(v: Version, target: Version) {
    PrescribedOrder(v, target) < 0 && !(IsPre(v) && !IsPre(target) && SameBase(v, target))
  }

  /** `>V` is above V, and no post-release of V itself unless V is one. */
  predicate IsAbove(v: Version, target: Version) {
    PrescribedOrder(v, target) > 0 && !(v.post.Some? && target.post.None? && SameBase(v, target))
  }

  /**
   `<` decides as PEP 440 says unless the version is a pre-release of the very target: one that has the
   target's numbers, of a target that is final or, when the version is itself a dev release of a
   post-release, of a later post-release.
   */
  lemma BelowIsAsPrescribedExactly(text: string, v: Version, target: Version)
    requires v.release != [] && target.release != []
    ensures Accepts(text, v, Ordered(LT, Some(target))) == Some(IsBelow(v, target)) <==>
      !(SameBase(v, target) && IsPre(v) && !IsPre(target)
        && (v.pre.Some? || v.post.None? || (target.post.Some? && v.post.value <= target.post.value)))
  {
    hide CompareKeys, KeyOf;
    KeysOrderAsPrescribed(v, target);
  }

  /** `>` decides as PEP 440 says unless the version is a post-release of the very target and above it. */
  lemma AboveIsAsPrescribedExactly(text: string, v: Version, target: Version)
    requires v.release != [] && target.release != []
    ensures Accepts(text, v, Ordered(GT, Some(target))) == Some(IsAbove(v, target)) <==>
      !(SameBase(v, target) && v.post.Some? && target.post.None?
        && (v.pre.None? || (if target.pre.Some? then ComparePre(v, target) >= 0 else target.dev.Some?)))
  {
    hide CompareKeys, KeyOf;
    KeysOrderAsPrescribed(v, target);
  }

  /** An alpha of 3.0 passes `<3.0`, and a post-release of 1.7 passes `>1.7`. */
  lemma ExclusiveComparisonsTakeTheTargetsOwn()
    ensures var alpha, three := Version(0, [3, 0], Some((0, 1)), None, None), Version(0, [3, 0], None, None, None);
      Accepts("3.0a1", alpha, Ordered(LT, Some(three))) == Some(true) && !IsBelow(alpha, three)
    ensures var post, final := Version(0, [1, 7], None, Some(1), None), Version(0, [1, 7], None, None, None);
      Accepts("1.7.post1", post, Ordered(GT, Some(final))) == Some(true) && !IsAbove(post, final)
  {
    var alpha, three := Version(0, [3, 0], Some((0, 1)), None, None), Version(0, [3, 0], None, None, None);
    var post, final := Version(0, [1, 7], None, Some(1), None), Version(0, [1, 7], None, None, None);
    SamePadded([3, 0], 0);
    SamePadded([1, 7], 0);
    KeysOrderAsPrescribed(alpha, three);
    KeysOrderAsPrescribed(post, final);
  }

  lemma {:induction false} SamePadded(release: seq<nat>, i: nat)
    ensures ComparePadded(release, release, i) == 0
    decreases |release| - i
  {
    if i < |release| {
      SamePadded(release, i + 1);
    }
  }
}
