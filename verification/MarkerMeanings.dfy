/** What single comparisons mean, said of their texts, the host's variables and PEP 440's order. */
module MarkerMeanings {
  import opened Prelude
  import opened Versions
  import opened Markers

  // ----- a marker of one comparison -----

  function One(left: Token, op: string, right: Token): seq<Token> {
    [left, Operator(op), right]
  }

  /** Three tokens are one comparison and nothing else. */
  lemma OneComparison(host: Host, left: Token, op: string, right: Token, extra: string)
    requires !left.Open?
    ensures MarkerValue(host, One(left, op, right), extra) == Comparison(host, left, op, right, extra)
  {
    hide ParseMarker, Comparison;
    var atom := Compare(left, op, right);
    var tree := OneBoth(OneAtom(atom));
    assert AtomTokens(atom) == One(left, op, right) && AtomWf(atom);
    assert BothTokens(OneAtom(atom)) == AtomTokens(atom) && BothWf(OneAtom(atom));
    assert EitherTokens(tree) == BothTokens(OneAtom(atom)) && EitherWf(tree);
    assert AtomValue(host, atom, extra) == Comparison(host, left, op, right, extra);
    assert BothValue(host, OneAtom(atom), extra) == AtomValue(host, atom, extra);
    MarkerIsItsTree(One(left, op, right), tree);
  }

  lemma OneApplies(host: Host, left: Token, op: string, right: Token, extras: set<string>)
    requires !left.Open? && Comparison(host, left, op, right, "").Some?
    ensures Applies(host, Lexed(One(left, op, right)), extras) ==
      Some(exists extra :: extra in extras + {""} && Comparison(host, left, op, right, extra) == Some(true))
  {
    hide Comparison, MarkerValue;
    var tokens := One(left, op, right);
    forall extra
      ensures MarkerValue(host, tokens, extra) == Comparison(host, left, op, right, extra)
    {
      OneComparison(host, left, op, right, extra);
    }
    assert HoldsForSome(host, tokens, extras + {""}) <==>
      exists extra :: extra in extras + {""} && Comparison(host, left, op, right, extra) == Some(true);
  }

  // ----- the extra -----

  lemma ExtraCompared(host: Host, x: string, op: string, extra: string)
    requires op == "==" || op == "!="
    ensures Comparison(host, Name("extra"), op, Text(x), extra) == Some((host.canonical(extra) == host.canonical(x)) == (op == "=="))
    ensures '*' !in x ==>
      Comparison(host, Text(x), op, Name("extra"), extra) == Some((host.canonical(extra) == host.canonical(x)) == (op == "=="))
    ensures '*' in x ==> Comparison(host, Text(x), op, Name("extra"), extra) == None
  {
  }

  /** Some extra asked for, or none at all, has this name. */
  ghost predicate AskedFor(host: Host, x: string, extras: set<string>) {
    exists extra :: extra in extras + {""} && host.canonical(extra) == host.canonical(x)
  }

  /** Some extra asked for, or the evaluation without one, has another name. */
  ghost predicate AskedForAnother(host: Host, x: string, extras: set<string>) {
    exists extra :: extra in extras + {""} && host.canonical(extra) != host.canonical(x)
  }

  /** `extra == 'x'` holds when x is asked for under any of its spellings, `extra != 'x'` when something else is. */
  lemma ExtraIsAskedFor(host: Host, x: string, extras: set<string>)
    ensures Applies(host, Lexed(One(Name("extra"), "==", Text(x))), extras) == Some(AskedFor(host, x, extras))
    ensures Applies(host, Lexed(One(Name("extra"), "!=", Text(x))), extras) == Some(AskedForAnother(host, x, extras))
  {
    hide Comparison;
    ExtraComparedForAll(host, x);
    OneApplies(host, Name("extra"), "==", Text(x), extras);
    OneApplies(host, Name("extra"), "!=", Text(x), extras);
  }

  lemma ExtraComparedForAll(host: Host, x: string)
    ensures forall extra :: Comparison(host, Name("extra"), "==", Text(x), extra) == Some(host.canonical(extra) == host.canonical(x))
    ensures forall extra :: Comparison(host, Name("extra"), "!=", Text(x), extra) == Some(host.canonical(extra) != host.canonical(x))
    ensures '*' !in x ==> forall extra ::
      Comparison(host, Text(x), "==", Name("extra"), extra) == Some(host.canonical(extra) == host.canonical(x))
    ensures '*' !in x ==> forall extra ::
      Comparison(host, Text(x), "!=", Name("extra"), extra) == Some(host.canonical(extra) != host.canonical(x))
  {
    hide Comparison;
    forall extra: string, op | op == "==" || op == "!="
      ensures Comparison(host, Name("extra"), op, Text(x), extra) == Some((host.canonical(extra) == host.canonical(x)) == (op == "=="))
      ensures '*' !in x ==>
        Comparison(host, Text(x), op, Name("extra"), extra) == Some((host.canonical(extra) == host.canonical(x)) == (op == "=="))
    {
      ExtraCompared(host, x, op, extra);
    }
    assert "==" != "!=";
  }

  /** The same with the sides swapped. */
  lemma SwappedExtraIsAskedFor(host: Host, x: string, extras: set<string>)
    requires '*' !in x
    ensures Applies(host, Lexed(One(Text(x), "==", Name("extra"))), extras) == Some(AskedFor(host, x, extras))
    ensures Applies(host, Lexed(One(Text(x), "!=", Name("extra"))), extras) == Some(AskedForAnother(host, x, extras))
  {
    hide Comparison;
    ExtraComparedForAll(host, x);
    OneApplies(host, Text(x), "==", Name("extra"), extras);
    OneApplies(host, Text(x), "!=", Name("extra"), extras);
  }

  // ----- variables and literals -----

  /** A name that is a variable of the host, spelled as the host spells it. */
  ghost predicate IsVariable(host: Host, name: string) {
    name !in ALIASES && name != "extra" && name in host.variables
  }

  const CANONICAL := {"os_name", "sys_platform", "platform_version", "platform_machine", "platform_python_implementation"}

  /** An alias is a variable's own name with dots in it, or the old name of the implementation. */
  lemma AliasesAreDotted(name: string)
    requires name in ALIASES
    ensures ALIASES[name] in CANONICAL
    ensures if name == "python_implementation" then ALIASES[name] == "platform_python_implementation" else Dotted(name, ALIASES[name])
  {
  }

  /** An aliased name stands for the variable whose name PEP 508 gives it. */
  lemma AliasStandsFor(host: Host, name: string, extra: string)
    requires name in ALIASES && ALIASES[name] in host.variables
    ensures Value(host, Name(name), extra) == Some((host.variables[ALIASES[name]], false))
  {
    AliasesAreDotted(name);
    assert "extra" !in CANONICAL;
  }

  /** The same letters, a dot in one for an underscore in the other. */
  predicate Dotted(name: string, other: string) {
    |name| == |other| && forall i :: 0 <= i < |name| ==> other[i] == name[i] || (name[i] == '.' && other[i] == '_')
  }

  /** `in` looks for a run of characters. */
  lemma {:induction false} WithinIsASlice(needle: string, hay: string)
    ensures IsWithin(needle, hay) <==> exists i :: 0 <= i <= |hay| && needle <= hay[i..]
  {
    if needle <= hay {
      assert hay[0..] == hay;
    } else if hay != "" {
      WithinIsASlice(needle, hay[1..]);
      if exists i :: 0 <= i <= |hay[1..]| && needle <= hay[1..][i..] {
        var i :| 0 <= i <= |hay[1..]| && needle <= hay[1..][i..];
        assert hay[1..][i..] == hay[i + 1..];
      }
      forall i | 0 <= i <= |hay| && needle <= hay[i..]
        ensures i > 0 && needle <= hay[1..][i - 1..]
      {
        assert hay[0..] == hay;
        assert i > 0 ==> hay[1..][i - 1..] == hay[i..];
      }
    } else {
      assert hay[0..] == hay;
    }
  }

  /** The operators on texts: a variable and a literal, in either order. */
  lemma TextsCompared(host: Host, name: string, literal: string, extra: string)
    requires IsVariable(host, name)
    ensures var value := host.variables[name];
      && Comparison(host, Name(name), "in", Text(literal), extra) == Some(IsWithin(value, literal))
      && Comparison(host, Name(name), "not in", Text(literal), extra) == Some(!IsWithin(value, literal))
      && Comparison(host, Name(name), "===", Text(literal), extra) == Some(value == literal)
    ensures var value := host.variables[name]; '*' !in literal ==>
      && Comparison(host, Text(literal), "in", Name(name), extra) == Some(IsWithin(literal, value))
      && Comparison(host, Text(literal), "not in", Name(name), extra) == Some(!IsWithin(literal, value))
      && Comparison(host, Text(literal), "===", Name(name), extra) == Some(value == literal)
    ensures forall op :: '*' in literal ==> Comparison(host, Text(literal), op, Name(name), extra) == None
  {
    hide IsWithin;
    assert "in" !in FLIPPED && "not in" !in FLIPPED;
  }

  /** What an ordering operator says of the sign of a comparison. */
  ghost predicate Orders(op: string, order: int) {
    || (op == "<" && order < 0) || (op == "<=" && order <= 0)
    || (op == ">" && order > 0) || (op == ">=" && order >= 0)
    || (op == "==" && order == 0) || (op == "!=" && order != 0)
  }

  function RelationOf(op: string): Option<Relation> {
    if op == "<" then Some(LT) else if op == "<=" then Some(LE)
    else if op == ">" then Some(GT) else if op == ">=" then Some(GE)
    else if op == "==" then Some(EQ) else if op == "!=" then Some(NE) else None
  }

  /** The host reads this text as this version, wherever it stands. */
  ghost predicate ReadsAs(host: Host, text: string, version: Version) {
    && '*' !in text && version.release != [] && host.version(text) == Some(version)
    && forall op :: RelationOf(op).Some? ==> host.clause(op + text) == Ordered(RelationOf(op).value, Some(version))
  }

  lemma OrderedIsPrescribed(text: string, left: Version, right: Version, op: string)
    requires left.release != [] && right.release != [] && RelationOf(op).Some?
    ensures Accepts(text, left, Ordered(RelationOf(op).value, Some(right))) == Some(Orders(op, PrescribedOrder(left, right)))
  {
    hide CompareKeys, KeyOf, PrescribedOrder;
    KeysOrderAsPrescribed(left, right);
  }

  lemma VersionValues(host: Host, a: string, b: string, left: Version, right: Version, op: string)
    requires ReadsAs(host, a, left) && ReadsAs(host, b, right) && RelationOf(op).Some?
    ensures CompareValues(host, a, op, b, false) == Some(Orders(op, PrescribedOrder(left, right)))
  {
    hide Accepts, Satisfies, PrescribedOrder, Orders, IsWithin;
    OneClause(a, left, Ordered(RelationOf(op).value, Some(right)));
    OrderedIsPrescribed(a, left, right, op);
    assert RelationOf("in") == None && RelationOf("not in") == None && RelationOf("===") == None;
  }

  lemma OrderTurnsRound(left: Version, right: Version)
    requires left.release != [] && right.release != []
    ensures PrescribedOrder(left, right) == -PrescribedOrder(right, left)
  {
    hide PrescribedOrder, KeyOf, CompareKeys;
    KeysOrderAsPrescribed(left, right);
    KeysOrderAsPrescribed(right, left);
    KeyOrderIsTotal(KeyOf(left), KeyOf(right));
  }

  lemma FlippedTurnsRound(op: string, order: int)
    requires RelationOf(op).Some?
    ensures op in FLIPPED && RelationOf(FLIPPED[op]).Some?
    ensures Orders(FLIPPED[op], -order) <==> Orders(op, order)
  {
  }

  /** Two versions are compared as PEP 440 orders them, whichever side the variable is on. */
  lemma VersionsCompared(host: Host, name: string, literal: string, value: Version, target: Version, op: string, extra: string)
    requires IsVariable(host, name) && RelationOf(op).Some?
    requires ReadsAs(host, host.variables[name], value) && ReadsAs(host, literal, target)
    ensures Comparison(host, Name(name), op, Text(literal), extra) == Some(Orders(op, PrescribedOrder(value, target)))
    ensures Comparison(host, Text(literal), op, Name(name), extra) == Some(Orders(op, PrescribedOrder(target, value)))
  {
    hide CompareValues, PrescribedOrder, Orders, RelationOf;
    VersionValues(host, host.variables[name], literal, value, target, op);
    FlippedTurnsRound(op, PrescribedOrder(target, value));
    VersionValues(host, host.variables[name], literal, value, target, FLIPPED[op]);
    OrderTurnsRound(value, target);
  }

  /** What is not two versions is compared as text by `==` and `!=`, and not decided by the other four. */
  lemma OtherValuesCompared(host: Host, name: string, literal: string, op: string, extra: string)
    requires IsVariable(host, name) && RelationOf(op).Some?
    requires '*' !in host.variables[name] && '*' !in literal
    requires host.version(host.variables[name]).None? || host.version(literal).None?
    ensures var equal := host.variables[name] == literal;
      var answer := if op == "==" then Some(equal) else if op == "!=" then Some(!equal) else None;
      && Comparison(host, Name(name), op, Text(literal), extra) == answer
      && Comparison(host, Text(literal), op, Name(name), extra) == answer
  {
    hide IsWithin, Satisfies;
  }

  /** `~=` between two versions, with the variable on its left or, not turned round, on its right. */
  lemma CompatibleCompared(host: Host, name: string, literal: string, value: Version, target: Version, extra: string)
    requires IsVariable(host, name) && '*' !in host.variables[name] && '*' !in literal
    requires host.version(host.variables[name]) == Some(value) && host.version(literal) == Some(target)
    requires |target.release| >= 2 && value.release != [] && value.epoch == target.epoch
    requires host.clause("~=" + literal) == Compatible(Some(target))
    ensures Comparison(host, Name(name), "~=", Text(literal), extra) == Some(InCompatibleRange(value, target))
    ensures host.clause("~=" + host.variables[name]) == Compatible(Some(value)) && |value.release| >= 2 ==>
      Comparison(host, Text(literal), "~=", Name(name), extra) == Some(InCompatibleRange(target, value))
  {
    hide IsWithin, Satisfies, Accepts, PrescribedOrder, ComparePadded;
    OneClause(host.variables[name], value, Compatible(Some(target)));
    CompatibleIsARange(host.variables[name], value, target);
    if |value.release| >= 2 {
      OneClause(literal, target, Compatible(Some(value)));
      CompatibleIsARange(literal, target, value);
    }
  }

  /** `==` and `!=` with a wildcard on the right test the prefix. */
  lemma WildcardsCompared(host: Host, name: string, literal: string, value: Version, prefix: seq<int>, wanted: bool, extra: string)
    requires IsVariable(host, name) && '*' !in host.variables[name] && host.version(host.variables[name]) == Some(value)
    requires |literal| >= 2 && literal[|literal| - 2..] == ".*"
    requires var op := if wanted then "==" else "!="; host.clause(op + literal) == Prefix(wanted, Some(prefix))
    ensures Comparison(host, Name(name), if wanted then "==" else "!=", Text(literal), extra) ==
      Some(HasPrefix(value.release, prefix) == wanted)
  {
    hide IsWithin, Satisfies, HasPrefix;
    assert literal[|literal| - 1] == ".*"[1] by {
      assert literal[|literal| - 2..][1] == literal[|literal| - 1];
    }
    OneClause(host.variables[name], value, Prefix(wanted, Some(prefix)));
  }

  // ----- and, or -----

  /** `x and y or z` is `(x and y) or z`, and `x or y and z` is `x or (y and z)`, unless parentheses say otherwise. */
  lemma AndBindsTighter(host: Host, x: Atom, y: Atom, z: Atom, extra: string)
    requires AtomWf(x) && AtomWf(y) && AtomWf(z)
    requires AtomValue(host, x, extra).Some? && AtomValue(host, y, extra).Some? && AtomValue(host, z, extra).Some?
    ensures var (a, b, c) := (AtomValue(host, x, extra).value, AtomValue(host, y, extra).value, AtomValue(host, z, extra).value);
      var (p, q, r) := (AtomTokens(x), AtomTokens(y), AtomTokens(z));
      && MarkerValue(host, p + [And] + q + [Or] + r, extra) == Some((a && b) || c)
      && MarkerValue(host, p + [Or] + (q + [And] + r), extra) == Some(a || (b && c))
      && MarkerValue(host, [Open] + (p + [Or] + q) + [Close] + [And] + r, extra) == Some((a || b) && c)
  {
    hide AtomTokens, AtomWf, AtomValue, BothTokens, BothWf, BothValue, EitherTokens, EitherWf, EitherValue, MarkerValue;
    OneAlone(host, x, extra);
    OneAlone(host, z, extra);
    Joined(host, x, y, extra);
    Joined(host, y, z, extra);
    var inner := MoreBoth(OneAtom(x), OneBoth(OneAtom(y)));
    OneAlone(host, y, extra);
    Parted(host, MoreAtoms(x, OneAtom(y)), OneAtom(z), extra);
    Parted(host, OneAtom(x), MoreAtoms(y, OneAtom(z)), extra);
    Parted(host, OneAtom(x), OneAtom(y), extra);
    ParenthesesAround(host, inner, extra);
    Joined(host, Paren(inner), z, extra);
    Whole(host, MoreAtoms(Paren(inner), OneAtom(z)), extra);
  }

  lemma OneAlone(host: Host, x: Atom, extra: string)
    ensures BothTokens(OneAtom(x)) == AtomTokens(x) && (BothWf(OneAtom(x)) <==> AtomWf(x))
    ensures BothValue(host, OneAtom(x), extra) == AtomValue(host, x, extra)
  {
  }

  lemma Joined(host: Host, x: Atom, y: Atom, extra: string)
    ensures BothTokens(MoreAtoms(x, OneAtom(y))) == AtomTokens(x) + [And] + AtomTokens(y)
    ensures BothWf(MoreAtoms(x, OneAtom(y))) <==> AtomWf(x) && AtomWf(y)
    ensures AtomValue(host, x, extra).Some? && AtomValue(host, y, extra).Some? ==>
      BothValue(host, MoreAtoms(x, OneAtom(y)), extra) == Some(AtomValue(host, x, extra).value && AtomValue(host, y, extra).value)
  {
    hide AtomTokens, AtomWf, AtomValue;
    OneAlone(host, y, extra);
  }

  lemma Whole(host: Host, a: Both, extra: string)
    requires BothWf(a)
    ensures MarkerValue(host, BothTokens(a), extra) == BothValue(host, a, extra)
  {
    hide ParseMarker, BothTokens, BothWf, BothValue;
    var tree := OneBoth(a);
    assert EitherTokens(tree) == BothTokens(a) && EitherWf(tree) && EitherValue(host, tree, extra) == BothValue(host, a, extra);
    MarkerIsItsTree(BothTokens(a), tree);
  }

  lemma Parted(host: Host, a: Both, b: Both, extra: string)
    requires BothWf(a) && BothWf(b) && BothValue(host, a, extra).Some? && BothValue(host, b, extra).Some?
    ensures var tree, tokens := MoreBoth(a, OneBoth(b)), BothTokens(a) + [Or] + BothTokens(b);
      && EitherWf(tree) && EitherTokens(tree) == tokens
      && EitherValue(host, tree, extra) == MarkerValue(host, tokens, extra)
        == Some(BothValue(host, a, extra).value || BothValue(host, b, extra).value)
  {
    hide ParseMarker, BothTokens, BothWf, BothValue;
    var last := OneBoth(b);
    assert EitherTokens(last) == BothTokens(b) && EitherWf(last) && EitherValue(host, last, extra) == BothValue(host, b, extra);
    MarkerIsItsTree(BothTokens(a) + [Or] + BothTokens(b), MoreBoth(a, last));
  }

  lemma ParenthesesAround(host: Host, inner: Either, extra: string)
    ensures AtomTokens(Paren(inner)) == [Open] + EitherTokens(inner) + [Close]
    ensures AtomWf(Paren(inner)) <==> EitherWf(inner)
    ensures AtomValue(host, Paren(inner), extra) == EitherValue(host, inner, extra)
  {
  }

  /** The parts joined by `or`. */
  function Boths(tree: Either): seq<Both> {
    match tree
    case OneBoth(only) => [only]
    case MoreBoth(first, others) => [first] + Boths(others)
  }

  /** The parts joined by `and`. */
  function Atoms(tree: Both): seq<Atom> {
    match tree
    case OneAtom(only) => [only]
    case MoreAtoms(first, others) => [first] + Atoms(others)
  }

  /** Everything in a list has its value. */
  ghost predicate EachDecided(host: Host, parts: seq<Both>, extra: string) {
    forall i :: 0 <= i < |parts| ==> BothValue(host, parts[i], extra).Some?
  }

  ghost predicate SomeTrue(host: Host, parts: seq<Both>, extra: string) {
    exists i :: 0 <= i < |parts| && BothValue(host, parts[i], extra) == Some(true)
  }

  ghost predicate EachAtomDecided(host: Host, parts: seq<Atom>, extra: string) {
    forall i :: 0 <= i < |parts| ==> AtomValue(host, parts[i], extra).Some?
  }

  ghost predicate AllTrue(host: Host, parts: seq<Atom>, extra: string) {
    forall i :: 0 <= i < |parts| ==> AtomValue(host, parts[i], extra) == Some(true)
  }

  /** `or` is decided when every part is, and true when some part is. */
  lemma {:induction false} OrIsSome(host: Host, tree: Either, extra: string)
    ensures EitherValue(host, tree, extra).Some? <==> EachDecided(host, Boths(tree), extra)
    ensures EitherValue(host, tree, extra).Some? ==>
      EitherValue(host, tree, extra).value == SomeTrue(host, Boths(tree), extra)
    decreases tree
  {
    hide BothValue;
    var parts := Boths(tree);
    match tree
    case OneBoth(only) =>
      assert parts == [only] && parts[0] == only;
    case MoreBoth(first, others) =>
      OrIsSome(host, others, extra);
      assert parts[0] == first && parts[1..] == Boths(others);
      assert forall i :: 0 < i < |parts| ==> parts[i] == Boths(others)[i - 1];
      assert forall i :: 0 <= i < |Boths(others)| ==> Boths(others)[i] == parts[i + 1];
  }

  /** `and` is decided when every part is, and true when all of them are. */
  lemma {:induction false} AndIsAll(host: Host, tree: Both, extra: string)
    ensures BothValue(host, tree, extra).Some? <==> EachAtomDecided(host, Atoms(tree), extra)
    ensures BothValue(host, tree, extra).Some? ==>
      BothValue(host, tree, extra).value == AllTrue(host, Atoms(tree), extra)
    decreases tree
  {
    hide AtomValue;
    var parts := Atoms(tree);
    match tree
    case OneAtom(only) =>
      assert parts == [only] && parts[0] == only;
    case MoreAtoms(first, others) =>
      AndIsAll(host, others, extra);
      assert parts[0] == first && parts[1..] == Atoms(others);
      assert forall i :: 0 < i < |parts| ==> parts[i] == Atoms(others)[i - 1];
      assert forall i :: 0 <= i < |Atoms(others)| ==> Atoms(others)[i] == parts[i + 1];
  }
}
