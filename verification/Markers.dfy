/**
 Environment markers: the grammar of PEP 508 as trees and their token strings, the value of a tree,
 and the recursive-descent evaluator with its position, proved against them.
 */
module Markers {
  import opened Prelude
  import opened Versions

  datatype Token = Open | Close | Text(text: string) | Operator(op: string) | And | Or | Name(name: string)

  /** What the evaluator asks of its host: the marker variables and the readers of text. */
  datatype Host = Host(
    variables: map<string, string>,
    version: string -> Option<Version>,
    clause: string -> Clause,
    canonical: string -> string)

  // ----- one comparison -----

  const ALIASES: map<string, string> := map[
    "os.name" := "os_name", "sys.platform" := "sys_platform",
    "platform.version" := "platform_version", "platform.machine" := "platform_machine",
    "platform.python_implementation" := "platform_python_implementation",
    "python_implementation" := "platform_python_implementation"]

  const FLIPPED: map<string, string> := map[
    "<" := ">", ">" := "<", "<=" := ">=", ">=" := "<=", "==" := "==", "!=" := "!=", "===" := "==="]

  /** The text of an operand and whether it is the extra asked for; `None` for anything else. */
  function Value(host: Host, token: Token, extra: string): Option<(string, bool)> {
    match token
    case Text(text) => Some((text, false))
    case Name(name) =>
      var known := if name in ALIASES then ALIASES[name] else name;
      if known == "extra" then Some((extra, true))
      else if known in host.variables then Some((host.variables[known], false))
      else None
    case _ => None
  }

  function IsWithin(needle: string, hay: string): bool {
    needle <= hay || (hay != "" && IsWithin(needle, hay[1..]))
  }

  function EndsWith(text: string, end: string): bool {
    |end| <= |text| && text[|text| - |end|..] == end
  }

  function CompareValues(host: Host, left: string, op: string, right: string, isExtra: bool): Option<bool> {
    if isExtra then
      if op != "==" && op != "!=" then None
      else Some((host.canonical(left) == host.canonical(right)) == (op == "=="))
    else if op == "in" then Some(IsWithin(left, right))
    else if op == "not in" then Some(!IsWithin(left, right))
    else if op == "===" then Some(left == right)
    else if '*' in left || '*' in right then
      if (op != "==" && op != "!=") || '*' in left || !EndsWith(right, ".*") then None
      else Satisfies(Installed(left, host.version(left)), [host.clause(op + right)])
    else if host.version(left).Some? && host.version(right).Some? then
      Satisfies(Installed(left, host.version(left)), [host.clause(op + right)])
    else if op == "==" then Some(left == right)
    else if op == "!=" then Some(left != right)
    else None
  }

  /** One comparison: refused with a wildcard in a literal on its left, turned round when only the left is a literal. */
  function Comparison(host: Host, left: Token, op: string, right: Token, extra: string): Option<bool> {
    var (leftText, leftExtra) :- Value(host, left, extra);
    var (rightText, rightExtra) :- Value(host, right, extra);
    if left.Text? && '*' in leftText then None
    else if right.Name? && left.Text? && op in FLIPPED
    then CompareValues(host, rightText, FLIPPED[op], leftText, leftExtra || rightExtra)
    else CompareValues(host, leftText, op, rightText, leftExtra || rightExtra)
  }

  // ----- the grammar -----

  /** marker_or: one or more marker_and. */
  datatype Either = OneBoth(only: Both) | MoreBoth(first: Both, others: Either)

  /** marker_and: one or more marker_expr. */
  datatype Both = OneAtom(only: Atom) | MoreAtoms(first: Atom, others: Both)

  datatype Atom = Compare(left: Token, op: string, right: Token) | Paren(inner: Either)

  function EitherTokens(tree: Either): (tokens: seq<Token>)
    ensures tokens != []
  {
    match tree
    case OneBoth(only) => BothTokens(only)
    case MoreBoth(first, others) => BothTokens(first) + [Or] + EitherTokens(others)
  }

  function BothTokens(tree: Both): (tokens: seq<Token>)
    ensures tokens != []
  {
    match tree
    case OneAtom(only) => AtomTokens(only)
    case MoreAtoms(first, others) => AtomTokens(first) + [And] + BothTokens(others)
  }

  function AtomTokens(tree: Atom): (tokens: seq<Token>)
    ensures tokens != []
  {
    match tree
    case Compare(left, op, right) => [left, Operator(op), right]
    case Paren(inner) => [Open] + EitherTokens(inner) + [Close]
  }

  /** A comparison that begins with a parenthesis would not be read as one. */
  predicate EitherWf(tree: Either) {
    match tree
    case OneBoth(only) => BothWf(only)
    case MoreBoth(first, others) => BothWf(first) && EitherWf(others)
  }

  predicate BothWf(tree: Both) {
    match tree
    case OneAtom(only) => AtomWf(only)
    case MoreAtoms(first, others) => AtomWf(first) && BothWf(others)
  }

  predicate AtomWf(tree: Atom) {
    match tree
    case Compare(left, _, _) => !left.Open?
    case Paren(inner) => EitherWf(inner)
  }

  // ----- the value of a tree: `None` when some comparison anywhere in it cannot be decided -----

  function EitherValue(host: Host, tree: Either, extra: string): Option<bool> {
    match tree
    case OneBoth(only) => BothValue(host, only, extra)
    case MoreBoth(first, others) =>
      var a :- BothValue(host, first, extra);
      var b :- EitherValue(host, others, extra);
      Some(a || b)
  }

  function BothValue(host: Host, tree: Both, extra: string): Option<bool> {
    match tree
    case OneAtom(only) => AtomValue(host, only, extra)
    case MoreAtoms(first, others) =>
      var a :- AtomValue(host, first, extra);
      var b :- BothValue(host, others, extra);
      Some(a && b)
  }

  function AtomValue(host: Host, tree: Atom, extra: string): Option<bool> {
    match tree
    case Compare(left, op, right) => Comparison(host, left, op, right, extra)
    case Paren(inner) => EitherValue(host, inner, extra)
  }

  // ----- reading a tree, without deciding anything -----

  function ParseEither(tokens: seq<Token>, at: nat): (r: Option<(Either, nat)>)
    ensures r.Some? ==> at < r.value.1 <= |tokens|
    decreases |tokens| - at, 2
  {
    var (first, end) :- ParseBoth(tokens, at);
    if end < |tokens| && tokens[end].Or? then
      var (others, last) :- ParseEither(tokens, end + 1);
      Some((MoreBoth(first, others), last))
    else Some((OneBoth(first), end))
  }

  function ParseBoth(tokens: seq<Token>, at: nat): (r: Option<(Both, nat)>)
    ensures r.Some? ==> at < r.value.1 <= |tokens|
    decreases |tokens| - at, 1
  {
    var (first, end) :- ParseAtom(tokens, at);
    if end < |tokens| && tokens[end].And? then
      var (others, last) :- ParseBoth(tokens, end + 1);
      Some((MoreAtoms(first, others), last))
    else Some((OneAtom(first), end))
  }

  function ParseAtom(tokens: seq<Token>, at: nat): (r: Option<(Atom, nat)>)
    ensures r.Some? ==> at < r.value.1 <= |tokens|
    decreases |tokens| - at, 0
  {
    if at < |tokens| && tokens[at].Open? then
      var (inner, end) :- ParseEither(tokens, at + 1);
      if end < |tokens| && tokens[end].Close? then Some((Paren(inner), end + 1)) else None
    else if at + 3 <= |tokens| && tokens[at + 1].Operator?
    then Some((Compare(tokens[at], tokens[at + 1].op, tokens[at + 2]), at + 3))
    else None
  }

  // ----- the reader inverts the grammar -----

  lemma SliceJoined(tokens: seq<Token>, at: nat, middle: nat, end: nat)
    requires at <= middle < end <= |tokens|
    ensures tokens[at..end] == tokens[at..middle] + [tokens[middle]] + tokens[middle + 1..end]
  {
  }

  lemma {:induction false} EitherIsSound(tokens: seq<Token>, at: nat)
    requires ParseEither(tokens, at).Some?
    ensures var (tree, end) := ParseEither(tokens, at).value; EitherWf(tree) && EitherTokens(tree) == tokens[at..end]
    decreases |tokens| - at, 2
  {
    hide BothTokens, BothWf, ParseBoth;
    BothIsSound(tokens, at);
    var (first, end) := ParseBoth(tokens, at).value;
    if end < |tokens| && tokens[end].Or? {
      EitherIsSound(tokens, end + 1);
      var last := ParseEither(tokens, end + 1).value.1;
      SliceJoined(tokens, at, end, last);
    }
  }

  lemma {:induction false} BothIsSound(tokens: seq<Token>, at: nat)
    requires ParseBoth(tokens, at).Some?
    ensures var (tree, end) := ParseBoth(tokens, at).value; BothWf(tree) && BothTokens(tree) == tokens[at..end]
    decreases |tokens| - at, 1
  {
    hide AtomTokens, AtomWf, ParseAtom;
    AtomIsSound(tokens, at);
    var (first, end) := ParseAtom(tokens, at).value;
    if end < |tokens| && tokens[end].And? {
      BothIsSound(tokens, end + 1);
      var last := ParseBoth(tokens, end + 1).value.1;
      SliceJoined(tokens, at, end, last);
    }
  }

  lemma {:induction false} AtomIsSound(tokens: seq<Token>, at: nat)
    requires ParseAtom(tokens, at).Some?
    ensures var (tree, end) := ParseAtom(tokens, at).value; AtomWf(tree) && AtomTokens(tree) == tokens[at..end]
    decreases |tokens| - at, 0
  {
    if tokens[at].Open? {
      EitherIsSound(tokens, at + 1);
      var end := ParseEither(tokens, at + 1).value.1;
      assert tokens[at..end + 1] == [tokens[at]] + tokens[at + 1..end] + [tokens[end]];
    } else {
      assert tokens[at..at + 3] == [tokens[at], tokens[at + 1], tokens[at + 2]];
    }
  }

  /** `tokens` spells this string of tokens at position `at`. */
  ghost predicate Spells(tokens: seq<Token>, at: nat, part: seq<Token>) {
    at + |part| <= |tokens| && tokens[at..at + |part|] == part
  }

  lemma SpellsParts(tokens: seq<Token>, at: nat, first: seq<Token>, second: seq<Token>)
    requires Spells(tokens, at, first + second)
    ensures Spells(tokens, at, first) && Spells(tokens, at + |first|, second)
  {
    var whole := tokens[at..at + |first + second|];
    assert whole[..|first|] == first && whole[|first|..] == second;
    assert tokens[at..at + |first|] == whole[..|first|];
    assert tokens[at + |first|..at + |first| + |second|] == whole[|first|..];
  }

  /** Two parts with one token between them. */
  lemma SpellsJoined(tokens: seq<Token>, at: nat, first: seq<Token>, joint: Token, second: seq<Token>)
    requires Spells(tokens, at, first + [joint] + second)
    ensures Spells(tokens, at, first) && Spells(tokens, at + |first| + 1, second)
    ensures at + |first| < |tokens| && tokens[at + |first|] == joint
  {
    assert first + [joint] + second == first + ([joint] + second);
    SpellsParts(tokens, at, first, [joint] + second);
    SpellsParts(tokens, at + |first|, [joint], second);
    assert tokens[at + |first|] == tokens[at + |first|..at + |first| + 1][0];
  }

  lemma {:induction false} EitherIsComplete(tokens: seq<Token>, at: nat, tree: Either)
    requires EitherWf(tree) && Spells(tokens, at, EitherTokens(tree))
    requires var end := at + |EitherTokens(tree)|; end < |tokens| ==> !tokens[end].And? && !tokens[end].Or?
    ensures ParseEither(tokens, at) == Some((tree, at + |EitherTokens(tree)|))
    decreases tree
  {
    hide Spells, BothTokens, BothWf, ParseBoth;
    match tree
    case OneBoth(only) =>
      BothIsComplete(tokens, at, only);
    case MoreBoth(first, others) =>
      SpellsJoined(tokens, at, BothTokens(first), Or, EitherTokens(others));
      BothIsComplete(tokens, at, first);
      EitherIsComplete(tokens, at + |BothTokens(first)| + 1, others);
  }

  lemma {:induction false} BothIsComplete(tokens: seq<Token>, at: nat, tree: Both)
    requires BothWf(tree) && Spells(tokens, at, BothTokens(tree))
    requires var end := at + |BothTokens(tree)|; end < |tokens| ==> !tokens[end].And?
    ensures ParseBoth(tokens, at) == Some((tree, at + |BothTokens(tree)|))
    decreases tree
  {
    hide Spells, AtomTokens, AtomWf, ParseAtom;
    match tree
    case OneAtom(only) =>
      AtomIsComplete(tokens, at, only);
    case MoreAtoms(first, others) =>
      SpellsJoined(tokens, at, AtomTokens(first), And, BothTokens(others));
      AtomIsComplete(tokens, at, first);
      BothIsComplete(tokens, at + |AtomTokens(first)| + 1, others);
  }

  lemma {:induction false} AtomIsComplete(tokens: seq<Token>, at: nat, tree: Atom)
    requires AtomWf(tree) && Spells(tokens, at, AtomTokens(tree))
    ensures ParseAtom(tokens, at) == Some((tree, at + |AtomTokens(tree)|))
    decreases tree
  {
    match tree
    case Compare(left, op, right) =>
      var part := tokens[at..at + 3];
      assert part == [left, Operator(op), right];
      assert tokens[at] == part[0] && tokens[at + 1] == part[1] && tokens[at + 2] == part[2];
    case Paren(inner) =>
      var b := EitherTokens(inner);
      assert AtomTokens(tree) == [Open] + (b + [Close]);
      SpellsParts(tokens, at, [Open], b + [Close]);
      SpellsParts(tokens, at + 1, b, [Close]);
      assert tokens[at] == tokens[at..at + 1][0];
      assert tokens[at + 1 + |b|] == tokens[at + 1 + |b|..at + 1 + |b| + 1][0];
      EitherIsComplete(tokens, at + 1, inner);
  }

  /** A whole marker: one tree and nothing after it. */
  function ParseMarker(tokens: seq<Token>): Option<Either> {
    var (tree, end) :- ParseEither(tokens, 0);
    if end == |tokens| then Some(tree) else None
  }

  /** The reader finds a tree exactly when the tokens spell it, so the grammar is unambiguous. */
  lemma MarkerIsItsTree(tokens: seq<Token>, tree: Either)
    ensures ParseMarker(tokens) == Some(tree) <==> EitherWf(tree) && EitherTokens(tree) == tokens
  {
    if ParseMarker(tokens) == Some(tree) {
      EitherIsSound(tokens, 0);
      assert tokens[0..|tokens|] == tokens;
    }
    if EitherWf(tree) && EitherTokens(tree) == tokens {
      assert tokens[0..|tokens|] == tokens;
      EitherIsComplete(tokens, 0, tree);
    }
  }

  // ----- the evaluator: one pass, a position, no tree -----

  /** The value and the end of the tree read at a position; `None` when there is none or it is undecidable. */
  function EitherOutcome(host: Host, tokens: seq<Token>, at: nat, extra: string): (r: Option<(bool, nat)>)
    ensures r.Some? ==> at < r.value.1 <= |tokens|
  {
    var (tree, end) :- ParseEither(tokens, at);
    var value :- EitherValue(host, tree, extra);
    Some((value, end))
  }

  function BothOutcome(host: Host, tokens: seq<Token>, at: nat, extra: string): (r: Option<(bool, nat)>)
    ensures r.Some? ==> at < r.value.1 <= |tokens|
  {
    var (tree, end) :- ParseBoth(tokens, at);
    var value :- BothValue(host, tree, extra);
    Some((value, end))
  }

  function AtomOutcome(host: Host, tokens: seq<Token>, at: nat, extra: string): (r: Option<(bool, nat)>)
    ensures r.Some? ==> at < r.value.1 <= |tokens|
  {
    var (tree, end) :- ParseAtom(tokens, at);
    var value :- AtomValue(host, tree, extra);
    Some((value, end))
  }

  /** What remains to be done when the terms so far come to `sum` and end at `at`. */
  function OrOnwards(host: Host, tokens: seq<Token>, at: nat, extra: string, sum: bool): Option<(bool, nat)> {
    if at < |tokens| && tokens[at].Or? then
      var (value, end) :- EitherOutcome(host, tokens, at + 1, extra);
      Some((sum || value, end))
    else Some((sum, at))
  }

  function AndOnwards(host: Host, tokens: seq<Token>, at: nat, extra: string, product: bool): Option<(bool, nat)> {
    if at < |tokens| && tokens[at].And? then
      var (value, end) :- BothOutcome(host, tokens, at + 1, extra);
      Some((product && value, end))
    else Some((product, at))
  }

  lemma EitherStep(host: Host, tokens: seq<Token>, at: nat, extra: string)
    ensures EitherOutcome(host, tokens, at, extra) ==
      var first := BothOutcome(host, tokens, at, extra);
      if first.None? then None else OrOnwards(host, tokens, first.value.1, extra, first.value.0)
  {
  }

  lemma BothStep(host: Host, tokens: seq<Token>, at: nat, extra: string)
    ensures BothOutcome(host, tokens, at, extra) ==
      var first := AtomOutcome(host, tokens, at, extra);
      if first.None? then None else AndOnwards(host, tokens, first.value.1, extra, first.value.0)
  {
  }

  class Evaluator {
    const host: Host
    const tokens: seq<Token>
    const extra: string
    var position: nat

    constructor (host: Host, tokens: seq<Token>, extra: string)
      ensures this.host == host && this.tokens == tokens && this.extra == extra && position == 0
    {
      this.host, this.tokens, this.extra := host, tokens, extra;
      position := 0;
    }

    /** `or` of terms: all of them are read before any is ored. `None` is the source's Undecidable. */
    method Either() returns (r: Option<bool>)
      requires position <= |tokens|
      modifies this
      ensures position <= |tokens|
      ensures var outcome := EitherOutcome(host, tokens, old(position), extra);
        if outcome.None? then r == None else r == Some(outcome.value.0) && position == outcome.value.1
      decreases |tokens| - position, 2
    {
      hide EitherOutcome, BothOutcome;
      ghost var start := position;
      EitherStep(host, tokens, start, extra);
      r := Both();
      while r.Some? && position < |tokens| && tokens[position].Or?
        invariant position <= |tokens|
        invariant r.Some? ==> start < position
        invariant if r.None? then EitherOutcome(host, tokens, start, extra) == None
          else EitherOutcome(host, tokens, start, extra) == OrOnwards(host, tokens, position, extra, r.value)
        decreases r.Some?, |tokens| - position
      {
        EitherStep(host, tokens, position + 1, extra);
        position := position + 1;
        var next := Both();
        r := if next.None? then None else Some(r.value || next.value);
      }
    }

    method Both() returns (r: Option<bool>)
      requires position <= |tokens|
      modifies this
      ensures position <= |tokens|
      ensures var outcome := BothOutcome(host, tokens, old(position), extra);
        if outcome.None? then r == None else r == Some(outcome.value.0) && position == outcome.value.1
      decreases |tokens| - position, 1
    {
      hide BothOutcome, AtomOutcome;
      ghost var start := position;
      BothStep(host, tokens, start, extra);
      r := Atom();
      while r.Some? && position < |tokens| && tokens[position].And?
        invariant position <= |tokens|
        invariant r.Some? ==> start < position
        invariant if r.None? then BothOutcome(host, tokens, start, extra) == None
          else BothOutcome(host, tokens, start, extra) == AndOnwards(host, tokens, position, extra, r.value)
        decreases r.Some?, |tokens| - position
      {
        BothStep(host, tokens, position + 1, extra);
        position := position + 1;
        var next := Atom();
        r := if next.None? then None else Some(r.value && next.value);
      }
    }

    method Atom() returns (r: Option<bool>)
      requires position <= |tokens|
      modifies this
      ensures position <= |tokens|
      ensures var outcome := AtomOutcome(host, tokens, old(position), extra);
        if outcome.None? then r == None else r == Some(outcome.value.0) && position == outcome.value.1
      decreases |tokens| - position, 0
    {
      if position < |tokens| && tokens[position].Open? {
        position := position + 1;
        r := Either();
        if r.Some? && position < |tokens| && tokens[position].Close? {
          position := position + 1;
        } else {
          r := None;
        }
      } else if position + 3 <= |tokens| && tokens[position + 1].Operator? {
        r := Comparison(host, tokens[position], tokens[position + 1].op, tokens[position + 2], extra);
        position := position + 3;
      } else {
        r := None;
      }
    }
  }

  /**
   The evaluator answers `b` exactly when the whole token list is a marker of the grammar, every
   comparison in it can be decided, and `b` is its value; on every other token list it is undecidable.
   */
  method Evaluate(host: Host, tokens: seq<Token>, extra: string) returns (r: Option<bool>)
    ensures r == MarkerValue(host, tokens, extra)
    ensures forall b :: r == Some(b) <==> HasValue(host, tokens, extra, b)
  {
    var evaluator := new Evaluator(host, tokens, extra);
    r := evaluator.Either();
    if evaluator.position != |tokens| {
      r := None;
    }
    forall b
      ensures r == Some(b) <==> HasValue(host, tokens, extra, b)
    {
      ValueOfTheTree(host, tokens, extra, b);
    }
  }

  /** The tokens are those of some marker tree, decidable throughout, whose value is `b`. */
  ghost predicate HasValue(host: Host, tokens: seq<Token>, extra: string, b: bool) {
    exists tree :: EitherWf(tree) && EitherTokens(tree) == tokens && EitherValue(host, tree, extra) == Some(b)
  }

  function MarkerValue(host: Host, tokens: seq<Token>, extra: string): Option<bool> {
    var tree :- ParseMarker(tokens);
    EitherValue(host, tree, extra)
  }

  lemma ValueOfTheTree(host: Host, tokens: seq<Token>, extra: string, b: bool)
    ensures MarkerValue(host, tokens, extra) == Some(b) <==> HasValue(host, tokens, extra, b)
  {
    forall tree {
      MarkerIsItsTree(tokens, tree);
    }
    if MarkerValue(host, tokens, extra) == Some(b) {
      var tree := ParseMarker(tokens).value;
      assert EitherWf(tree) && EitherTokens(tree) == tokens && EitherValue(host, tree, extra) == Some(b);
    }
  }

  // ----- a marker for a distribution asked for with extras -----

  lemma ComparisonDecidable(host: Host, left: Token, op: string, right: Token, extra: string, other: string)
    ensures Comparison(host, left, op, right, extra).None? <==> Comparison(host, left, op, right, other).None?
  {
  }

  /** Whether a marker can be decided does not depend on the extra it is asked with, only its value does. */
  lemma {:induction false} EitherDecidable(host: Host, tree: Either, extra: string, other: string)
    ensures EitherValue(host, tree, extra).None? <==> EitherValue(host, tree, other).None?
    decreases tree
  {
    match tree
    case OneBoth(only) => BothDecidable(host, only, extra, other);
    case MoreBoth(first, others) =>
      BothDecidable(host, first, extra, other);
      EitherDecidable(host, others, extra, other);
  }

  lemma {:induction false} BothDecidable(host: Host, tree: Both, extra: string, other: string)
    ensures BothValue(host, tree, extra).None? <==> BothValue(host, tree, other).None?
    decreases tree
  {
    match tree
    case OneAtom(only) => AtomDecidable(host, only, extra, other);
    case MoreAtoms(first, others) =>
      AtomDecidable(host, first, extra, other);
      BothDecidable(host, others, extra, other);
  }

  lemma {:induction false} AtomDecidable(host: Host, tree: Atom, extra: string, other: string)
    ensures AtomValue(host, tree, extra).None? <==> AtomValue(host, tree, other).None?
    decreases tree
  {
    match tree
    case Compare(left, op, right) =>
      hide Comparison;
      ComparisonDecidable(host, left, op, right, extra, other);
    case Paren(inner) => EitherDecidable(host, inner, extra, other);
  }

  /** The text of a marker as the lexer leaves it: unreadable, or its tokens. */
  datatype Marker = Unlexed | Lexed(tokens: seq<Token>)

  /** Does the marker hold for some extra asked for, or with none? `None` when it cannot be decided. */
  ghost function Applies(host: Host, marker: Marker, extras: set<string>): Option<bool> {
    match marker
    case Unlexed => None
    case Lexed(tokens) =>
      if tokens == [] then Some(true)
      else if MarkerValue(host, tokens, "").None? then None
      else Some(HoldsForSome(host, tokens, extras + {""}))
  }

  ghost predicate HoldsForSome(host: Host, tokens: seq<Token>, extras: set<string>) {
    exists extra :: extra in extras && MarkerValue(host, tokens, extra) == Some(true)
  }

  lemma MarkerDecidable(host: Host, tokens: seq<Token>, extra: string, other: string)
    ensures MarkerValue(host, tokens, extra).None? <==> MarkerValue(host, tokens, other).None?
  {
    if ParseMarker(tokens).Some? {
      EitherDecidable(host, ParseMarker(tokens).value, extra, other);
    }
  }

  /**
   The evaluation stops at the first extra that holds and raises at the first that cannot be decided;
   in whatever order the extras come, the answer is the same.
   */
  method MarkerApplies(host: Host, marker: Marker, extras: set<string>) returns (r: Option<bool>)
    ensures r == Applies(host, marker, extras)
  {
    if marker.Unlexed? {
      return None;
    }
    if marker.tokens == [] {
      return Some(true);
    }
    hide MarkerValue;
    var tokens := marker.tokens;
    r := Evaluate(host, tokens, "");
    var left := extras;
    while r == Some(false) && left != {}
      invariant left <= extras
      invariant r.None? <==> MarkerValue(host, tokens, "").None?
      invariant r == Some(true) ==> HoldsForSome(host, tokens, extras + {""})
      invariant r == Some(false) ==>
        forall extra :: extra in (extras - left) + {""} ==> MarkerValue(host, tokens, extra) == Some(false)
      decreases |left|
    {
      var extra :| extra in left;
      left := left - {extra};
      MarkerDecidable(host, tokens, "", extra);
      r := Evaluate(host, tokens, extra);
    }
    if r == Some(false) {
      assert extras - left == extras;
      assert !HoldsForSome(host, tokens, extras + {""});
    }
    assert r.Some? ==> r.value == HoldsForSome(host, tokens, extras + {""});
  }

  /** Asking with more extras never makes a marker stop applying, nor more or less decidable. */
  lemma MoreExtrasApplyMore(host: Host, marker: Marker, extras: set<string>, more: set<string>)
    requires extras <= more
    ensures Applies(host, marker, extras).None? <==> Applies(host, marker, more).None?
    ensures Applies(host, marker, extras) == Some(true) ==> Applies(host, marker, more) == Some(true)
  {
    if Applies(host, marker, extras) == Some(true) && marker.tokens != [] {
      assert HoldsForSome(host, marker.tokens, extras + {""});
      var extra :| extra in extras + {""} && MarkerValue(host, marker.tokens, extra) == Some(true);
      assert extra in more + {""};
    }
  }
}
