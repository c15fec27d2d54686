/** Workflow definitions: already-parsed values, and the reader of the `inputs` block that accepts or rejects one. */
module Workflows {
  import opened Prelude
  import opened Translation

  datatype Json =
    | Null
    | Bool(b: bool)
    | Int(n: int)
    | Float(x: real)
    | Str(s: string)
    | List(items: seq<Json>)
    | Obj(entries: map<string, Json>)

  datatype FieldType = Line | Multiline | Integer | Floating | Boolean | Select | Image | Video

  datatype InputField = InputField(
    id: string,
    kind: FieldType,
    required: bool,
    minimum: Option<real>,
    maximum: Option<real>,
    options: seq<Json>,
    translatable: bool)
  {
    predicate IsMedia() {
      kind.Image? || kind.Video?
    }
  }

  /** One place in the graph a field's value is written to. */
  datatype Binding = Binding(node: string, input: string)

  type Graph = map<string, Json>

  datatype Workflow = Workflow(inputs: seq<InputField>, bindings: map<string, seq<Binding>>, graph: Graph)

  // ----- one target -----

  predicate Blank(text: string) {
    forall i :: 0 <= i < |text| ==> IsSpace(text[i])
  }

  function Digit(n: nat): char
    requires n < 10
  {
    "0123456789"[n]
  }

  function NatText(n: nat): string {
    if n < 10 then [Digit(n)] else NatText(n / 10) + [Digit(n % 10)]
  }

  function IntText(n: int): string {
    if n < 0 then "-" + NatText(-n) else NatText(n)
  }

  /** A node id may be written as a string or as an integer that names one. */
  function NodeName(value: Json): Option<string> {
    match value
    case Int(n) => Some(IntText(n))
    case Str(s) => if Blank(s) then None else Some(s)
    case _ => None
  }

  /** The number a text of decimal digits spells. */
  function ReadDigits(text: string): Option<nat> {
    if text == "" then Some(0)
    else
      var front :- ReadDigits(text[..|text| - 1]);
      var c := text[|text| - 1];
      if '0' <= c <= '9' then Some(front * 10 + (c as int - '0' as int)) else None
  }

  /** A number names a node by its decimal digits, with no zero in front of them. */
  lemma {:induction false} NatTextIsDecimal(n: nat)
    ensures NatText(n) != "" && ReadDigits(NatText(n)) == Some(n) && (n > 0 ==> NatText(n)[0] != '0')
  {
    if n < 10 {
      assert NatText(n)[..0] == "" && ReadDigits("") == Some(0);
      assert forall k: nat :: k < 10 ==> Digit(k) as int == k + '0' as int;
    } else {
      NatTextIsDecimal(n / 10);
      assert NatText(n)[..|NatText(n)| - 1] == NatText(n / 10);
      assert forall k: nat :: k < 10 ==> Digit(k) as int == k + '0' as int;
    }
  }

  /** Which node an entry means: a number written out with its sign, or a text that is not blank, as it is. */
  lemma NodesAreNamed(value: Json)
    ensures value.Int? ==> exists digits ::
      NodeName(value) == Some(if value.n < 0 then "-" + digits else digits) &&
      ReadDigits(digits) == Some(if value.n < 0 then -value.n else value.n) && digits != "" && (value.n != 0 ==> digits[0] != '0')
    ensures value.Str? ==> NodeName(value) == if forall i :: 0 <= i < |value.s| ==> IsSpace(value.s[i]) then None else Some(value.s)
    ensures !value.Int? && !value.Str? ==> NodeName(value) == None
  {
    if value.Int? {
      var digits := NatText(if value.n < 0 then -value.n else value.n);
      NatTextIsDecimal(if value.n < 0 then -value.n else value.n);
      assert NodeName(value) == Some(if value.n < 0 then "-" + digits else digits);
    }
  }

  /** The target exists in the graph and holds a literal, not a wire to another node. */
  predicate Bindable(graph: Graph, binding: Binding) {
    binding.node in graph && HasInputs(graph[binding.node])
    && binding.input in InputsOf(graph[binding.node])
    && !InputsOf(graph[binding.node])[binding.input].List? && !InputsOf(graph[binding.node])[binding.input].Obj?
  }

  predicate HasInputs(node: Json) {
    node.Obj? && "inputs" in node.entries && node.entries["inputs"].Obj?
  }

  function InputsOf(node: Json): map<string, Json>
    requires HasInputs(node)
  {
    node.entries["inputs"].entries
  }

  /** What one `{node, input}` entry names when nothing at all is wrong with it. */
  function Target(entry: Json, graph: Graph): Option<Binding> {
    if !entry.Obj? || !(entry.entries.Keys <= {"node", "input"}) || "node" !in entry.entries || "input" !in entry.entries then None
    else
      var node :- NodeName(entry.entries["node"]);
      var input := entry.entries["input"];
      if !input.Str? || Blank(input.s) || !Bindable(graph, Binding(node, input.s)) then None
      else Some(Binding(node, input.s))
  }

  /** An entry names a target exactly when it has these two keys and no other, and each says one half of it. */
  lemma TargetsAreNodeAndInput(entry: Json, graph: Graph, binding: Binding)
    ensures Target(entry, graph) == Some(binding) <==>
      && entry.Obj? && entry.entries.Keys == {"node", "input"}
      && NodeName(entry.entries["node"]) == Some(binding.node)
      && entry.entries["input"] == Str(binding.input) && !Blank(binding.input)
      && Bindable(graph, binding)
  {
    hide Bindable, NodeName, Blank;
  }

  // ----- one field's targets -----

  /** What a `bind` block lists: a mapping by itself counts as a list of one. */
  function Entries(bind: Option<Json>): seq<Json> {
    if bind.None? then [] else if bind.value.Obj? then [bind.value] else if bind.value.List? then bind.value.items else []
  }

  ghost predicate Distinct(bindings: seq<Binding>) {
    forall i, j :: 0 <= i < j < |bindings| ==> bindings[i] != bindings[j]
  }

  /** The entries name these targets, at least one, and none twice. */
  ghost predicate Names(entries: seq<Json>, graph: Graph, bindings: seq<Binding>) {
    && |bindings| == |entries| > 0 && Distinct(bindings)
    && forall i :: 0 <= i < |entries| ==> Target(entries[i], graph) == Some(bindings[i])
  }

  /** A field as read: `flawed` when something else about it was reported, `Unreadable` when nothing is left of it. */
  datatype RawField = Unreadable | Field(field: InputField, bind: Option<Json>, flawed: bool)

  ghost predicate Bound(raw: RawField, graph: Graph, bindings: seq<Binding>) {
    raw.Field? && !raw.flawed && Names(Entries(raw.bind), graph, bindings)
  }

  /**
   Every field is sound and bound, no id is used twice, and no (node, input) target is shared, within
   a field or between fields.
   */
  ghost predicate Acceptable(raws: seq<RawField>, graph: Graph, targets: seq<seq<Binding>>) {
    && |targets| == |raws|
    && (forall i :: 0 <= i < |raws| ==> raws[i].Field?)
    && (forall i :: 0 <= i < |raws| ==> Bound(raws[i], graph, targets[i]))
    && (forall i, j :: 0 <= i < j < |raws| ==> raws[i].field.id != raws[j].field.id)
    && (forall i, j, t :: 0 <= i < j < |raws| && t in targets[i] ==> t !in targets[j])
  }

  ghost predicate IsAcceptable(raws: seq<RawField>, graph: Graph) {
    exists targets :: Acceptable(raws, graph, targets)
  }

  /** The reader: it reports every problem it meets and goes on. */
  class Parser {
    /** How many problems have been reported. */
    var diagnostics: nat

    constructor ()
      ensures diagnostics == 0
    {
      diagnostics := 0;
    }

    method Fail()
      modifies this
      ensures diagnostics == old(diagnostics) + 1
    {
      diagnostics := diagnostics + 1;
    }

    method ParseTarget(entry: Json, graph: Graph) returns (binding: Option<Binding>)
      modifies this
      ensures old(diagnostics) <= diagnostics
      ensures diagnostics == old(diagnostics) <==> Target(entry, graph).Some?
      ensures diagnostics == old(diagnostics) ==> binding == Target(entry, graph)
    {
      if !entry.Obj? {
        Fail();
        return None;
      }
      if !(entry.entries.Keys <= {"node", "input"}) {
        Fail();
      }
      if "node" !in entry.entries {
        Fail();
        return None;
      }
      var node := NodeName(entry.entries["node"]);
      if node.None? {
        Fail();
        return None;
      }
      if "input" !in entry.entries {
        Fail();
        return None;
      }
      var input := entry.entries["input"];
      if !input.Str? || Blank(input.s) {
        Fail();
        return None;
      }
      binding := Some(Binding(node.value, input.s));
      if !Bindable(graph, binding.value) {
        Fail();
        return None;
      }
    }

    /** The targets as listed, or nothing when anything was reported about them. */
    method ParseBind(bind: Option<Json>, graph: Graph) returns (r: Option<seq<Binding>>)
      modifies this
      ensures old(diagnostics) <= diagnostics
      ensures diagnostics == old(diagnostics) <==> exists bindings :: Names(Entries(bind), graph, bindings)
      ensures diagnostics == old(diagnostics) ==> r.Some? && Names(Entries(bind), graph, r.value)
    {
      hide Target;
      if bind.None? {
        Fail();
        return None;
      }
      var entries: seq<Json>;
      if bind.value.Obj? {
        entries := [bind.value];
      } else if bind.value.List? {
        entries := bind.value.items;
        if entries == [] {
          Fail();
          return None;
        }
      } else {
        Fail();
        return None;
      }

      var bindings: seq<Binding> := [];
      var rejected := false;
      for i := 0 to |entries|
        invariant old(diagnostics) <= diagnostics && (rejected ==> diagnostics > old(diagnostics))
        invariant !rejected ==> |bindings| == i
        invariant diagnostics == old(diagnostics) ==>
          |bindings| == i && forall k :: 0 <= k < i ==> Target(entries[k], graph) == Some(bindings[k])
        invariant diagnostics > old(diagnostics) ==> exists k :: 0 <= k < i && Target(entries[k], graph).None?
      {
        var binding := ParseTarget(entries[i], graph);
        if binding.Some? {
          bindings := bindings + [binding.value];
        } else {
          rejected := true;
        }
      }
      if rejected {
        return None;
      }

      ghost var reported := diagnostics;
      assert entries == Entries(bind);
      if reported > old(diagnostics) {
        forall other
          ensures !Names(entries, graph, other)
        {
          var k :| 0 <= k < |entries| && Target(entries[k], graph).None?;
        }
      }
      var seen: set<Binding> := {};
      for i := 0 to |bindings|
        invariant diagnostics == reported
        invariant forall t :: t in seen <==> t in bindings[..i]
        invariant Distinct(bindings[..i])
      {
        if bindings[i] in seen {
          var k :| 0 <= k < i && bindings[..i][k] == bindings[i];
          if reported == old(diagnostics) {
            TwiceIsNoName(entries, graph, k, i);
          }
          Fail();
          return None;
        }
        seen := seen + {bindings[i]};
        assert bindings[..i + 1] == bindings[..i] + [bindings[i]];
      }
      assert bindings[..|bindings|] == bindings;
      assert reported == old(diagnostics) ==> Names(entries, graph, bindings);
      return Some(bindings);
    }

    /**
     Reads the whole `inputs` block. Nothing is reported exactly when the block is acceptable, and then
     every field is there, in order, with its own targets.
     */
    method ParseInputs(raws: seq<RawField>, graph: Graph) returns (fields: seq<InputField>, bindings: map<string, seq<Binding>>)
      modifies this
      ensures old(diagnostics) <= diagnostics
      ensures diagnostics == old(diagnostics) <==> IsAcceptable(raws, graph)
      ensures diagnostics == old(diagnostics) ==> WellBound(Workflow(fields, bindings, graph))
      ensures diagnostics == old(diagnostics) ==>
        |fields| == |raws| && forall i :: 0 <= i < |raws| ==> raws[i].Field? && fields[i] == raws[i].field
    {
      hide Acceptable, WellBound, Bound;
      fields, bindings := [], map[];
      var seen: set<Binding> := {};
      ghost var targets: seq<seq<Binding>> := [];
      NothingRead(raws, graph);
      for n := 0 to |raws|
        invariant old(diagnostics) <= diagnostics
        invariant diagnostics == old(diagnostics) ==> Read(raws[..n], graph, targets, fields, bindings, seen)
        invariant diagnostics > old(diagnostics) ==> !IsAcceptable(raws[..n], graph)
      {
        ghost var before := diagnostics;
        if diagnostics > old(diagnostics) {
          StaysUnacceptable(raws, graph, n);
        } else {
          ReadOneMore(raws, graph, n, targets, fields, bindings, seen);
        }
        fields, bindings, seen := ParseOne(raws[n], graph, fields, bindings, seen);
        if diagnostics == old(diagnostics) {
          targets := targets + [bindings[raws[n].field.id]];
        }
      }
      assert raws[..|raws|] == raws;
      if diagnostics == old(diagnostics) {
        ReadIsWellBound(raws, graph, targets, fields, bindings, seen);
      }
    }

    /** One field of the block: a repeated id or a target already driven is reported and the field dropped. */
    method ParseOne(raw: RawField, graph: Graph, fields: seq<InputField>, bindings: map<string, seq<Binding>>, seen: set<Binding>)
      returns (fields': seq<InputField>, bindings': map<string, seq<Binding>>, seen': set<Binding>)
      modifies this
      ensures old(diagnostics) <= diagnostics
      ensures diagnostics == old(diagnostics) <==> exists targets :: Fits(raw, graph, bindings, seen, targets)
      ensures diagnostics == old(diagnostics) ==>
        raw.Field? && fields' == fields + [raw.field] && raw.field.id in bindings'
        && Fits(raw, graph, bindings, seen, bindings'[raw.field.id])
        && bindings' == bindings[raw.field.id := bindings'[raw.field.id]]
        && seen' == seen + (set t | t in bindings'[raw.field.id])
    {
      fields', bindings', seen' := fields, bindings, seen;
      if raw.Unreadable? {
        Fail();
        return;
      }
      if raw.flawed {
        Fail();
      }
      var parsed := ParseBind(raw.bind, graph);
      if raw.field.id in bindings {
        Fail();
        return;
      }
      if parsed.Some? {
        var taken := false;
        for i := 0 to |parsed.value|
          invariant old(diagnostics) <= diagnostics
          invariant taken ==> old(diagnostics) < diagnostics
          invariant diagnostics == old(diagnostics) ==> Bound(raw, graph, parsed.value) && forall k :: 0 <= k < i ==> parsed.value[k] !in seen
          invariant diagnostics > old(diagnostics) ==> forall targets :: !Fits(raw, graph, bindings, seen, targets)
        {
          if parsed.value[i] in seen {
            if diagnostics == old(diagnostics) {
              forall targets
                ensures !Fits(raw, graph, bindings, seen, targets)
              {
                if Bound(raw, graph, targets) {
                  SameNames(Entries(raw.bind), graph, parsed.value, targets);
                }
              }
            }
            Fail();
            taken := true;
          }
        }
        if taken {
          return;
        }
        seen' := seen + (set t | t in parsed.value);
        bindings' := bindings[raw.field.id := parsed.value];
        assert diagnostics == old(diagnostics) ==> Fits(raw, graph, bindings, seen, parsed.value);
      }
      fields' := fields + [raw.field];
    }
  }

  /** This field may join what was read before it. */
  ghost predicate Fits(raw: RawField, graph: Graph, bindings: map<string, seq<Binding>>, seen: set<Binding>, targets: seq<Binding>) {
    && raw.Field? && Bound(raw, graph, targets)
    && raw.field.id !in bindings
    && forall i :: 0 <= i < |targets| ==> targets[i] !in seen
  }

  lemma SameNames(entries: seq<Json>, graph: Graph, a: seq<Binding>, b: seq<Binding>)
    requires Names(entries, graph, a) && Names(entries, graph, b)
    ensures a == b
  {
  }

  lemma TwiceIsNoName(entries: seq<Json>, graph: Graph, k: nat, i: nat)
    requires k < i < |entries| && Target(entries[k], graph) == Target(entries[i], graph)
    ensures forall other :: !Names(entries, graph, other)
  {
    hide Target;
  }

  /** What the loop holds after a part of the block in which nothing was wrong. */
  ghost predicate Read(raws: seq<RawField>, graph: Graph, targets: seq<seq<Binding>>, fields: seq<InputField>,
                       bindings: map<string, seq<Binding>>, seen: set<Binding>) {
    && Acceptable(raws, graph, targets)
    && |fields| == |raws| && (forall i :: 0 <= i < |raws| ==> fields[i] == raws[i].field)
    && (forall i :: 0 <= i < |raws| ==> fields[i].id in bindings && bindings[fields[i].id] == targets[i])
    && (forall id :: id in bindings ==> exists i :: 0 <= i < |fields| && fields[i].id == id)
    && (forall t :: t in seen <==> exists i :: 0 <= i < |targets| && t in targets[i])
  }

  lemma NothingRead(raws: seq<RawField>, graph: Graph)
    ensures Read(raws[..0], graph, [], [], map[], {})
  {
  }

  lemma StaysUnacceptable(raws: seq<RawField>, graph: Graph, n: nat)
    requires n < |raws| && !IsAcceptable(raws[..n], graph)
    ensures !IsAcceptable(raws[..n + 1], graph)
  {
    assert raws[..n + 1][..n] == raws[..n];
    if IsAcceptable(raws[..n + 1], graph) {
      var targets :| Acceptable(raws[..n + 1], graph, targets);
      PrefixAcceptable(raws[..n + 1], graph, targets, n);
    }
  }

  lemma PrefixAcceptable(raws: seq<RawField>, graph: Graph, targets: seq<seq<Binding>>, n: nat)
    requires Acceptable(raws, graph, targets) && n <= |raws|
    ensures Acceptable(raws[..n], graph, targets[..n])
  {
    hide Bound;
  }

  lemma {:induction false} TargetsAreUnique(raws: seq<RawField>, graph: Graph, a: seq<seq<Binding>>, b: seq<seq<Binding>>)
    requires Acceptable(raws, graph, a) && Acceptable(raws, graph, b)
    ensures a == b
  {
    forall i | 0 <= i < |raws|
      ensures a[i] == b[i]
    {
      assert Bound(raws[i], graph, a[i]) && Bound(raws[i], graph, b[i]);
      SameNames(Entries(raws[i].bind), graph, a[i], b[i]);
    }
  }

  /** The next field keeps the block acceptable exactly when it fits, and then the loop's state goes on. */
  lemma ReadOneMore(raws: seq<RawField>, graph: Graph, n: nat, targets: seq<seq<Binding>>, fields: seq<InputField>,
                    bindings: map<string, seq<Binding>>, seen: set<Binding>)
    requires n < |raws| && Read(raws[..n], graph, targets, fields, bindings, seen)
    ensures (exists t :: Fits(raws[n], graph, bindings, seen, t)) <==> IsAcceptable(raws[..n + 1], graph)
    ensures forall t :: Fits(raws[n], graph, bindings, seen, t) ==>
      Read(raws[..n + 1], graph, targets + [t], fields + [raws[n].field], bindings[raws[n].field.id := t], seen + (set b | b in t))
  {
    forall t | Fits(raws[n], graph, bindings, seen, t)
      ensures Read(raws[..n + 1], graph, targets + [t], fields + [raws[n].field], bindings[raws[n].field.id := t], seen + (set b | b in t))
    {
      FittingFieldIsRead(raws, graph, n, targets, fields, bindings, seen, t);
    }
    forall all | Acceptable(raws[..n + 1], graph, all)
      ensures Fits(raws[n], graph, bindings, seen, all[n])
    {
      AcceptableFieldFits(raws, graph, n, targets, fields, bindings, seen, all);
    }
  }

  lemma FittingFieldIsRead(raws: seq<RawField>, graph: Graph, n: nat, targets: seq<seq<Binding>>, fields: seq<InputField>,
                           bindings: map<string, seq<Binding>>, seen: set<Binding>, t: seq<Binding>)
    requires n < |raws| && Read(raws[..n], graph, targets, fields, bindings, seen)
    requires Fits(raws[n], graph, bindings, seen, t)
    ensures Read(raws[..n + 1], graph, targets + [t], fields + [raws[n].field], bindings[raws[n].field.id := t], seen + (set b | b in t))
  {
    hide Bound;
    var more, id := targets + [t], raws[n].field.id;
    forall i | 0 <= i < n
      ensures raws[i].field.id != id && (forall b :: b in targets[i] ==> b in seen)
    {
      assert raws[..n][i] == raws[i] && fields[i] == raws[i].field && fields[i].id in bindings;
    }
    forall i, j, b | 0 <= i < j < n + 1 && b in more[i]
      ensures b !in more[j]
    {
      if j < n {
        assert b in targets[i] && targets[j] == more[j];
      } else {
        assert b in seen;
      }
    }
    assert forall i :: 0 <= i < n ==> raws[..n + 1][i] == raws[..n][i];
    assert Acceptable(raws[..n + 1], graph, more);
  }

  lemma AcceptableFieldFits(raws: seq<RawField>, graph: Graph, n: nat, targets: seq<seq<Binding>>, fields: seq<InputField>,
                            bindings: map<string, seq<Binding>>, seen: set<Binding>, all: seq<seq<Binding>>)
    requires n < |raws| && Read(raws[..n], graph, targets, fields, bindings, seen)
    requires Acceptable(raws[..n + 1], graph, all)
    ensures Fits(raws[n], graph, bindings, seen, all[n])
  {
    hide Bound;
    PrefixAcceptable(raws[..n + 1], graph, all, n);
    assert raws[..n + 1][..n] == raws[..n];
    TargetsAreUnique(raws[..n], graph, targets, all[..n]);
    var id := raws[n].field.id;
    forall i | 0 <= i < |fields|
      ensures fields[i].id != id
    {
      assert fields[i].id == raws[..n][i].field.id == raws[..n + 1][i].field.id;
      assert raws[..n + 1][n] == raws[n];
    }
    forall i, t | 0 <= i < |targets| && t in targets[i]
      ensures t !in all[n]
    {
      assert targets[i] == all[i];
    }
    assert forall t :: t in seen ==> t !in all[n];
  }

  lemma ReadIsWellBound(raws: seq<RawField>, graph: Graph, targets: seq<seq<Binding>>, fields: seq<InputField>,
                        bindings: map<string, seq<Binding>>, seen: set<Binding>)
    requires Read(raws, graph, targets, fields, bindings, seen)
    ensures WellBound(Workflow(fields, bindings, graph))
    ensures |fields| == |raws| && forall i :: 0 <= i < |raws| ==> raws[i].Field? && fields[i] == raws[i].field
  {
    forall i | 0 <= i < |raws|
      ensures raws[i].Field? && targets[i] != [] && Distinct(targets[i]) && forall t :: t in targets[i] ==> Bindable(graph, t)
    {
      BoundTargetsAreBindable(raws[i], graph, targets[i]);
    }
    hide Bound, Bindable, Distinct;
  }

  lemma BoundTargetsAreBindable(raw: RawField, graph: Graph, targets: seq<Binding>)
    requires Bound(raw, graph, targets)
    ensures raw.Field? && targets != [] && Distinct(targets) && forall t :: t in targets ==> Bindable(graph, t)
  {
  }

  /** What an accepted definition guarantees to whoever binds values with it. */
  ghost predicate WellBound(workflow: Workflow) {
    var fields, bindings := workflow.inputs, workflow.bindings;
    && (forall i, j :: 0 <= i < j < |fields| ==> fields[i].id != fields[j].id)
    && (forall i :: 0 <= i < |fields| ==>
          fields[i].id in bindings && bindings[fields[i].id] != [] && Distinct(bindings[fields[i].id]))
    && (forall id, t :: id in bindings && t in bindings[id] ==> Bindable(workflow.graph, t))
    && (forall id, other, t :: id in bindings && other in bindings && id != other && t in bindings[id] ==> t !in bindings[other])
    && (forall id :: id in bindings ==> exists i :: 0 <= i < |fields| && fields[i].id == id)
  }

  /** This place is an input of a node of the graph, and holds this. */
  ghost predicate Holds(graph: Graph, node: string, input: string, held: Json) {
    && node in graph && graph[node].Obj?
    && "inputs" in graph[node].entries && graph[node].entries["inputs"].Obj?
    && input in graph[node].entries["inputs"].entries && graph[node].entries["inputs"].entries[input] == held
  }

  predicate IsPlain(value: Json) {
    value.Null? || value.Bool? || value.Int? || value.Float? || value.Str?
  }

  /** What an accepted definition drives is an input of its graph that holds a plain value: never a wire to another node. */
  lemma DrivenInputsHoldPlainValues(workflow: Workflow, id: string, target: Binding)
    requires WellBound(workflow) && id in workflow.bindings && target in workflow.bindings[id]
    ensures exists held :: Holds(workflow.graph, target.node, target.input, held) && IsPlain(held)
  {
    assert Bindable(workflow.graph, target);
    assert Holds(workflow.graph, target.node, target.input, InputsOf(workflow.graph[target.node])[target.input]);
  }
}
