/** A submission on its way to ComfyUI: validated against the schema, translated, and bound into a copy of the graph. */
module Submission {
  import opened Prelude
  import opened Workflows
  import T = Translation

  type Values = map<string, Json>

  // ----- validation -----

  function AsNumber(value: Json): Option<real> {
    match value
    case Int(n) => Some(n as real)
    case Float(x) => Some(x)
    case _ => None
  }

  predicate InRange(field: InputField, x: real) {
    (field.minimum.Some? ==> field.minimum.value <= x) && (field.maximum.Some? ==> x <= field.maximum.value)
  }

  /** A media reference is an object with the one key `media_id`, a text that is not blank. */
  predicate IsReference(value: Json) {
    value.Obj? && value.entries.Keys == {"media_id"} && value.entries["media_id"].Str? && !Blank(value.entries["media_id"].s)
  }

  /** What a value has to be for its field; `true` is never a number. */
  predicate Fits(field: InputField, value: Json) {
    match field.kind
    case Line => value.Str? && (field.required ==> !Blank(value.s))
    case Multiline => value.Str? && (field.required ==> !Blank(value.s))
    case Integer => (value.Int? || (value.Float? && value.x.Floor as real == value.x)) && InRange(field, AsNumber(value).value)
    case Floating => AsNumber(value).Some? && InRange(field, AsNumber(value).value)
    case Boolean => value.Bool?
    case Select => value in field.options && !value.Null?
    case Image => IsReference(value)
    case Video => IsReference(value)
  }

  /** The value as it goes on: whole numbers become integers, other numbers floats, everything else stays. */
  function Normal(field: InputField, value: Json): Json {
    if field.kind.Integer? && value.Float? then Int(value.x.Floor)
    else if field.kind.Floating? && value.Int? then Float(value.n as real)
    else value
  }

  /** What a field makes of a value it takes: the same number as an integer or as a float, and anything else untouched. */
  predicate Keeps(field: InputField, submitted: Json, kept: Json) {
    match field.kind
    case Integer => kept.Int? && (submitted == kept || submitted == Float(kept.n as real))
    case Floating => kept.Float? && (submitted == kept || (submitted.Int? && submitted.n as real == kept.x))
    case _ => kept == submitted
  }

  lemma NormalKeeps(field: InputField, value: Json)
    requires Fits(field, value)
    ensures Keeps(field, value, Normal(field, value))
  {
  }

  predicate IsWhole(value: Json, n: int) {
    value == Int(n) || value == Float(n as real)
  }

  predicate IsNumber(value: Json, x: real) {
    value == Float(x) || (value.Int? && value.n as real == x)
  }

  /** A numeric field takes exactly the numbers in its range, written either way: whole ones only, for an integer. */
  lemma NumbersThatFit(field: InputField, value: Json)
    ensures field.kind.Integer? ==> (Fits(field, value) <==> exists n :: IsWhole(value, n) && InRange(field, n as real))
    ensures field.kind.Floating? ==> (Fits(field, value) <==> exists x :: IsNumber(value, x) && InRange(field, x))
  {
    if value.Float? {
      assert IsNumber(value, value.x);
      if value.x.Floor as real == value.x {
        assert IsWhole(value, value.x.Floor);
      }
    } else if value.Int? {
      assert IsWhole(value, value.n) && IsNumber(value, value.n as real);
    }
  }

  method CheckNumber(field: InputField, value: Json, whole: bool) returns (r: Option<Json>)
    requires if whole then field.kind.Integer? else field.kind.Floating?
    ensures r == if Fits(field, value) then Some(Normal(field, value)) else None
  {
    if !value.Int? && !value.Float? {
      return None;
    }
    if whole && value.Float? && value.x.Floor as real != value.x {
      return None;
    }
    var number := if value.Int? then value.n as real else value.x;
    if field.minimum.Some? && number < field.minimum.value {
      return None;
    }
    if field.maximum.Some? && number > field.maximum.value {
      return None;
    }
    if whole {
      return Some(if value.Float? then Int(value.x.Floor) else value);
    }
    return Some(if value.Int? then Float(number) else value);
  }

  method CheckValue(field: InputField, value: Json) returns (r: Option<Json>)
    ensures r == if Fits(field, value) then Some(Normal(field, value)) else None
    ensures r.Some? <==> Fits(field, value)
    ensures r.Some? ==> Keeps(field, value, r.value)
  {
    if Fits(field, value) {
      NormalKeeps(field, value);
    }
    if value.Null? {
      return None;
    }
    match field.kind {
      case Line | Multiline =>
        if !value.Str? || (field.required && Blank(value.s)) {
          return None;
        }
        return Some(value);
      case Integer =>
        r := CheckNumber(field, value, true);
      case Floating =>
        r := CheckNumber(field, value, false);
      case Boolean =>
        return if value.Bool? then Some(value) else None;
      case Select =>
        for i := 0 to |field.options|
          invariant value !in field.options[..i]
        {
          if field.options[i] == value {
            return Some(value);
          }
        }
        return None;
      case Image | Video =>
        if value.Obj? && value.entries.Keys == {"media_id"} && value.entries["media_id"].Str? && !Blank(value.entries["media_id"].s) {
          return Some(value);
        }
        return None;
    }
  }

  function FieldIds(fields: seq<InputField>): set<string> {
    set i | 0 <= i < |fields| :: fields[i].id
  }

  /** Only known names, every required field supplied, and every supplied value fit for its field. */
  ghost predicate Valid(workflow: Workflow, inputs: Values) {
    && inputs.Keys <= FieldIds(workflow.inputs)
    && (forall i :: 0 <= i < |workflow.inputs| ==>
          var field := workflow.inputs[i];
          if field.id in inputs then Fits(field, inputs[field.id]) else !field.required)
  }

  /** Validation accepts exactly the valid submissions, and hands on exactly the fields that were supplied. */
  method Validate(workflow: Workflow, inputs: Values) returns (r: Option<Values>)
    requires WellBound(workflow)
    ensures r.Some? <==> Valid(workflow, inputs)
    ensures r.Some? ==> r.value.Keys == inputs.Keys
    ensures r.Some? ==> forall i :: 0 <= i < |workflow.inputs| && workflow.inputs[i].id in inputs ==>
      r.value[workflow.inputs[i].id] == Normal(workflow.inputs[i], inputs[workflow.inputs[i].id])
    ensures r.Some? ==> forall i :: 0 <= i < |workflow.inputs| && workflow.inputs[i].id in inputs ==>
      Keeps(workflow.inputs[i], inputs[workflow.inputs[i].id], r.value[workflow.inputs[i].id])
  {
    hide Fits, Normal, Keeps;
    var fields := workflow.inputs;
    if !(inputs.Keys <= FieldIds(fields)) {
      return None;
    }
    var validated: Values := map[];
    for n := 0 to |fields|
      invariant forall i :: 0 <= i < n ==>
        if fields[i].id in inputs
        then Fits(fields[i], inputs[fields[i].id]) && fields[i].id in validated
          && validated[fields[i].id] == Normal(fields[i], inputs[fields[i].id])
          && Keeps(fields[i], inputs[fields[i].id], validated[fields[i].id])
        else !fields[i].required
      invariant forall id :: id in validated ==> id in inputs
    {
      var field := fields[n];
      if field.id !in inputs {
        if field.required {
          return None;
        }
      } else {
        var value := CheckValue(field, inputs[field.id]);
        if value.None? {
          return None;
        }
        validated := validated[field.id := value.value];
      }
    }
    return Some(validated);
  }

  // ----- translation of the text fields -----

  /** Every supplied translatable text is replaced by its effective text; nothing else changes. */
  method Translate(workflow: Workflow, values: Values, config: T.Config, translator: T.Translator) returns (r: Values)
    requires WellBound(workflow)
    ensures r.Keys == values.Keys
    ensures forall i :: 0 <= i < |workflow.inputs| && workflow.inputs[i].id in values ==>
      var field := workflow.inputs[i];
      r[field.id] ==
        if field.translatable && values[field.id].Str?
        then Str(T.Translated(config, values[field.id].s, translator).effective)
        else values[field.id]
  {
    hide T.Translated;
    r := values;
    for n := 0 to |workflow.inputs|
      invariant r.Keys == values.Keys
      invariant forall i :: 0 <= i < |workflow.inputs| && workflow.inputs[i].id in values ==>
        var field := workflow.inputs[i];
        r[field.id] ==
          if i < n && field.translatable && values[field.id].Str?
          then Str(T.Translated(config, values[field.id].s, translator).effective)
          else values[field.id]
    {
      var field := workflow.inputs[n];
      if field.translatable && field.id in values && values[field.id].Str? {
        var outcome, _ := T.TranslateText(config, values[field.id].s, translator);
        if outcome.applied {
          r := r[field.id := Str(outcome.effective)];
        }
      }
    }
  }

  // ----- binding -----

  /** What a media reference becomes; `None` when the store or ComfyUI refuses it. */
  type Resolver = (InputField, Json) -> Option<Json>

  datatype BindResult = Done(graph: Graph) | Refused | BindingError

  /** The graph with `value` at one target. */
  function Write(graph: Graph, target: Binding, value: Json): Graph
    requires Bindable(graph, target)
  {
    var node := graph[target.node];
    graph[target.node := Obj(node.entries["inputs" := Obj(InputsOf(node)[target.input := value])])]
  }

  /** The graph with all these targets overwritten and everything else as it was, whatever the order. */
  function Overlay(graph: Graph, writes: map<Binding, Json>): Graph {
    map id | id in graph :: OverlayNode(id, graph[id], writes)
  }

  function OverlayNode(id: string, node: Json, writes: map<Binding, Json>): Json {
    if !HasInputs(node) then node
    else
      var inputs := InputsOf(node);
      Obj(node.entries["inputs" := Obj(map input | input in inputs ::
        if Binding(id, input) in writes then writes[Binding(id, input)] else inputs[input])])
  }

  lemma WriteIsOverlay(graph: Graph, writes: map<Binding, Json>, target: Binding, value: Json)
    requires Bindable(graph, target) && target !in writes
    ensures Bindable(Overlay(graph, writes), target)
    ensures Write(Overlay(graph, writes), target, value) == Overlay(graph, writes[target := value])
  {
    var before, after := Overlay(graph, writes), Overlay(graph, writes[target := value]);
    var written := Write(before, target, value);
    assert written.Keys == after.Keys;
    forall id | id in graph
      ensures written[id] == after[id]
    {
      if id == target.node {
        assert InputsOf(written[id]) == InputsOf(after[id]);
      } else if HasInputs(graph[id]) {
        assert InputsOf(written[id]) == InputsOf(after[id]);
      }
    }
  }

  /** The value that goes into the graph: a media reference is resolved once, whatever the number of targets. */
  function Resolved(field: InputField, value: Json, resolver: Option<Resolver>): Option<Json> {
    if !field.IsMedia() then Some(value)
    else if resolver.None? then None
    else resolver.value(field, value)
  }

  /** What the `i`th field writes: its value at every target it names, or nothing when it is not supplied. */
  ghost function FieldWrites(workflow: Workflow, values: Values, resolver: Option<Resolver>, i: nat): map<Binding, Json>
    requires WellBound(workflow) && i < |workflow.inputs|
  {
    var field := workflow.inputs[i];
    if field.id !in values || Resolved(field, values[field.id], resolver).None? then map[]
    else ToAll(workflow.bindings[field.id], Resolved(field, values[field.id], resolver).value)
  }

  function ToAll(targets: seq<Binding>, value: Json): map<Binding, Json> {
    map t | t in targets :: value
  }

  /** What the first `n` fields write, the later ones over the earlier. */
  ghost function Writes(workflow: Workflow, values: Values, resolver: Option<Resolver>, n: nat): map<Binding, Json>
    requires WellBound(workflow) && n <= |workflow.inputs|
  {
    if n == 0 then map[]
    else Writes(workflow, values, resolver, n - 1) + FieldWrites(workflow, values, resolver, n - 1)
  }

  /** One of the first `n` fields writes this value at this target. */
  ghost predicate Driven(workflow: Workflow, values: Values, resolver: Option<Resolver>, n: nat, target: Binding, value: Json)
    requires WellBound(workflow) && n <= |workflow.inputs|
  {
    exists i: nat :: i < n && Drives(workflow, values, resolver, i, target, value)
  }

  ghost predicate Drives(workflow: Workflow, values: Values, resolver: Option<Resolver>, i: nat, target: Binding, value: Json)
    requires WellBound(workflow) && i < |workflow.inputs|
  {
    var writes := FieldWrites(workflow, values, resolver, i);
    target in writes && writes[target] == value
  }

  /** No two fields share a target, so what one of them names no other one writes. */
  lemma TargetsAreOwned(workflow: Workflow, values: Values, resolver: Option<Resolver>, i: nat, j: nat, target: Binding)
    requires WellBound(workflow) && i < |workflow.inputs| && j < |workflow.inputs| && i != j
    requires target in workflow.bindings[workflow.inputs[j].id]
    ensures target !in FieldWrites(workflow, values, resolver, i)
  {
  }

  lemma WrittenTargetIsNamed(workflow: Workflow, values: Values, resolver: Option<Resolver>, i: nat, target: Binding)
    requires WellBound(workflow) && i < |workflow.inputs| && target in FieldWrites(workflow, values, resolver, i)
    ensures workflow.inputs[i].id in workflow.bindings && target in workflow.bindings[workflow.inputs[i].id]
  {
  }

  /** What is written to a target is the value of a supplied field that names it. */
  lemma {:induction false} WrittenIsDriven(workflow: Workflow, values: Values, resolver: Option<Resolver>, n: nat, target: Binding)
    requires WellBound(workflow) && n <= |workflow.inputs| && target in Writes(workflow, values, resolver, n)
    ensures Driven(workflow, values, resolver, n, target, Writes(workflow, values, resolver, n)[target])
  {
    hide WellBound, FieldWrites;
    var value := Writes(workflow, values, resolver, n)[target];
    if target in FieldWrites(workflow, values, resolver, n - 1) {
      assert Drives(workflow, values, resolver, n - 1, target, value);
    } else {
      WrittenIsDriven(workflow, values, resolver, n - 1, target);
      var i: nat :| i < n - 1 && Drives(workflow, values, resolver, i, target, value);
    }
  }

  /** A supplied field's value is written at every target it names, whatever other fields there are. */
  lemma {:induction false} DrivenIsWritten(workflow: Workflow, values: Values, resolver: Option<Resolver>, n: nat, target: Binding, value: Json)
    requires WellBound(workflow) && n <= |workflow.inputs| && Driven(workflow, values, resolver, n, target, value)
    ensures target in Writes(workflow, values, resolver, n) && Writes(workflow, values, resolver, n)[target] == value
  {
    hide WellBound, FieldWrites;
    var i: nat :| i < n && Drives(workflow, values, resolver, i, target, value);
    if i < n - 1 {
      DrivenIsWritten(workflow, values, resolver, n - 1, target, value);
      WrittenTargetIsNamed(workflow, values, resolver, i, target);
      TargetsAreOwned(workflow, values, resolver, n - 1, i, target);
    }
  }

  /** No earlier field has written to a target of this one. */
  lemma {:induction false} OwnTargetIsFresh(workflow: Workflow, values: Values, resolver: Option<Resolver>, m: nat, n: nat, target: Binding)
    requires WellBound(workflow) && m <= n < |workflow.inputs| && target in workflow.bindings[workflow.inputs[n].id]
    ensures target !in Writes(workflow, values, resolver, m)
  {
    if m > 0 {
      OwnTargetIsFresh(workflow, values, resolver, m - 1, n, target);
      TargetsAreOwned(workflow, values, resolver, m - 1, n, target);
    }
  }

  /** Ready to be bound: only known ids, every required field, and a resolver if media is to be bound. */
  ghost predicate Ready(workflow: Workflow, values: Values, resolver: Option<Resolver>) {
    && values.Keys <= FieldIds(workflow.inputs)
    && (forall i :: 0 <= i < |workflow.inputs| && workflow.inputs[i].required ==> workflow.inputs[i].id in values)
    && MediaReady(workflow, values, resolver, |workflow.inputs|)
  }

  ghost predicate MediaReady(workflow: Workflow, values: Values, resolver: Option<Resolver>, n: nat)
    requires n <= |workflow.inputs|
  {
    forall i :: 0 <= i < n && workflow.inputs[i].id in values && workflow.inputs[i].IsMedia() ==> resolver.Some?
  }

  /** Every value supplied for the first `n` fields resolves. */
  ghost predicate Resolvable(workflow: Workflow, values: Values, resolver: Option<Resolver>, n: nat)
    requires n <= |workflow.inputs|
  {
    forall i :: 0 <= i < n && workflow.inputs[i].id in values ==>
      Resolved(workflow.inputs[i], values[workflow.inputs[i].id], resolver).Some?
  }

  lemma HasTargets(workflow: Workflow, n: nat)
    requires WellBound(workflow) && n < |workflow.inputs|
    ensures workflow.inputs[n].id in workflow.bindings && workflow.bindings[workflow.inputs[n].id] != []
  {
  }

  /**
   A deep copy of the graph with every supplied value written at all of its targets. It fails as a
   binding only when the values are not ready to be bound.
   */
  method BindValues(workflow: Workflow, values: Values, resolver: Option<Resolver>) returns (r: BindResult)
    requires WellBound(workflow)
    ensures r.Done? <==> Ready(workflow, values, resolver) && Resolvable(workflow, values, resolver, |workflow.inputs|)
    ensures r.BindingError? ==> !Ready(workflow, values, resolver)
    ensures r.Refused? ==> !Resolvable(workflow, values, resolver, |workflow.inputs|)
    ensures r.Done? ==> r.graph == Overlay(workflow.graph, Writes(workflow, values, resolver, |workflow.inputs|))
  {
    hide WellBound, Overlay, Writes, Resolved;
    var fields := workflow.inputs;
    if !(values.Keys <= FieldIds(fields)) {
      return BindingError;
    }
    if exists i :: 0 <= i < |fields| && fields[i].required && fields[i].id !in values {
      return BindingError;
    }
    var graph := workflow.graph;
    NothingWritten(workflow, values, resolver);
    for n := 0 to |fields|
      invariant MediaReady(workflow, values, resolver, n)
      invariant Resolvable(workflow, values, resolver, n)
      invariant graph == Overlay(workflow.graph, Writes(workflow, values, resolver, n))
    {
      var field := fields[n];
      if field.id in values {
        if field.IsMedia() && resolver.None? {
          return BindingError;
        }
        var value := Resolved(field, values[field.id], resolver);
        if value.None? {
          return Refused;
        }
        HasTargets(workflow, n);
        var targets := workflow.bindings[field.id];
        if targets == [] {
          return BindingError;
        }
        graph := WriteAll(workflow, values, resolver, n, graph, value.value);
      } else {
        NotSupplied(workflow, values, resolver, n);
      }
    }
    return Done(graph);
  }

  lemma NothingWritten(workflow: Workflow, values: Values, resolver: Option<Resolver>)
    requires WellBound(workflow)
    ensures Overlay(workflow.graph, Writes(workflow, values, resolver, 0)) == workflow.graph
  {
    OverlayNothing(workflow.graph);
  }

  lemma NotSupplied(workflow: Workflow, values: Values, resolver: Option<Resolver>, n: nat)
    requires WellBound(workflow) && n < |workflow.inputs| && workflow.inputs[n].id !in values
    ensures Writes(workflow, values, resolver, n + 1) == Writes(workflow, values, resolver, n)
  {
  }

  lemma OverlayNothing(graph: Graph)
    ensures Overlay(graph, map[]) == graph
  {
    forall id | id in graph
      ensures OverlayNode(id, graph[id], map[]) == graph[id]
    {
      OverlayNodeNothing(id, graph[id]);
    }
  }

  lemma OverlayNodeNothing(id: string, node: Json)
    ensures OverlayNode(id, node, map[]) == node
  {
    if HasInputs(node) {
      var overlaid := OverlayNode(id, node, map[]);
      assert InputsOf(overlaid) == InputsOf(node);
      assert overlaid.entries == node.entries;
    }
  }

  /** The inner loop: one field's value at each of its targets, in the order they are listed. */
  method WriteAll(workflow: Workflow, values: Values, resolver: Option<Resolver>, n: nat, before: Graph, value: Json) returns (graph: Graph)
    requires WellBound(workflow) && n < |workflow.inputs| && workflow.inputs[n].id in values
    requires Resolved(workflow.inputs[n], values[workflow.inputs[n].id], resolver) == Some(value)
    requires before == Overlay(workflow.graph, Writes(workflow, values, resolver, n))
    ensures graph == Overlay(workflow.graph, Writes(workflow, values, resolver, n + 1))
  {
    ghost var writes := Writes(workflow, values, resolver, n);
    var targets := workflow.bindings[workflow.inputs[n].id];
    forall t | t in targets
      ensures t !in writes && Bindable(workflow.graph, t)
    {
      OwnTargetIsFresh(workflow, values, resolver, n, n, t);
    }
    graph := WriteTargets(workflow.graph, writes, targets, before, value);
  }

  method WriteTargets(original: Graph, ghost writes: map<Binding, Json>, targets: seq<Binding>, before: Graph, value: Json)
    returns (graph: Graph)
    requires Distinct(targets) && forall t :: t in targets ==> t !in writes && Bindable(original, t)
    requires before == Overlay(original, writes)
    ensures graph == Overlay(original, writes + ToAll(targets, value))
  {
    hide Overlay, Bindable, Write, ToAll;
    graph := before;
    NoTargetYet(writes, targets, value);
    for i := 0 to |targets|
      invariant graph == Overlay(original, writes + ToAll(targets[..i], value))
    {
      var target := targets[i];
      OneMoreTarget(writes, targets, i, value);
      WriteIsOverlay(original, writes + ToAll(targets[..i], value), target, value);
      graph := Write(graph, target, value);
    }
    assert targets[..|targets|] == targets;
  }

  lemma NoTargetYet(writes: map<Binding, Json>, targets: seq<Binding>, value: Json)
    ensures writes + ToAll(targets[..0], value) == writes
  {
  }

  lemma OneMoreTarget(writes: map<Binding, Json>, targets: seq<Binding>, i: nat, value: Json)
    requires i < |targets| && Distinct(targets) && targets[i] !in writes
    ensures targets[i] !in writes + ToAll(targets[..i], value)
    ensures (writes + ToAll(targets[..i], value))[targets[i] := value] == writes + ToAll(targets[..i + 1], value)
  {
    assert targets[..i + 1] == targets[..i] + [targets[i]];
    ToOneMore(targets[..i], targets[i], value);
    MergeThenUpdate(writes, ToAll(targets[..i], value), targets[i], value);
  }

  lemma ToOneMore(targets: seq<Binding>, target: Binding, value: Json)
    ensures ToAll(targets + [target], value) == ToAll(targets, value)[target := value]
  {
  }

  lemma MergeThenUpdate(writes: map<Binding, Json>, more: map<Binding, Json>, target: Binding, value: Json)
    ensures (writes + more)[target := value] == writes + more[target := value]
  {
  }

  /** The declared order of the fields plays no part in what is written. */
  lemma FieldOrderIsIrrelevant(workflow: Workflow, other: Workflow, values: Values, resolver: Option<Resolver>)
    requires WellBound(workflow) && other == workflow.(inputs := other.inputs) && WellBound(other)
    requires forall field :: field in workflow.inputs <==> field in other.inputs
    ensures Writes(workflow, values, resolver, |workflow.inputs|) == Writes(other, values, resolver, |other.inputs|)
  {
    hide WellBound, Writes;
    WritesCarryOver(workflow, other, values, resolver);
    WritesCarryOver(other, workflow, values, resolver);
  }

  lemma WritesCarryOver(workflow: Workflow, other: Workflow, values: Values, resolver: Option<Resolver>)
    requires WellBound(workflow) && other == workflow.(inputs := other.inputs) && WellBound(other)
    requires forall field :: field in workflow.inputs ==> field in other.inputs
    ensures var a, b := Writes(workflow, values, resolver, |workflow.inputs|), Writes(other, values, resolver, |other.inputs|);
      forall target :: target in a ==> target in b && b[target] == a[target]
  {
    hide WellBound, Writes;
    var a := Writes(workflow, values, resolver, |workflow.inputs|);
    forall target | target in a
      ensures var b := Writes(other, values, resolver, |other.inputs|); target in b && b[target] == a[target]
    {
      WrittenIsDriven(workflow, values, resolver, |workflow.inputs|, target);
      var i: nat :| i < |workflow.inputs| && Drives(workflow, values, resolver, i, target, a[target]);
      var field := workflow.inputs[i];
      assert field in other.inputs;
      var j: nat :| j < |other.inputs| && other.inputs[j] == field;
      assert Drives(other, values, resolver, j, target, a[target]);
      DrivenIsWritten(other, values, resolver, |other.inputs|, target, a[target]);
    }
  }

  /**
   The bound graph input by input: one that a supplied field names holds that field's value, every other one
   holds what it held, and nothing besides inputs changes.
   */
  lemma BoundGraphInputByInput(workflow: Workflow, values: Values, resolver: Option<Resolver>, node: string, input: string)
    requires WellBound(workflow) && node in workflow.graph && HasInputs(workflow.graph[node]) && input in InputsOf(workflow.graph[node])
    ensures var bound := Overlay(workflow.graph, Writes(workflow, values, resolver, |workflow.inputs|));
      var target := Binding(node, input);
      && bound.Keys == workflow.graph.Keys && HasInputs(bound[node])
      && (forall id :: id in workflow.graph && !HasInputs(workflow.graph[id]) ==> bound[id] == workflow.graph[id])
      && InputsOf(bound[node]).Keys == InputsOf(workflow.graph[node]).Keys
      && (forall key :: key in workflow.graph[node].entries && key != "inputs" ==>
            key in bound[node].entries && bound[node].entries[key] == workflow.graph[node].entries[key])
      && (forall value :: Driven(workflow, values, resolver, |workflow.inputs|, target, value) ==> InputsOf(bound[node])[input] == value)
      && ((forall value :: !Driven(workflow, values, resolver, |workflow.inputs|, target, value)) ==>
            InputsOf(bound[node])[input] == InputsOf(workflow.graph[node])[input])
  {
    hide WellBound, Writes, Driven;
    var n, target := |workflow.inputs|, Binding(node, input);
    forall value | Driven(workflow, values, resolver, n, target, value)
      ensures target in Writes(workflow, values, resolver, n) && Writes(workflow, values, resolver, n)[target] == value
    {
      DrivenIsWritten(workflow, values, resolver, n, target, value);
    }
    if target in Writes(workflow, values, resolver, n) {
      WrittenIsDriven(workflow, values, resolver, n, target);
    }
  }

  // ----- the whole way -----

  datatype Answer = Rejected | MediaRefused | Unusable | Submitted(graph: Graph)

  /** A submitted value as it reaches the binding: normalised, and translated when it is a translatable text. */
  function Effective(field: InputField, value: Json, config: T.Config, translator: T.Translator): Json {
    var normal := Normal(field, value);
    if field.translatable && normal.Str? then Str(T.Translated(config, normal.s, translator).effective) else normal
  }

  /** These values are the submitted ones, each in its effective form. */
  ghost predicate Carried(workflow: Workflow, inputs: Values, config: T.Config, translator: T.Translator, values: Values) {
    && values.Keys == inputs.Keys
    && (forall i :: 0 <= i < |workflow.inputs| && workflow.inputs[i].id in inputs ==>
          var field := workflow.inputs[i]; values[field.id] == Effective(field, inputs[field.id], config, translator))
  }

  /** What a valid submission is answered with: its graph, unless a media reference of it cannot be resolved. */
  ghost function Outcome(workflow: Workflow, values: Values, resolver: Resolver): Answer
    requires WellBound(workflow)
  {
    if Resolvable(workflow, values, Some(resolver), |workflow.inputs|)
    then Submitted(Overlay(workflow.graph, Writes(workflow, values, Some(resolver), |workflow.inputs|)))
    else MediaRefused
  }

  /** What a value that was submitted may look like in the graph: resolved, translated, or kept. */
  ghost predicate ArrivesAs(field: InputField, submitted: Json, config: T.Config, translator: T.Translator, resolver: Resolver, bound: Json) {
    if field.IsMedia() then resolver(field, submitted) == Some(bound)
    else if field.translatable && submitted.Str? then bound == Str(T.Translated(config, submitted.s, translator).effective)
    else Keeps(field, submitted, bound)
  }

  /** The graph has this value as an input at this place. */
  predicate HasInput(graph: Graph, target: Binding) {
    target.node in graph && HasInputs(graph[target.node]) && target.input in InputsOf(graph[target.node])
  }

  function InputAt(graph: Graph, target: Binding): Json
    requires HasInput(graph, target)
  {
    InputsOf(graph[target.node])[target.input]
  }

  /** Some supplied field names this target. */
  ghost predicate IsNamed(workflow: Workflow, inputs: Values, target: Binding)
    requires WellBound(workflow)
  {
    exists i :: 0 <= i < |workflow.inputs| && workflow.inputs[i].id in inputs && target in workflow.bindings[workflow.inputs[i].id]
  }

  /** Every submitted value has arrived at each of its targets, and every other input is the curator's. */
  ghost predicate Arrived(workflow: Workflow, inputs: Values, config: T.Config, translator: T.Translator, resolver: Resolver, graph: Graph)
    requires WellBound(workflow)
  {
    && (forall target :: HasInput(graph, target) <==> HasInput(workflow.graph, target))
    && (forall i, target ::
          0 <= i < |workflow.inputs| && workflow.inputs[i].id in inputs && target in workflow.bindings[workflow.inputs[i].id] ==>
          HasInput(graph, target) &&
          ArrivesAs(workflow.inputs[i], inputs[workflow.inputs[i].id], config, translator, resolver, InputAt(graph, target)))
    && (forall target :: HasInput(graph, target) && !IsNamed(workflow, inputs, target) ==>
          InputAt(graph, target) == InputAt(workflow.graph, target))
  }

  /** Every media reference submitted for one of the fields is there to be bound. */
  ghost predicate MediaAreThere(workflow: Workflow, inputs: Values, resolver: Resolver) {
    forall i :: 0 <= i < |workflow.inputs| && workflow.inputs[i].id in inputs && workflow.inputs[i].IsMedia() ==>
      resolver(workflow.inputs[i], inputs[workflow.inputs[i].id]).Some?
  }

  /** One value on its way: what the binding resolves it to is what a value submitted like that arrives as. */
  lemma ResolvedArrives(field: InputField, submitted: Json, config: T.Config, translator: T.Translator, resolver: Resolver)
    requires Fits(field, submitted)
    ensures var resolved := Resolved(field, Effective(field, submitted, config, translator), Some(resolver));
      && (field.IsMedia() ==> resolved == resolver(field, submitted))
      && (!field.IsMedia() ==> resolved.Some?)
      && (resolved.Some? ==> ArrivesAs(field, submitted, config, translator, resolver, resolved.value))
  {
    hide T.Translated;
    NormalKeeps(field, submitted);
  }

  lemma CarriedResolves(workflow: Workflow, inputs: Values, config: T.Config, translator: T.Translator, resolver: Resolver, values: Values)
    requires WellBound(workflow) && Valid(workflow, inputs) && Carried(workflow, inputs, config, translator, values)
    ensures Resolvable(workflow, values, Some(resolver), |workflow.inputs|) <==> MediaAreThere(workflow, inputs, resolver)
  {
    hide WellBound, Fits, Resolved, Effective, InputField.IsMedia;
    forall i | 0 <= i < |workflow.inputs| && workflow.inputs[i].id in inputs
      ensures Resolved(workflow.inputs[i], values[workflow.inputs[i].id], Some(resolver)).Some? <==>
        (workflow.inputs[i].IsMedia() ==> resolver(workflow.inputs[i], inputs[workflow.inputs[i].id]).Some?)
    {
      ResolvedArrives(workflow.inputs[i], inputs[workflow.inputs[i].id], config, translator, resolver);
    }
  }

  /** What is bound for a field is what its submitted value arrives as. */
  lemma DrivenArrives(workflow: Workflow, inputs: Values, config: T.Config, translator: T.Translator, resolver: Resolver,
                      values: Values, i: nat, target: Binding)
    requires WellBound(workflow) && Valid(workflow, inputs) && Carried(workflow, inputs, config, translator, values)
    requires Resolvable(workflow, values, Some(resolver), |workflow.inputs|)
    requires i < |workflow.inputs| && workflow.inputs[i].id in inputs && target in workflow.bindings[workflow.inputs[i].id]
    ensures HasInput(workflow.graph, target)
    ensures forall value :: Drives(workflow, values, Some(resolver), i, target, value) ==>
      ArrivesAs(workflow.inputs[i], inputs[workflow.inputs[i].id], config, translator, resolver, value)
    ensures exists value :: Drives(workflow, values, Some(resolver), i, target, value)
  {
    hide Fits, Resolved, Effective, ArrivesAs;
    var field := workflow.inputs[i];
    ResolvedArrives(field, inputs[field.id], config, translator, resolver);
    var value := Resolved(field, values[field.id], Some(resolver)).value;
    assert Bindable(workflow.graph, target);
    assert Drives(workflow, values, Some(resolver), i, target, value);
  }

  lemma DrivenByOne(workflow: Workflow, values: Values, resolver: Option<Resolver>, i: nat, target: Binding, value: Json)
    requires WellBound(workflow) && i < |workflow.inputs| && Drives(workflow, values, resolver, i, target, value)
    ensures Driven(workflow, values, resolver, |workflow.inputs|, target, value)
  {
  }

  lemma DrivenIsNamed(workflow: Workflow, values: Values, resolver: Option<Resolver>, target: Binding, value: Json)
    requires WellBound(workflow) && Driven(workflow, values, resolver, |workflow.inputs|, target, value)
    ensures IsNamed(workflow, values, target)
  {
    hide WellBound;
    var i: nat :| i < |workflow.inputs| && Drives(workflow, values, resolver, i, target, value);
    WrittenTargetIsNamed(workflow, values, resolver, i, target);
  }

  lemma OverlayKeepsPlaces(graph: Graph, writes: map<Binding, Json>)
    ensures forall target :: HasInput(Overlay(graph, writes), target) <==> HasInput(graph, target)
  {
  }

  lemma EverythingArrives(workflow: Workflow, inputs: Values, config: T.Config, translator: T.Translator, resolver: Resolver, values: Values)
    requires WellBound(workflow) && Valid(workflow, inputs) && Carried(workflow, inputs, config, translator, values)
    requires Resolvable(workflow, values, Some(resolver), |workflow.inputs|)
    ensures var graph := Overlay(workflow.graph, Writes(workflow, values, Some(resolver), |workflow.inputs|));
      Arrived(workflow, inputs, config, translator, resolver, graph)
  {
    hide WellBound, Valid, Carried, Driven, ArrivesAs, Overlay, Writes, Resolvable;
    var graph := Overlay(workflow.graph, Writes(workflow, values, Some(resolver), |workflow.inputs|));
    OverlayKeepsPlaces(workflow.graph, Writes(workflow, values, Some(resolver), |workflow.inputs|));
    forall i, target | 0 <= i < |workflow.inputs| && workflow.inputs[i].id in inputs && target in Targets(workflow, i)
      ensures HasInput(graph, target)
      ensures ArrivesAs(workflow.inputs[i], inputs[workflow.inputs[i].id], config, translator, resolver, InputAt(graph, target))
    {
      DrivenArrives(workflow, inputs, config, translator, resolver, values, i, target);
      var value :| Drives(workflow, values, Some(resolver), i, target, value);
      assert Driven(workflow, values, Some(resolver), |workflow.inputs|, target, value) by {
        DrivenByOne(workflow, values, Some(resolver), i, target, value);
      }
      BoundGraphInputByInput(workflow, values, Some(resolver), target.node, target.input);
    }
    forall target | HasInput(graph, target) && !IsNamed(workflow, inputs, target)
      ensures InputAt(graph, target) == InputAt(workflow.graph, target)
    {
      forall value
        ensures !Driven(workflow, values, Some(resolver), |workflow.inputs|, target, value)
      {
        if Driven(workflow, values, Some(resolver), |workflow.inputs|, target, value) {
          DrivenIsNamed(workflow, values, Some(resolver), target, value);
          SameNamed(workflow, inputs, values, config, translator, target);
        }
      }
      BoundGraphInputByInput(workflow, values, Some(resolver), target.node, target.input);
    }
  }

  ghost function Targets(workflow: Workflow, i: nat): seq<Binding>
    requires WellBound(workflow) && i < |workflow.inputs|
  {
    workflow.bindings[workflow.inputs[i].id]
  }

  lemma SameNamed(workflow: Workflow, inputs: Values, values: Values, config: T.Config, translator: T.Translator, target: Binding)
    requires WellBound(workflow) && Carried(workflow, inputs, config, translator, values)
    ensures IsNamed(workflow, values, target) <==> IsNamed(workflow, inputs, target)
  {
  }

  /**
   Validate, translate, bind: for an accepted definition and a gateway that has its media resolver, the
   answer "this workflow could not be prepared" is never given, whatever is submitted.
   */
  method Prepare(workflow: Workflow, inputs: Values, config: T.Config, translator: T.Translator, resolver: Resolver)
    returns (answer: Answer)
    requires WellBound(workflow)
    ensures !answer.Unusable?
    ensures answer.Rejected? <==> !Valid(workflow, inputs)
    ensures Valid(workflow, inputs) ==>
      exists values :: Carried(workflow, inputs, config, translator, values) && answer == Outcome(workflow, values, resolver)
    ensures answer.MediaRefused? <==> Valid(workflow, inputs) && !MediaAreThere(workflow, inputs, resolver)
    ensures answer.Submitted? ==> Arrived(workflow, inputs, config, translator, resolver, answer.graph)
  {
    hide Fits, Normal, Keeps, Arrived, Overlay, Writes, Resolved, T.Translated;
    var validated := Validate(workflow, inputs);
    if validated.None? {
      return Rejected;
    }
    var values := Translate(workflow, validated.value, config, translator);
    CarriedThrough(workflow, inputs, config, translator, validated.value, values);
    CarriedResolves(workflow, inputs, config, translator, resolver, values);
    if Resolvable(workflow, values, Some(resolver), |workflow.inputs|) {
      EverythingArrives(workflow, inputs, config, translator, resolver, values);
    }
    hide WellBound;
    var bound := BindValues(workflow, values, Some(resolver));
    match bound {
      case Done(graph) => return Submitted(graph);
      case Refused => return MediaRefused;
      case BindingError => return Unusable;
    }
  }

  lemma CarriedThrough(workflow: Workflow, inputs: Values, config: T.Config, translator: T.Translator, validated: Values, values: Values)
    requires WellBound(workflow) && Valid(workflow, inputs) && validated.Keys == inputs.Keys == values.Keys
    requires forall i :: 0 <= i < |workflow.inputs| && workflow.inputs[i].id in inputs ==>
      validated[workflow.inputs[i].id] == Normal(workflow.inputs[i], inputs[workflow.inputs[i].id])
    requires forall i :: 0 <= i < |workflow.inputs| && workflow.inputs[i].id in validated ==>
      var field := workflow.inputs[i];
      values[field.id] ==
        if field.translatable && validated[field.id].Str?
        then Str(T.Translated(config, validated[field.id].s, translator).effective)
        else validated[field.id]
    ensures Carried(workflow, inputs, config, translator, values)
    ensures forall resolver :: Ready(workflow, values, Some(resolver))
  {
    hide Fits, Normal, T.Translated, WellBound;
  }
}
