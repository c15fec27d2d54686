/** The registry: which of the definitions that were found load, and in which order everything is listed. */
module Registry {
  import opened Prelude
  import opened Sorting
  import opened Workflows

  /** An absent workflow id or field id is the empty text, as in the order diagnostics are listed in. */
  datatype Diagnostic = Diagnostic(workflowId: string, source: string, fieldId: string, message: string)

  datatype Definition = Definition(id: string, workflow: Workflow)

  /** One file as read. It claims an id as soon as that is readable, even when it is rejected; `""` claims none. */
  datatype Loaded = Loaded(source: string, claim: string, definition: Option<Definition>, problems: seq<Diagnostic>) {
    /** What reading one file guarantees: a definition under the id it claims, or a problem that names the file. */
    predicate Sound() {
      && (definition.Some? ==> claim == definition.value.id && claim != "")
      && (definition.None? ==> problems != [])
      && forall d :: d in problems ==> d.source == source
    }
  }

  /** The text of a report of a duplicate: the id, the other files and how many claim it. */
  type Wording = (string, seq<string>, nat) -> string

  function ById(definition: Definition): Key {
    [definition.id]
  }

  function InPlace(d: Diagnostic): Key {
    [d.workflowId, d.source, d.fieldId, d.message]
  }

  function Itself(file: string): Key {
    [file]
  }

  // ----- what a list of files comes to, one file at a time -----

  function FlatMap<S, T>(items: seq<S>, f: S -> seq<T>): seq<T> {
    if items == [] then [] else FlatMap(items[..|items| - 1], f) + f(items[|items| - 1])
  }

  lemma FlatMapNext<S, T>(items: seq<S>, n: nat, f: S -> seq<T>)
    requires n < |items|
    ensures FlatMap(items[..n + 1], f) == FlatMap(items[..n], f) + f(items[n])
  {
    assert items[..n + 1][..n] == items[..n];
  }

  lemma {:induction false} InFlatMap<S(!new), T>(items: seq<S>, f: S -> seq<T>, y: T)
    ensures y in FlatMap(items, f) <==> exists x :: x in items && y in f(x)
  {
    if items != [] {
      var front, last := items[..|items| - 1], items[|items| - 1];
      InFlatMap(front, f, y);
      assert forall x :: x in items <==> x in front || x == last;
    }
  }

  lemma {:induction false} FlatMapAgrees<S, T>(items: seq<S>, f: S -> seq<T>, g: S -> seq<T>)
    requires forall x :: x in items ==> f(x) == g(x)
    ensures FlatMap(items, f) == FlatMap(items, g)
  {
    if items != [] {
      FlatMapAgrees(items[..|items| - 1], f, g);
    }
  }

  lemma {:induction false} FlatMapAdds<S, T>(items: seq<S>, f: S -> seq<T>, g: S -> seq<T>, both: S -> seq<T>)
    requires forall x :: x in items ==> multiset(both(x)) == multiset(f(x)) + multiset(g(x))
    ensures multiset(FlatMap(items, both)) == multiset(FlatMap(items, f)) + multiset(FlatMap(items, g))
  {
    if items != [] {
      FlatMapAdds(items[..|items| - 1], f, g, both);
    }
  }

  lemma {:induction false} FlatMapJoins<S, T>(first: seq<S>, second: seq<S>, f: S -> seq<T>)
    ensures FlatMap(first + second, f) == FlatMap(first, f) + FlatMap(second, f)
  {
    if second == [] {
      assert first + second == first;
    } else {
      FlatMapJoins(first, second[..|second| - 1], f);
      assert (first + second)[..|first + second| - 1] == first + second[..|second| - 1];
    }
  }

  /** The order of the files plays no part in what they come to. */
  lemma {:induction false} FlatMapForgetsOrder<S, T>(items: seq<S>, other: seq<S>, f: S -> seq<T>)
    requires multiset(items) == multiset(other)
    ensures multiset(FlatMap(items, f)) == multiset(FlatMap(other, f))
    decreases |items|
  {
    SameLength(items, other);
    if items != [] {
      var front, last := items[..|items| - 1], items[|items| - 1];
      var before, after := TakeOut(items, other);
      FlatMapForgetsOrder(front, before + after, f);
      FlatMapJoins(before, after, f);
      FlatMapJoins(before, [last], f);
      FlatMapJoins(before + [last], after, f);
      assert [last][..0] == [] && FlatMap([last], f) == f(last);
    }
  }

  /** The last element, taken out of another list of the same elements. */
  lemma TakeOut<S>(items: seq<S>, other: seq<S>) returns (before: seq<S>, after: seq<S>)
    requires items != [] && multiset(items) == multiset(other)
    ensures other == before + [items[|items| - 1]] + after
    ensures multiset(items[..|items| - 1]) == multiset(before + after)
  {
    var front, last := items[..|items| - 1], items[|items| - 1];
    assert items == front + [last];
    assert last in multiset(items);
    var i :| 0 <= i < |other| && other[i] == last;
    before, after := other[..i], other[i + 1..];
    assert other == before + [last] + after;
    assert multiset(front) == multiset(items) - multiset{last};
    assert multiset(before + after) == multiset(other) - multiset{last};
  }

  // ----- claims -----

  function ClaimOf(id: string): Loaded -> seq<Loaded> {
    (item: Loaded) => if item.claim == id then [item] else []
  }

  /** The files that claim this id, as found. */
  function Claimants(loaded: seq<Loaded>, id: string): (r: seq<Loaded>)
    ensures forall item :: item in r <==> item in loaded && item.claim == id
  {
    InClaimants(loaded, id);
    FlatMap(loaded, ClaimOf(id))
  }

  lemma InClaimants(loaded: seq<Loaded>, id: string)
    ensures forall item :: item in FlatMap(loaded, ClaimOf(id)) <==> item in loaded && item.claim == id
  {
  }

  predicate Duplicated(loaded: seq<Loaded>, id: string) {
    id != "" && |Claimants(loaded, id)| > 1
  }

  function SourceOf(): Loaded -> seq<string> {
    (item: Loaded) => [item.source]
  }

  function Files(claimants: seq<Loaded>): seq<string> {
    Sort(FlatMap(claimants, SourceOf()), Itself)
  }

  function Others(files: seq<string>, source: string): seq<string> {
    if files == [] then []
    else if files[0] == source then Others(files[1..], source)
    else [files[0]] + Others(files[1..], source)
  }

  /** The report one claimant gets; it names every other one. */
  function Report(wording: Wording, claimants: seq<Loaded>, item: Loaded): Diagnostic {
    Diagnostic(item.claim, item.source, "", wording(item.claim, Others(Files(claimants), item.source), |claimants|))
  }

  // ----- the result -----

  /** What one file adds to the workflows: its definition, unless another file claims the id too. */
  function Accepted(loaded: seq<Loaded>): Loaded -> seq<Definition> {
    (item: Loaded) =>
      if item.definition.Some? && !Duplicated(loaded, item.definition.value.id) then [item.definition.value] else []
  }

  function Problems(): Loaded -> seq<Diagnostic> {
    (item: Loaded) => item.problems
  }

  function Duplicates(wording: Wording, loaded: seq<Loaded>, ids: set<string>): Loaded -> seq<Diagnostic> {
    (item: Loaded) =>
      if item.claim in ids && Duplicated(loaded, item.claim) then [Report(wording, Claimants(loaded, item.claim), item)] else []
  }

  /** What one file adds to the diagnostics: its own problems, and a report when its id is claimed twice. */
  function Reported(wording: Wording, loaded: seq<Loaded>): Loaded -> seq<Diagnostic> {
    (item: Loaded) =>
      item.problems
      + if Duplicated(loaded, item.claim) then [Report(wording, Claimants(loaded, item.claim), item)] else []
  }

  function ResolvedWorkflows(loaded: seq<Loaded>): seq<Definition> {
    Sort(FlatMap(loaded, Accepted(loaded)), ById)
  }

  function ResolvedDiagnostics(wording: Wording, loaded: seq<Loaded>): seq<Diagnostic> {
    Sort(FlatMap(loaded, Reported(wording, loaded)), InPlace)
  }

  // ----- as it runs -----

  /** Every id claimed so far, once, in the order first seen, with its claimants. */
  ghost predicate Grouped(loaded: seq<Loaded>, byId: map<string, seq<Loaded>>, order: seq<string>) {
    && (forall i, j :: 0 <= i < j < |order| ==> order[i] != order[j])
    && (forall id :: id in order <==> id in byId)
    && (forall id :: id in byId ==> id != "" && byId[id] == Claimants(loaded, id))
    && (forall item :: item in loaded && item.claim != "" ==> item.claim in byId)
  }

  method GroupByClaim(loaded: seq<Loaded>) returns (byId: map<string, seq<Loaded>>, order: seq<string>)
    ensures Grouped(loaded, byId, order)
  {
    byId, order := map[], [];
    for n := 0 to |loaded|
      invariant Grouped(loaded[..n], byId, order)
    {
      var item := loaded[n];
      OneMoreClaim(loaded, n, byId, order);
      if item.claim != "" {
        if item.claim !in byId {
          order := order + [item.claim];
          byId := byId[item.claim := []];
        }
        byId := byId[item.claim := byId[item.claim] + [item]];
      }
    }
    assert loaded[..|loaded|] == loaded;
  }

  lemma OneMoreClaim(loaded: seq<Loaded>, n: nat, byId: map<string, seq<Loaded>>, order: seq<string>)
    requires n < |loaded| && Grouped(loaded[..n], byId, order)
    ensures var item := loaded[n];
      if item.claim == "" then Grouped(loaded[..n + 1], byId, order)
      else if item.claim in byId then Grouped(loaded[..n + 1], byId[item.claim := byId[item.claim] + [item]], order)
      else Grouped(loaded[..n + 1], byId[item.claim := [item]], order + [item.claim])
  {
    hide FlatMap;
    var item := loaded[n];
    forall id
      ensures Claimants(loaded[..n + 1], id) == Claimants(loaded[..n], id) + if item.claim == id then [item] else []
    {
      FlatMapNext(loaded, n, ClaimOf(id));
    }
    assert loaded[..n + 1] == loaded[..n] + [item];
    if item.claim != "" && item.claim !in byId {
      NoClaimants(loaded[..n], item.claim);
    }
  }

  lemma {:induction false} NoClaimants(loaded: seq<Loaded>, id: string)
    requires forall item :: item in loaded ==> item.claim != id
    ensures Claimants(loaded, id) == []
  {
    if loaded != [] {
      NoClaimants(loaded[..|loaded| - 1], id);
    }
  }

  /** The reports for one id that is claimed more than once. */
  method ReportDuplicates(wording: Wording, id: string, claimants: seq<Loaded>) returns (reports: seq<Diagnostic>)
    requires forall item :: item in claimants ==> item.claim == id
    ensures reports == FlatMap(claimants, ReportAmong(wording, claimants))
  {
    reports := [];
    var files := Sort(FlatMap(claimants, SourceOf()), Itself);
    for n := 0 to |claimants|
      invariant reports == FlatMap(claimants[..n], ReportAmong(wording, claimants))
    {
      FlatMapNext(claimants, n, ReportAmong(wording, claimants));
      var item := claimants[n];
      reports := reports + [Diagnostic(id, item.source, "", wording(id, Others(files, item.source), |claimants|))];
    }
    assert claimants[..|claimants|] == claimants;
  }

  function ReportAmong(wording: Wording, claimants: seq<Loaded>): Loaded -> seq<Diagnostic> {
    (item: Loaded) => [Report(wording, claimants, item)]
  }

  method ReportAllDuplicates(wording: Wording, loaded: seq<Loaded>, byId: map<string, seq<Loaded>>, order: seq<string>)
    returns (reports: seq<Diagnostic>)
    requires Grouped(loaded, byId, order)
    ensures multiset(reports) == multiset(FlatMap(loaded, Duplicates(wording, loaded, byId.Keys)))
  {
    hide FlatMap, Claimants, Duplicates, ReportAmong;
    reports := [];
    ghost var done := {};
    NoneDoneYet(wording, loaded);
    for n := 0 to |order|
      invariant done == (set id | id in order[..n])
      invariant multiset(reports) == multiset(FlatMap(loaded, Duplicates(wording, loaded, done)))
    {
      var id := order[n];
      assert order[..n + 1] == order[..n] + [id];
      assert id !in done && id in byId;
      var claimants := byId[id];
      OneMoreIdDone(wording, loaded, done, id);
      if |claimants| > 1 {
        var more := ReportDuplicates(wording, id, claimants);
        reports := reports + more;
      }
      done := done + {id};
    }
    assert order[..|order|] == order;
    assert done == byId.Keys;
  }

  lemma {:induction false} NoneDoneYet(wording: Wording, loaded: seq<Loaded>)
    ensures FlatMap(loaded, Duplicates(wording, loaded, {})) == []
  {
    NothingFrom(loaded, Duplicates(wording, loaded, {}));
  }

  lemma {:induction false} NothingFrom<S, T>(items: seq<S>, f: S -> seq<T>)
    requires forall x :: x in items ==> f(x) == []
    ensures FlatMap(items, f) == []
  {
    if items != [] {
      NothingFrom(items[..|items| - 1], f);
    }
  }

  /** The reports of one id more are the ones its claimants get. */
  lemma OneMoreIdDone(wording: Wording, loaded: seq<Loaded>, done: set<string>, id: string)
    requires id !in done && id != ""
    ensures multiset(FlatMap(loaded, Duplicates(wording, loaded, done + {id}))) ==
      multiset(FlatMap(loaded, Duplicates(wording, loaded, done)))
      + if |Claimants(loaded, id)| > 1
        then multiset(FlatMap(Claimants(loaded, id), ReportAmong(wording, Claimants(loaded, id))))
        else multiset{}
  {
    hide FlatMap, Report, Claimants;
    DuplicatesAdd(wording, loaded, done, id);
    if Duplicated(loaded, id) {
      ClaimantsAlone(loaded, id, ReportAmong(wording, Claimants(loaded, id)), Duplicates(wording, loaded, {id}));
    } else {
      NothingFrom(loaded, Duplicates(wording, loaded, {id}));
    }
  }

  lemma DuplicatesAdd(wording: Wording, loaded: seq<Loaded>, done: set<string>, id: string)
    requires id !in done
    ensures multiset(FlatMap(loaded, Duplicates(wording, loaded, done + {id}))) ==
      multiset(FlatMap(loaded, Duplicates(wording, loaded, done))) + multiset(FlatMap(loaded, Duplicates(wording, loaded, {id})))
  {
    hide FlatMap, Report, Claimants, Duplicated;
    FlatMapAdds(loaded, Duplicates(wording, loaded, done), Duplicates(wording, loaded, {id}), Duplicates(wording, loaded, done + {id}));
  }

  lemma {:induction false} ClaimantsAlone<T>(loaded: seq<Loaded>, id: string, f: Loaded -> seq<T>, g: Loaded -> seq<T>)
    requires forall item :: item in loaded ==> g(item) == if item.claim == id then f(item) else []
    ensures FlatMap(loaded, g) == FlatMap(Claimants(loaded, id), f)
  {
    if loaded != [] {
      hide FlatMap, Claimants;
      var front, last := loaded[..|loaded| - 1], loaded[|loaded| - 1];
      ClaimantsAlone(front, id, f, g);
      FlatMapLast(loaded, g);
      LastClaimant(loaded, id);
      if last.claim == id {
        FlatMapLast(Claimants(loaded, id), f);
      }
    }
  }

  lemma FlatMapLast<S, T>(items: seq<S>, f: S -> seq<T>)
    requires items != []
    ensures FlatMap(items, f) == FlatMap(items[..|items| - 1], f) + f(items[|items| - 1])
  {
  }

  lemma LastClaimant(loaded: seq<Loaded>, id: string)
    requires loaded != []
    ensures var front, last, r := loaded[..|loaded| - 1], loaded[|loaded| - 1], Claimants(loaded, id);
      if last.claim == id then r != [] && r[..|r| - 1] == Claimants(front, id) && r[|r| - 1] == last
      else r == Claimants(front, id)
  {
    hide FlatMap;
    FlatMapLast(loaded, ClaimOf(id));
  }

  /**
   Cross-definition rules, then the listing order. Each file adds what it adds whatever came before
   it, and both lists come out sorted.
   */
  method Resolve(wording: Wording, loaded: seq<Loaded>) returns (workflows: seq<Definition>, diagnostics: seq<Diagnostic>)
    requires forall item :: item in loaded ==> item.Sound()
    ensures workflows == ResolvedWorkflows(loaded)
    ensures diagnostics == ResolvedDiagnostics(wording, loaded)
  {
    diagnostics := [];
    for n := 0 to |loaded|
      invariant diagnostics == FlatMap(loaded[..n], Problems())
    {
      FlatMapNext(loaded, n, Problems());
      diagnostics := diagnostics + loaded[n].problems;
    }
    assert loaded[..|loaded|] == loaded;
    var byId, order := GroupByClaim(loaded);
    var reports := ReportAllDuplicates(wording, loaded, byId, order);
    diagnostics := diagnostics + reports;
    workflows := [];
    for n := 0 to |loaded|
      invariant workflows == FlatMap(loaded[..n], Accepted(loaded))
    {
      FlatMapNext(loaded, n, Accepted(loaded));
      var item := loaded[n];
      if item.definition.Some? {
        assert item.Sound() && item in loaded;
        if |byId[item.definition.value.id]| <= 1 {
          workflows := workflows + [item.definition.value];
        }
      }
    }
    workflows := Sort(workflows, ById);
    EverythingIsReported(wording, loaded, byId.Keys);
    PlacesTellApart(multiset(diagnostics));
    SortForgetsOrder(diagnostics, FlatMap(loaded, Reported(wording, loaded)), InPlace);
    diagnostics := Sort(diagnostics, InPlace);
  }

  lemma EverythingIsReported(wording: Wording, loaded: seq<Loaded>, ids: set<string>)
    requires forall item :: item in loaded && item.claim != "" ==> item.claim in ids
    ensures multiset(FlatMap(loaded, Reported(wording, loaded))) ==
      multiset(FlatMap(loaded, Problems())) + multiset(FlatMap(loaded, Duplicates(wording, loaded, ids)))
  {
    hide FlatMap, Report;
    FlatMapAdds(loaded, Problems(), Duplicates(wording, loaded, ids), Reported(wording, loaded));
  }

  lemma PlacesTellApart(diagnostics: multiset<Diagnostic>)
    ensures TellsApart(diagnostics, InPlace)
  {
  }

  // ----- what the result guarantees -----

  /** A definition loads exactly when some file holds it and no other file claims its id, broken ones included. */
  lemma LoadsExactlyWhenSoleClaimant(loaded: seq<Loaded>, definition: Definition)
    requires forall item :: item in loaded ==> item.Sound()
    ensures definition in ResolvedWorkflows(loaded) <==>
      exists i :: 0 <= i < |loaded| && loaded[i].definition == Some(definition) && SoleClaimant(loaded, i)
  {
    hide Claimants;
    assert definition in ResolvedWorkflows(loaded) <==> definition in FlatMap(loaded, Accepted(loaded)) by {
      assert definition in multiset(ResolvedWorkflows(loaded)) <==> definition in multiset(FlatMap(loaded, Accepted(loaded)));
    }
    InFlatMap(loaded, Accepted(loaded), definition);
    forall i | 0 <= i < |loaded| && loaded[i].definition == Some(definition)
      ensures SoleClaimant(loaded, i) <==> definition in Accepted(loaded)(loaded[i])
    {
      assert loaded[i].Sound();
      CountsOtherClaimants(loaded, i);
    }
  }

  ghost predicate SoleClaimant(loaded: seq<Loaded>, i: nat)
    requires i < |loaded|
  {
    forall j :: 0 <= j < |loaded| && j != i ==> loaded[j].claim != loaded[i].claim
  }

  lemma {:induction false} CountsOtherClaimants(loaded: seq<Loaded>, i: nat)
    requires i < |loaded| && loaded[i].claim != ""
    ensures Duplicated(loaded, loaded[i].claim) <==> !SoleClaimant(loaded, i)
  {
    hide Claimants;
    var front, last, id := loaded[..|loaded| - 1], loaded[|loaded| - 1], loaded[i].claim;
    LastClaimant(loaded, id);
    if i < |front| {
      CountsOtherClaimants(front, i);
      assert front[i] in Claimants(front, id);
      assert SoleClaimant(loaded, i) <==> SoleClaimant(front, i) && last.claim != id;
    } else {
      var before := Claimants(front, id);
      if |before| > 0 {
        assert before[0] in before;
        var j :| 0 <= j < |front| && front[j] == before[0];
        assert loaded[j].claim == id;
      } else {
        forall j | 0 <= j < |front|
          ensures loaded[j].claim != id
        {
          assert front[j] in front && front[j] !in before;
        }
      }
    }
  }

  /** The listed ids strictly increase, in code point order. */
  lemma IdsStrictlyIncrease(loaded: seq<Loaded>, i: nat, j: nat)
    requires forall item :: item in loaded ==> item.Sound()
    requires i < j < |ResolvedWorkflows(loaded)|
    ensures var r := ResolvedWorkflows(loaded); AtMost(r[i].id, r[j].id) && r[i].id != r[j].id
  {
    var r := ResolvedWorkflows(loaded);
    SortSorts(FlatMap(loaded, Accepted(loaded)), ById);
    assert KeyAtMost(ById(r[i]), ById(r[j]));
    StringsAreOrdered(r[i].id, r[j].id);
    assert loaded[..|loaded|] == loaded;
    AcceptedOnce(loaded, |loaded|, r[i]);
    if r[i].id == r[j].id {
      SameIdSameDefinition(loaded, r[i], r[j]);
      TwiceIsTwice(r, i, j);
    }
  }

  /** Diagnostics are listed by workflow, then by file, then by field, then by message. */
  lemma DiagnosticsAreInOrder(wording: Wording, loaded: seq<Loaded>, i: nat, j: nat)
    requires i < j < |ResolvedDiagnostics(wording, loaded)|
    ensures var r := ResolvedDiagnostics(wording, loaded); var (a, b) := (r[i], r[j]);
      if a.workflowId != b.workflowId then AtMost(a.workflowId, b.workflowId)
      else if a.source != b.source then AtMost(a.source, b.source)
      else if a.fieldId != b.fieldId then AtMost(a.fieldId, b.fieldId)
      else AtMost(a.message, b.message)
  {
    hide FlatMap, AtMost, KeyAtMost;
    var r := ResolvedDiagnostics(wording, loaded);
    SortSorts(FlatMap(loaded, Reported(wording, loaded)), InPlace);
    assert KeyAtMost(InPlace(r[i]), InPlace(r[j]));
    KeysOfFour(InPlace(r[i]), InPlace(r[j]));
  }

  lemma {:induction false} OthersAre(files: seq<string>, source: string)
    ensures forall file :: file in Others(files, source) <==> file in files && file != source
  {
    if files != [] {
      OthersAre(files[1..], source);
    }
  }

  lemma {:induction false} OthersStaySorted(files: seq<string>, source: string)
    requires Sorted(files, Itself)
    ensures Sorted(Others(files, source), Itself)
  {
    if files != [] {
      var rest := Others(files[1..], source);
      OthersStaySorted(files[1..], source);
      OthersAre(files[1..], source);
      forall j | 0 <= j < |rest|
        ensures KeyAtMost(Itself(files[0]), Itself(rest[j]))
      {
        assert rest[j] in files[1..];
        var k :| 0 <= k < |files[1..]| && files[1..][k] == rest[j];
        assert files[k + 1] == rest[j];
      }
    }
  }

  /** A report goes to its own file and names exactly the other files that claim the id, in order. */
  lemma ReportNamesTheOthers(wording: Wording, claimants: seq<Loaded>, item: Loaded)
    ensures exists others :: AreTheOthers(claimants, item, others) && Report(wording, claimants, item) == Naming(wording, claimants, item, others)
  {
    hide FlatMap, KeyAtMost, Others, Sort;
    var files := Files(claimants);
    var others := Others(files, item.source);
    SortSorts(FlatMap(claimants, SourceOf()), Itself);
    OthersAre(files, item.source);
    OthersStaySorted(files, item.source);
    forall file
      ensures file in others <==> file != item.source && exists c :: c in claimants && c.source == file
    {
      InFlatMap(claimants, SourceOf(), file);
      assert file in files <==> file in multiset(files);
      assert file in FlatMap(claimants, SourceOf()) <==> file in multiset(FlatMap(claimants, SourceOf()));
    }
    assert AreTheOthers(claimants, item, others);
  }

  ghost function Naming(wording: Wording, claimants: seq<Loaded>, item: Loaded, others: seq<string>): Diagnostic {
    Diagnostic(item.claim, item.source, "", wording(item.claim, others, |claimants|))
  }

  ghost predicate AreTheOthers(claimants: seq<Loaded>, item: Loaded, others: seq<string>) {
    && Sorted(others, Itself)
    && forall file :: file in others <==> file != item.source && exists c :: c in claimants && c.source == file
  }

  lemma SameIdSameDefinition(loaded: seq<Loaded>, x: Definition, y: Definition)
    requires forall item :: item in loaded ==> item.Sound()
    requires x in ResolvedWorkflows(loaded) && y in ResolvedWorkflows(loaded) && x.id == y.id
    ensures x == y
  {
    hide ResolvedWorkflows;
    LoadsExactlyWhenSoleClaimant(loaded, x);
    LoadsExactlyWhenSoleClaimant(loaded, y);
    var i :| 0 <= i < |loaded| && loaded[i].definition == Some(x) && SoleClaimant(loaded, i);
    var j :| 0 <= j < |loaded| && loaded[j].definition == Some(y) && SoleClaimant(loaded, j);
    assert loaded[i].Sound() && loaded[j].Sound();
  }

  lemma TwiceIsTwice<T>(items: seq<T>, i: nat, j: nat)
    requires i < j < |items| && items[i] == items[j]
    ensures multiset(items)[items[i]] >= 2
  {
    assert items == items[..j] + items[j..];
    assert items[i] in items[..j] && items[i] in items[j..];
    assert multiset(items) == multiset(items[..j]) + multiset(items[j..]);
    assert multiset(items[..j])[items[i]] > 0 && multiset(items[j..])[items[i]] > 0;
  }

  lemma {:induction false} AcceptedOnce(loaded: seq<Loaded>, n: nat, d: Definition)
    requires n <= |loaded| && forall item :: item in loaded ==> item.Sound()
    ensures multiset(FlatMap(loaded[..n], Accepted(loaded)))[d] <= 1
  {
    hide FlatMap, Claimants, Duplicated;
    if n == 0 {
      assert loaded[..0] == [];
      NothingFrom(loaded[..0], Accepted(loaded));
    } else {
      AcceptedOnce(loaded, n - 1, d);
      FlatMapNext(loaded, n - 1, Accepted(loaded));
      if d in Accepted(loaded)(loaded[n - 1]) {
        NotAcceptedBefore(loaded, n - 1, d);
      }
    }
  }

  lemma NotAcceptedBefore(loaded: seq<Loaded>, n: nat, d: Definition)
    requires n < |loaded| && (forall item :: item in loaded ==> item.Sound()) && d in Accepted(loaded)(loaded[n])
    ensures d !in FlatMap(loaded[..n], Accepted(loaded))
  {
    hide FlatMap, Claimants, Duplicated;
    assert loaded[n].Sound();
    CountsOtherClaimants(loaded, n);
    InFlatMap(loaded[..n], Accepted(loaded), d);
    forall x | x in loaded[..n]
      ensures d !in Accepted(loaded)(x)
    {
      var j :| 0 <= j < n && loaded[j] == x;
      assert loaded[j].claim != loaded[n].claim && x.Sound();
    }
  }

  /** However the files are found, the same workflows and the same diagnostics are listed in the same order. */
  lemma OrderOfDiscoveryIsIrrelevant(wording: Wording, loaded: seq<Loaded>, other: seq<Loaded>)
    requires (forall item :: item in loaded ==> item.Sound()) && multiset(loaded) == multiset(other)
    ensures ResolvedWorkflows(loaded) == ResolvedWorkflows(other)
    ensures ResolvedDiagnostics(wording, loaded) == ResolvedDiagnostics(wording, other)
  {
    hide FlatMap, Accepted, Reported;
    ContributionsForgetOrder(wording, loaded, other);
    DefinitionsAreToldApart(loaded);
    SortForgetsOrder(FlatMap(loaded, Accepted(loaded)), FlatMap(other, Accepted(other)), ById);
    PlacesTellApart(multiset(FlatMap(loaded, Reported(wording, loaded))));
    SortForgetsOrder(FlatMap(loaded, Reported(wording, loaded)), FlatMap(other, Reported(wording, other)), InPlace);
  }

  lemma DefinitionsAreToldApart(loaded: seq<Loaded>)
    requires forall item :: item in loaded ==> item.Sound()
    ensures TellsApart(multiset(FlatMap(loaded, Accepted(loaded))), ById)
  {
    hide FlatMap, Accepted;
    var all := multiset(FlatMap(loaded, Accepted(loaded)));
    forall x, y | x in all && y in all && ById(x) == ById(y)
      ensures x == y
    {
      assert x in multiset(ResolvedWorkflows(loaded)) && y in multiset(ResolvedWorkflows(loaded));
      assert ById(x)[0] == ById(y)[0];
      SameIdSameDefinition(loaded, x, y);
    }
  }

  /** Each file adds the same, and what they add together is the same but for the order. */
  lemma ContributionsForgetOrder(wording: Wording, loaded: seq<Loaded>, other: seq<Loaded>)
    requires (forall item :: item in loaded ==> item.Sound()) && multiset(loaded) == multiset(other)
    ensures multiset(FlatMap(loaded, Accepted(loaded))) == multiset(FlatMap(other, Accepted(other)))
    ensures multiset(FlatMap(loaded, Reported(wording, loaded))) == multiset(FlatMap(other, Reported(wording, other)))
  {
    hide FlatMap, Report, Duplicated;
    forall item | item in loaded
      ensures Accepted(loaded)(item) == Accepted(other)(item)
      ensures Reported(wording, loaded)(item) == Reported(wording, other)(item)
    {
      ClaimantsForgetOrder(wording, loaded, other, item);
      assert item.Sound();
    }
    FlatMapAgrees(loaded, Accepted(loaded), Accepted(other));
    FlatMapAgrees(loaded, Reported(wording, loaded), Reported(wording, other));
    FlatMapForgetsOrder(loaded, other, Accepted(other));
    FlatMapForgetsOrder(loaded, other, Reported(wording, other));
  }

  lemma ClaimantsForgetOrder(wording: Wording, loaded: seq<Loaded>, other: seq<Loaded>, item: Loaded)
    requires multiset(loaded) == multiset(other)
    ensures Duplicated(loaded, item.claim) == Duplicated(other, item.claim)
    ensures Report(wording, Claimants(loaded, item.claim), item) == Report(wording, Claimants(other, item.claim), item)
  {
    hide FlatMap;
    var id := item.claim;
    FlatMapForgetsOrder(loaded, other, ClaimOf(id));
    SameLength(Claimants(loaded, id), Claimants(other, id));
    FlatMapForgetsOrder(Claimants(loaded, id), Claimants(other, id), SourceOf());
    var files := FlatMap(Claimants(loaded, id), SourceOf());
    forall x: string, y: string | Itself(x) == Itself(y)
      ensures x == y
    {
      assert Itself(x)[0] == Itself(y)[0];
    }
    SortForgetsOrder(files, FlatMap(Claimants(other, id), SourceOf()), Itself);
  }

  /** No file is dropped silently: its definition loads, or a diagnostic names the file. */
  lemma NothingVanishes(wording: Wording, loaded: seq<Loaded>, item: Loaded)
    requires (forall each :: each in loaded ==> each.Sound()) && item in loaded
    ensures (item.definition.Some? && item.definition.value in ResolvedWorkflows(loaded))
      || exists d :: d in ResolvedDiagnostics(wording, loaded) && d.source == item.source
  {
    hide FlatMap, Claimants;
    assert item.Sound();
    if item.definition.Some? && !Duplicated(loaded, item.claim) {
      assert item.definition.value in Accepted(loaded)(item);
      InFlatMap(loaded, Accepted(loaded), item.definition.value);
      assert item.definition.value in multiset(ResolvedWorkflows(loaded));
    } else {
      var mine := Reported(wording, loaded)(item);
      assert mine != [] && mine[0] in mine && mine[0].source == item.source;
      InFlatMap(loaded, Reported(wording, loaded), mine[0]);
      assert mine[0] in multiset(ResolvedDiagnostics(wording, loaded));
    }
  }
}
