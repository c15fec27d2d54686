/** The breadth-first check of the installed requirement tree, against the least closed set of what is required. */
module InstalledTree {
  import opened Prelude
  import opened Versions
  import opened Markers

  /** One requirement string as split: its marker is `None` when there is no `;`. */
  datatype Requirement =
    | Unreadable
    | Requirement(name: string, extras: set<string>, clauses: seq<Clause>, marker: Option<Marker>)

  datatype Distribution = Distribution(version: Installed, needs: seq<Requirement>)

  /** The environment: the gateway's own record, the extras asked of it, and everything installed. */
  datatype Environment = Environment(
    host: Host,
    record: Distribution,
    extras: set<string>,
    installed: map<string, Distribution>)

  /** What is visited once: a name and the extras asked of it. */
  type Asked = (string, set<string>)

  const GATEWAY := "localcanvas-gateway"

  function Root(env: Environment): Asked {
    (GATEWAY, env.extras)
  }

  predicate Present(env: Environment, asked: Asked) {
    asked == Root(env) || asked.0 in env.installed
  }

  function Lookup(env: Environment, asked: Asked): Distribution
    requires Present(env, asked)
  {
    if asked == Root(env) then env.record else env.installed[asked.0]
  }

  /** Does this requirement apply to a distribution asked for with `extras`? `None`: cannot be decided. */
  ghost function Wanted(env: Environment, extras: set<string>, item: Requirement): Option<bool> {
    if item.Unreadable? then None
    else if item.marker.None? then Some(true)
    else Applies(env.host, item.marker.value, extras)
  }

  /** Readable and decidable, and if it applies, installed at a version that satisfies it. */
  ghost predicate Met(env: Environment, extras: set<string>, item: Requirement) {
    Wanted(env, extras, item).Some?
    && (Wanted(env, extras, item).value ==>
          item.name in env.installed && Satisfies(env.installed[item.name].version, item.clauses) == Some(true))
  }

  /** An applicable requirement leads to the distribution it names, with the extras it asks for. */
  ghost predicate LeadsTo(env: Environment, from: Asked, i: nat, to: Asked)
    requires Present(env, from)
  {
    var needs := Lookup(env, from).needs;
    i < |needs|
    && Wanted(env, from.1, needs[i]) == Some(true)
    && needs[i].name in env.installed
    && to == (needs[i].name, needs[i].extras)
  }

  ghost predicate Closed(env: Environment, s: set<Asked>) {
    && Root(env) in s
    && (forall asked :: asked in s ==> Present(env, asked))
    && (forall asked, i: nat, to :: asked in s && LeadsTo(env, asked, i, to) ==> to in s)
  }

  /** In every closed set, and so in the least one. */
  ghost predicate Required(env: Environment, asked: Asked) {
    forall s :: Closed(env, s) ==> asked in s
  }

  ghost predicate AllMet(env: Environment, asked: Asked)
    requires Present(env, asked)
  {
    forall i :: 0 <= i < |Lookup(env, asked).needs| ==> Met(env, asked.1, Lookup(env, asked).needs[i])
  }

  /** Every requirement of everything required is met. */
  ghost predicate Healthy(env: Environment) {
    forall asked :: Required(env, asked) && Present(env, asked) ==> AllMet(env, asked)
  }

  // ----- there is a closed set, and it is finite -----

  function Needs(env: Environment): set<Distribution> {
    {env.record} + env.installed.Values
  }

  function Universe(env: Environment): set<Asked> {
    {Root(env)}
    + set d, i | d in Needs(env) && 0 <= i < |d.needs| && d.needs[i].Requirement? && d.needs[i].name in env.installed
        :: (d.needs[i].name, d.needs[i].extras)
  }

  lemma LeadsIntoUniverse(env: Environment, asked: Asked, i: nat, to: Asked)
    requires Present(env, asked) && LeadsTo(env, asked, i, to)
    ensures to in Universe(env)
  {
    var d := Lookup(env, asked);
    assert d in Needs(env);
    assert d.needs[i].Requirement?;
  }

  lemma RequiredLeadsOn(env: Environment, asked: Asked, i: nat, to: Asked)
    requires Present(env, asked) && Required(env, asked) && LeadsTo(env, asked, i, to)
    ensures Required(env, to) && Present(env, to)
  {
  }

  lemma UniverseIsClosed(env: Environment)
    ensures Closed(env, Universe(env))
  {
    forall asked, i: nat, to | asked in Universe(env) && LeadsTo(env, asked, i, to)
      ensures to in Universe(env)
    {
      LeadsIntoUniverse(env, asked, i, to);
    }
  }

  // ----- the check -----

  datatype Problem =
    | CannotBeChecked(item: Requirement)
    | NotInstalled(name: string)
    | VersionUndecided(name: string)
    | VersionUnmet(name: string)

  /** This is what is wrong with a requirement: it, its version or its marker cannot be decided, or it is not met. */
  ghost predicate IsProblem(env: Environment, extras: set<string>, item: Requirement, problem: Problem) {
    if Wanted(env, extras, item).None? then problem == CannotBeChecked(item)
    else
      && Wanted(env, extras, item).value
      && if item.name !in env.installed then problem == NotInstalled(item.name)
         else
           var verdict := Satisfies(env.installed[item.name].version, item.clauses);
           verdict != Some(true) && problem == if verdict.None? then VersionUndecided(item.name) else VersionUnmet(item.name)
  }

  /** The first of a distribution's requirements that is not met, and what is wrong with it. */
  ghost predicate IsFirstProblem(env: Environment, asked: Asked, n: nat, problem: Problem)
    requires Present(env, asked)
  {
    var needs := Lookup(env, asked).needs;
    n < |needs| && IsProblem(env, asked.1, needs[n], problem) && forall i :: 0 <= i < n ==> Met(env, asked.1, needs[i])
  }

  method CheckItem(env: Environment, extras: set<string>, item: Requirement) returns (problem: Option<Problem>, wanted: bool)
    ensures problem.None? <==> Met(env, extras, item)
    ensures problem.Some? ==> IsProblem(env, extras, item, problem.value)
    ensures problem.None? ==> Wanted(env, extras, item) == Some(wanted)
    ensures problem.None? && wanted ==> item.Requirement? && item.name in env.installed
  {
    wanted := true;
    if item.Unreadable? {
      return Some(CannotBeChecked(item)), false;
    }
    if item.marker.Some? {
      var applies := MarkerApplies(env.host, item.marker.value, extras);
      if applies.None? {
        return Some(CannotBeChecked(item)), false;
      }
      if !applies.value {
        return None, false;
      }
    }
    if item.name !in env.installed {
      return Some(NotInstalled(item.name)), true;
    }
    var verdict := Satisfies(env.installed[item.name].version, item.clauses);
    if verdict.None? {
      return Some(VersionUndecided(item.name)), true;
    }
    if !verdict.value {
      return Some(VersionUnmet(item.name)), true;
    }
    return None, true;
  }

  /** Everything met, and everything it leads to seen. */
  ghost predicate Visited(env: Environment, seen: set<Asked>, asked: Asked) {
    && Present(env, asked) && AllMet(env, asked)
    && forall i: nat, to :: LeadsTo(env, asked, i, to) ==> to in seen
  }

  /** Only what is required is ever seen, and what is seen but not queued has been visited. */
  ghost predicate Progress(env: Environment, seen: set<Asked>, queue: seq<Asked>) {
    && seen <= Universe(env)
    && Root(env) in seen
    && (forall asked :: asked in seen ==> Present(env, asked) && Required(env, asked))
    && (forall asked :: asked in queue ==> asked in seen)
    && (forall asked :: asked in seen && asked !in queue ==> Visited(env, seen, asked))
  }

  /** The loop over one distribution's requirements: the first problem, or everything new in the queue. */
  method VisitOne(env: Environment, asked: Asked, seen: set<Asked>, queue: seq<Asked>)
    returns (problem: Option<Problem>, seen': set<Asked>, queue': seq<Asked>)
    requires Present(env, asked) && Required(env, asked) && asked in seen && seen <= Universe(env)
    ensures problem.Some? ==> !AllMet(env, asked) && exists n :: IsFirstProblem(env, asked, n, problem.value)
    ensures problem.None? ==> Visited(env, seen', asked)
    ensures seen <= seen' <= Universe(env)
    ensures forall a :: a in seen' && a !in seen ==> a in queue' && Present(env, a) && Required(env, a)
    ensures seen' == seen ==> queue' == queue
    ensures queue <= queue' && forall a :: a in queue' ==> a in queue || a in seen'
  {
    hide Required, Universe, Met, IsProblem;
    seen', queue' := seen, queue;
    var needs := Lookup(env, asked).needs;
    for n := 0 to |needs|
      invariant seen <= seen' <= Universe(env)
      invariant forall a :: a in seen' && a !in seen ==> a in queue' && Present(env, a) && Required(env, a)
      invariant seen' == seen ==> queue' == queue
      invariant queue <= queue' && forall a :: a in queue' ==> a in queue || a in seen'
      invariant forall i :: 0 <= i < n ==> Met(env, asked.1, needs[i])
      invariant forall i: nat, to :: i < n && LeadsTo(env, asked, i, to) ==> to in seen'
    {
      var wanted;
      problem, wanted := CheckItem(env, asked.1, needs[n]);
      if problem.Some? {
        assert IsFirstProblem(env, asked, n, problem.value);
        return;
      }
      if wanted {
        var key := (needs[n].name, needs[n].extras);
        assert LeadsTo(env, asked, n, key);
        if key !in seen' {
          LeadsIntoUniverse(env, asked, n, key);
          RequiredLeadsOn(env, asked, n, key);
          seen' := seen' + {key};
          queue' := queue' + [key];
        }
      }
    }
    return None, seen', queue';
  }

  /**
   Breadth first from the gateway's record, each (distribution, extras) once. It ends on every
   environment, cyclic or not, and finds nothing exactly when the least closed set is healthy.
   */
  method UnsatisfiedRequirement(env: Environment) returns (problem: Option<Problem>)
    ensures problem.None? <==> Healthy(env)
    ensures problem.Some? ==>
      exists asked, n :: Required(env, asked) && Present(env, asked) && IsFirstProblem(env, asked, n, problem.value)
  {
    var queue := [Root(env)];
    var seen := {Root(env)};
    problem := None;
    while queue != []
      invariant problem.None? && Progress(env, seen, queue)
      decreases Universe(env) - seen, |queue|
    {
      var asked, rest := queue[0], queue[1..];
      assert queue == [asked] + rest;
      var seen', queue';
      problem, seen', queue' := VisitOne(env, asked, seen, rest);
      if problem.Some? {
        assert Required(env, asked) && Present(env, asked);
        return;
      }
      ProgressKept(env, seen, queue, seen', queue');
      seen, queue := seen', queue';
    }
    SeenIsTheLeastSet(env, seen);
  }

  lemma ProgressKept(env: Environment, seen: set<Asked>, queue: seq<Asked>, seen': set<Asked>, queue': seq<Asked>)
    requires queue != [] && Progress(env, seen, queue)
    requires Visited(env, seen', queue[0]) && seen <= seen' <= Universe(env) && queue[1..] <= queue'
    requires forall a :: a in seen' && a !in seen ==> a in queue' && Present(env, a) && Required(env, a)
    requires forall a :: a in queue' ==> a in queue[1..] || a in seen'
    ensures Progress(env, seen', queue')
  {
  }

  lemma SeenIsTheLeastSet(env: Environment, seen: set<Asked>)
    requires Progress(env, seen, [])
    ensures Closed(env, seen) && (forall asked :: asked in seen <==> Required(env, asked)) && Healthy(env)
  {
    assert forall asked :: asked in seen ==> Visited(env, seen, asked);
    assert Closed(env, seen);
  }

  // ----- more extras at the root -----

  /** The gateway's record is what is installed under its name. */
  ghost predicate RecordIsInstalled(env: Environment) {
    GATEWAY in env.installed && env.installed[GATEWAY] == env.record
  }

  lemma MoreExtrasLeadFurther(env: Environment, more: set<string>, asked: Asked, i: nat, to: Asked)
    requires RecordIsInstalled(env) && env.extras <= more && Present(env, asked)
    requires LeadsTo(env, asked, i, to)
    ensures var wider := env.(extras := more);
      Present(wider, asked)
      && if asked == Root(env) then LeadsTo(wider, Root(wider), i, to) else LeadsTo(wider, asked, i, to)
  {
    var item := Lookup(env, asked).needs[i];
    if item.marker.Some? {
      MoreExtrasApplyMore(env.host, item.marker.value, env.extras, more);
    }
  }

  /** Asking the root for more extras only grows what is required. */
  lemma MoreExtrasRequireMore(env: Environment, more: set<string>, asked: Asked)
    requires RecordIsInstalled(env) && env.extras <= more && Required(env, asked) && asked != Root(env)
    ensures Required(env.(extras := more), asked)
  {
    var wider := env.(extras := more);
    forall s | Closed(wider, s)
      ensures asked in s
    {
      var narrower := s + {Root(env)};
      forall a, i: nat, to | a in narrower && LeadsTo(env, a, i, to)
        ensures to in narrower
      {
        assert a in s || a == Root(env);
        assert a in s ==> Present(wider, a);
        MoreExtrasLeadFurther(env, more, a, i, to);
      }
      assert Closed(env, narrower);
    }
  }

  /** So an environment that is healthy with more extras is healthy with fewer. */
  lemma HealthyWithFewerExtras(env: Environment, more: set<string>)
    requires RecordIsInstalled(env) && env.extras <= more && Healthy(env.(extras := more))
    ensures Healthy(env)
  {
    var wider := env.(extras := more);
    forall asked | Required(env, asked) && Present(env, asked)
      ensures AllMet(env, asked)
    {
      if asked == Root(env) {
        assert Required(wider, Root(wider)) && AllMet(wider, Root(wider));
        forall i | 0 <= i < |env.record.needs|
          ensures Met(env, env.extras, env.record.needs[i])
        {
          var item := env.record.needs[i];
          assert item == Lookup(wider, Root(wider)).needs[i];
          assert Met(wider, more, item);
          if item.Requirement? && item.marker.Some? {
            MoreExtrasApplyMore(env.host, item.marker.value, env.extras, more);
          }
        }
      } else {
        MoreExtrasRequireMore(env, more, asked);
        assert AllMet(wider, asked) && Lookup(wider, asked) == Lookup(env, asked);
        forall i | 0 <= i < |Lookup(env, asked).needs|
          ensures Met(env, asked.1, Lookup(env, asked).needs[i])
        {
          assert Met(wider, asked.1, Lookup(wider, asked).needs[i]);
        }
      }
    }
  }
}
