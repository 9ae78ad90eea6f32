/** The publish-order check of a release plan. */
module ReleasePlan {
  import opened RenderModel

  datatype PublishIntent = IntendedPublic | InternalNonPublishable

  /** `textOk`: every required string of the crate is non-blank. */
  datatype Crate = Crate(
    name: string,
    intent: PublishIntent,
    releaseStep: nat,
    dependsOn: seq<string>,
    textOk: bool)

  /** `schemaOk`, `headerOk` and `textOk` stand for the checks on schema, header and strings. */
  datatype Plan = Plan(
    schemaOk: bool,
    headerOk: bool,
    publishOutOfScope: bool,
    textOk: bool,
    publishOrder: seq<string>,
    crates: seq<Crate>)

  datatype PlanError =
    | WrongSchema
    | WrongHeader
    | PublishAuthorized
    | EmptyOrder
    | BlankText
    | InvalidCrate(index: nat)
    | RepeatedName(index: nat)
    | MissingFromOrder(name: string)
    | UnknownCrate(name: string)
    | NotPublic(name: string)
    | DependencyOutsideOrder(name: string, dependency: string)
    | DependencyLater(name: string, dependency: string)

  datatype Verdict = Accepted | Rejected(error: PlanError)

  predicate CrateOk(c: Crate) {
    c.textOk && (c.intent.IntendedPublic? ==> c.releaseStep != 0)
  }

  predicate DistinctNames(crates: seq<Crate>) {
    forall i, j :: 0 <= i < j < |crates| ==> crates[i].name != crates[j].name
  }

  /** Position of the last occurrence of a name, the one the index map keeps. */
  function LastIndex(order: seq<string>, name: string): (i: nat)
    requires name in order
    ensures i < |order| && order[i] == name
    ensures forall k :: i < k < |order| ==> order[k] != name
  {
    if order[|order| - 1] == name then |order| - 1 else LastIndex(order[..|order| - 1], name)
  }

  /** A dependency must be in the order, and not after the crate. */
  predicate DependencyOk(order: seq<string>, name: string, dependency: string)
    requires name in order
  {
    dependency in order && LastIndex(order, dependency) <= LastIndex(order, name)
  }

  predicate PublishableIn(plan: Plan, c: Crate)
    requires c.name in plan.publishOrder
  {
    && c.intent.IntendedPublic?
    && forall k :: 0 <= k < |c.dependsOn| ==> DependencyOk(plan.publishOrder, c.name, c.dependsOn[k])
  }

  predicate HeaderAccepted(plan: Plan) {
    plan.schemaOk && plan.headerOk && plan.publishOutOfScope && plan.publishOrder != [] && plan.textOk
  }

  /** What the check accepts, without loops. */
  predicate Accepts(plan: Plan) {
    && HeaderAccepted(plan)
    && (forall i :: 0 <= i < |plan.crates| ==> CrateOk(plan.crates[i]))
    && DistinctNames(plan.crates)
    && (forall i :: 0 <= i < |plan.crates| && plan.crates[i].intent.IntendedPublic? ==>
                      plan.crates[i].name in plan.publishOrder)
    && (forall k :: 0 <= k < |plan.publishOrder| ==> HasPublishable(plan, plan.publishOrder[k]))
  }

  predicate HasPublishable(plan: Plan, name: string) {
    exists i :: 0 <= i < |plan.crates| && plan.crates[i].name == name && name in plan.publishOrder &&
                PublishableIn(plan, plan.crates[i])
  }

  /* ----- what a rejection says ----- */

  /** The stages of the check, in order. */
  function Stage(error: PlanError): nat {
    match error
    case WrongSchema => 0
    case WrongHeader => 1
    case PublishAuthorized => 2
    case EmptyOrder => 3
    case BlankText => 4
    case InvalidCrate(_) => 5
    case RepeatedName(_) => 5
    case MissingFromOrder(_) => 6
    case _ => 7
  }

  predicate Passes(plan: Plan, stage: nat) {
    match stage
    case 0 => plan.schemaOk
    case 1 => plan.headerOk
    case 2 => plan.publishOutOfScope
    case 3 => plan.publishOrder != []
    case 4 => plan.textOk
    case 5 => DistinctNames(plan.crates) && forall i :: 0 <= i < |plan.crates| ==> CrateOk(plan.crates[i])
    case 6 =>
      forall i :: 0 <= i < |plan.crates| && plan.crates[i].intent.IntendedPublic? ==>
                    plan.crates[i].name in plan.publishOrder
    case _ => forall k :: 0 <= k < |plan.publishOrder| ==> HasPublishable(plan, plan.publishOrder[k])
  }

  predicate Describes(error: PlanError, plan: Plan) {
    match error
    case InvalidCrate(i) => i < |plan.crates| && !CrateOk(plan.crates[i])
    case RepeatedName(i) =>
      i < |plan.crates| && exists k :: 0 <= k < i && plan.crates[k].name == plan.crates[i].name
    case MissingFromOrder(name) =>
      && name !in plan.publishOrder
      && exists i :: 0 <= i < |plan.crates| && plan.crates[i].name == name && plan.crates[i].intent.IntendedPublic?
    case UnknownCrate(name) =>
      name in plan.publishOrder && forall i :: 0 <= i < |plan.crates| ==> plan.crates[i].name != name
    case NotPublic(name) =>
      && name in plan.publishOrder
      && exists i :: 0 <= i < |plan.crates| && plan.crates[i].name == name && !plan.crates[i].intent.IntendedPublic?
    case DependencyOutsideOrder(name, dependency) =>
      DependsOn(plan, name, dependency) && dependency !in plan.publishOrder
    case DependencyLater(name, dependency) =>
      && DependsOn(plan, name, dependency) && dependency in plan.publishOrder
      && LastIndex(plan.publishOrder, dependency) > LastIndex(plan.publishOrder, name)
    case _ => true
  }

  /** The error names a stage that fails, the first one, and what it says is true of the plan. */
  predicate FirstError(error: PlanError, plan: Plan) {
    && !Passes(plan, Stage(error)) && Describes(error, plan)
    && forall stage :: 0 <= stage < Stage(error) ==> Passes(plan, stage)
  }

  /* ----- the check as it runs ----- */

  ghost predicate IndexesOrder(index: map<string, nat>, order: seq<string>) {
    && (forall name :: name in index <==> name in order)
    && forall name :: name in order ==> index[name] == LastIndex(order, name)
  }

  method IndexOrder(order: seq<string>) returns (index: map<string, nat>)
    ensures IndexesOrder(index, order)
  {
    index := map[];
    for i := 0 to |order|
      invariant IndexesOrder(index, order[..i])
    {
      assert order[..i + 1] == order[..i] + [order[i]];
      assert order[..i + 1][..i] == order[..i];
      index := index[order[i] := i];
    }
    assert order[..|order|] == order;
  }

  ghost predicate NamesCrates(byName: map<string, Crate>, crates: seq<Crate>) {
    && (forall i :: 0 <= i < |crates| ==> crates[i].name in byName && byName[crates[i].name] == crates[i])
    && forall name :: name in byName ==> byName[name] in crates && byName[name].name == name
  }

  method CollectCrates(crates: seq<Crate>) returns (byName: map<string, Crate>, error: Option<PlanError>)
    ensures error.None? <==> DistinctNames(crates) && forall i :: 0 <= i < |crates| ==> CrateOk(crates[i])
    ensures error.None? ==> NamesCrates(byName, crates)
    ensures error.Some? ==>
              || (error.value.InvalidCrate? && error.value.index < |crates| && !CrateOk(crates[error.value.index]))
              || (error.value.RepeatedName? && error.value.index < |crates| &&
                  exists k :: 0 <= k < error.value.index && crates[k].name == crates[error.value.index].name)
  {
    byName := map[];
    for index := 0 to |crates|
      invariant DistinctNames(crates[..index])
      invariant forall i :: 0 <= i < index ==> CrateOk(crates[i])
      invariant NamesCrates(byName, crates[..index])
    {
      var krate := crates[index];
      if !CrateOk(krate) {
        return byName, Some(InvalidCrate(index));
      }
      if krate.name in byName {
        var i :| 0 <= i < index && crates[..index][i] == byName[krate.name];
        assert crates[i].name == crates[index].name;
        return byName, Some(RepeatedName(index));
      }
      assert crates[..index + 1] == crates[..index] + [krate];
      byName := byName[krate.name := krate];
    }
    assert crates[..|crates|] == crates;
    return byName, None;
  }

  method CheckDependencies(plan: Plan, krate: Crate, index: map<string, nat>) returns (error: Option<PlanError>)
    requires IndexesOrder(index, plan.publishOrder) && krate.name in plan.publishOrder
    requires krate.intent.IntendedPublic?
    requires krate in plan.crates
    ensures error.None? <==> PublishableIn(plan, krate)
    ensures error.Some? ==> Stage(error.value) == 7 && Describes(error.value, plan)
  {
    var crateIndex := index[krate.name];
    for k := 0 to |krate.dependsOn|
      invariant forall i :: 0 <= i < k ==> DependencyOk(plan.publishOrder, krate.name, krate.dependsOn[i])
    {
      var dependency := krate.dependsOn[k];
      assert krate.dependsOn[k] in krate.dependsOn;
      var i :| 0 <= i < |plan.crates| && plan.crates[i] == krate;
      assert DependsOn(plan, krate.name, dependency);
      if dependency !in index {
        return Some(DependencyOutsideOrder(krate.name, dependency));
      }
      if index[dependency] > crateIndex {
        return Some(DependencyLater(krate.name, dependency));
      }
    }
    return None;
  }

  method CheckOrder(plan: Plan, byName: map<string, Crate>, index: map<string, nat>) returns (error: Option<PlanError>)
    requires NamesCrates(byName, plan.crates) && IndexesOrder(index, plan.publishOrder)
    ensures error.None? <==> forall k :: 0 <= k < |plan.publishOrder| ==> HasPublishable(plan, plan.publishOrder[k])
    ensures error.Some? ==> Stage(error.value) == 7 && Describes(error.value, plan)
  {
    for k := 0 to |plan.publishOrder|
      invariant forall j :: 0 <= j < k ==> HasPublishable(plan, plan.publishOrder[j])
    {
      var name := plan.publishOrder[k];
      if name !in byName {
        assert !HasPublishable(plan, name);
        return Some(UnknownCrate(name));
      }
      var krate := byName[name];
      if !krate.intent.IntendedPublic? {
        assert !HasPublishable(plan, name);
        return Some(NotPublic(name));
      }
      var found := CheckDependencies(plan, krate, index);
      if found.Some? {
        assert !HasPublishable(plan, name);
        return found;
      }
      var i :| 0 <= i < |plan.crates| && plan.crates[i] == krate;
      assert HasPublishable(plan, name);
    }
    return None;
  }

  /** Accepts exactly the plans that `Accepts` describes; an error is the first one. */
  method Validate(plan: Plan) returns (verdict: Verdict)
    ensures verdict.Accepted? <==> Accepts(plan)
    ensures verdict.Rejected? ==> FirstError(verdict.error, plan)
  {
    if !plan.schemaOk { return Rejected(WrongSchema); }
    if !plan.headerOk { return Rejected(WrongHeader); }
    if !plan.publishOutOfScope { return Rejected(PublishAuthorized); }
    if plan.publishOrder == [] { return Rejected(EmptyOrder); }
    if !plan.textOk { return Rejected(BlankText); }
    var byName, error := CollectCrates(plan.crates);
    if error.Some? { return Rejected(error.value); }
    var index := IndexOrder(plan.publishOrder);
    for i := 0 to |plan.crates|
      invariant forall k :: 0 <= k < i && plan.crates[k].intent.IntendedPublic? ==>
                              plan.crates[k].name in plan.publishOrder
    {
      if plan.crates[i].intent.IntendedPublic? && plan.crates[i].name !in index {
        return Rejected(MissingFromOrder(plan.crates[i].name));
      }
    }
    error := CheckOrder(plan, byName, index);
    if error.Some? { return Rejected(error.value); }
    return Accepted;
  }

  /* ----- what acceptance means ----- */

  /** The ordered crate `a` depends directly on `b`. */
  predicate DependsOn(plan: Plan, a: string, b: string) {
    && a in plan.publishOrder
    && exists i :: 0 <= i < |plan.crates| && plan.crates[i].name == a && b in plan.crates[i].dependsOn
  }

  /** A chain of direct dependencies. */
  predicate DependencyPath(plan: Plan, path: seq<string>) {
    |path| >= 2 && forall i :: 0 <= i < |path| - 1 ==> DependsOn(plan, path[i], path[i + 1])
  }

  lemma {:induction false} DirectDependencyNotLater(plan: Plan, a: string, b: string)
    requires Accepts(plan) && DependsOn(plan, a, b)
    ensures a in plan.publishOrder && b in plan.publishOrder
    ensures LastIndex(plan.publishOrder, b) <= LastIndex(plan.publishOrder, a)
    ensures LastIndex(plan.publishOrder, b) == LastIndex(plan.publishOrder, a) ==> a == b
  {
    var order := plan.publishOrder;
    var k :| 0 <= k < |order| && order[k] == a;
    assert HasPublishable(plan, order[k]);
    var i :| 0 <= i < |plan.crates| && plan.crates[i].name == a && b in plan.crates[i].dependsOn;
    var j :| 0 <= j < |plan.crates| && plan.crates[j].name == a && PublishableIn(plan, plan.crates[j]);
    assert i == j;
    var m :| 0 <= m < |plan.crates[i].dependsOn| && plan.crates[i].dependsOn[m] == b;
    assert DependencyOk(order, a, plan.crates[i].dependsOn[m]);
  }

  /** Along a chain the last occurrences never move up, and stay only on a self-dependency. */
  lemma {:induction false} PathNotLater(plan: Plan, path: seq<string>)
    requires Accepts(plan) && DependencyPath(plan, path)
    ensures path[0] in plan.publishOrder && path[|path| - 1] in plan.publishOrder
    ensures LastIndex(plan.publishOrder, path[|path| - 1]) <= LastIndex(plan.publishOrder, path[0])
    ensures LastIndex(plan.publishOrder, path[|path| - 1]) == LastIndex(plan.publishOrder, path[0]) ==>
              DependsOn(plan, path[0], path[0])
    decreases |path|
  {
    assert DependsOn(plan, path[0], path[1]);
    DirectDependencyNotLater(plan, path[0], path[1]);
    if |path| > 2 {
      var rest := path[1..];
      forall i | 0 <= i < |rest| - 1 ensures DependsOn(plan, rest[i], rest[i + 1]) {
        assert DependsOn(plan, path[i + 1], path[i + 2]);
      }
      PathNotLater(plan, rest);
    }
  }

  ghost predicate SelfDependent(plan: Plan) {
    exists name :: name in plan.publishOrder && DependsOn(plan, name, name)
  }

  ghost predicate Cyclic(plan: Plan) {
    exists path :: DependencyPath(plan, path) && path[0] == path[|path| - 1]
  }

  /** An accepted plan has a dependency cycle exactly when some ordered crate depends on itself;
      names repeated in the order do not matter. */
  lemma {:induction false} AcceptedIsCyclicIffSelfDependent(plan: Plan)
    requires Accepts(plan)
    ensures Cyclic(plan) <==> SelfDependent(plan)
  {
    if Cyclic(plan) {
      var path :| DependencyPath(plan, path) && path[0] == path[|path| - 1];
      PathNotLater(plan, path);
    }
    if SelfDependent(plan) {
      var name :| name in plan.publishOrder && DependsOn(plan, name, name);
      var path := [name, name];
      assert DependencyPath(plan, path) && path[0] == path[|path| - 1];
    }
  }

  predicate NoRepeats(order: seq<string>) {
    forall i, j :: 0 <= i < j < |order| ==> order[i] != order[j]
  }

  /** In an accepted plan without self-dependencies every transitive dependency comes strictly
      earlier, counting last occurrences; without repeats, wherever the names stand. */
  lemma {:induction false} DependenciesComeEarlier(plan: Plan, path: seq<string>)
    requires Accepts(plan) && !SelfDependent(plan) && DependencyPath(plan, path)
    ensures path[0] in plan.publishOrder && path[|path| - 1] in plan.publishOrder
    ensures LastIndex(plan.publishOrder, path[|path| - 1]) < LastIndex(plan.publishOrder, path[0])
    ensures NoRepeats(plan.publishOrder) ==>
              forall i, j | 0 <= i < |plan.publishOrder| && 0 <= j < |plan.publishOrder| ::
                (plan.publishOrder[i] == path[0] && plan.publishOrder[j] == path[|path| - 1]) ==> j < i
  {
    PathNotLater(plan, path);
  }

  /* ----- every listing of a repeated name ----- */

  /** Listing `i` is not the last of its name, and depends on a crate that is listed at `i` or
      later: what a check of the order alone can see. */
  predicate ListedTooEarly(plan: Plan, i: nat)
    requires i < |plan.publishOrder|
  {
    var order := plan.publishOrder;
    && (exists k :: i < k < |order| && order[k] == order[i])
    && exists j :: i <= j < |order| && DependsOn(plan, order[i], order[j])
  }

  /** Wherever a crate is listed, all its transitive dependencies are listed only before. */
  ghost predicate EveryListingInOrder(plan: Plan) {
    var order := plan.publishOrder;
    forall path, i, j | DependencyPath(plan, path) && 0 <= i < |order| && 0 <= j < |order| ::
      order[i] == path[0] && order[j] == path[|path| - 1] ==> j < i
  }

  /** A listing that is not too early comes after every listing of its direct dependencies. */
  lemma DirectListingInOrder(plan: Plan, i: nat, j: nat)
    requires Accepts(plan) && !SelfDependent(plan)
    requires i < |plan.publishOrder| && j < |plan.publishOrder| && !ListedTooEarly(plan, i)
    requires DependsOn(plan, plan.publishOrder[i], plan.publishOrder[j])
    ensures j < i
  {
    hide Accepts, DependsOn;
    var order := plan.publishOrder;
    DirectDependencyNotLater(plan, order[i], order[j]);
  }

  lemma {:induction false} PathListingsInOrder(plan: Plan, path: seq<string>, i: nat, j: nat)
    requires Accepts(plan) && !SelfDependent(plan) && DependencyPath(plan, path)
    requires forall k :: 0 <= k < |plan.publishOrder| ==> !ListedTooEarly(plan, k)
    requires i < |plan.publishOrder| && j < |plan.publishOrder|
    requires plan.publishOrder[i] == path[0] && plan.publishOrder[j] == path[|path| - 1]
    ensures j < i
    decreases |path|
  {
    hide Accepts, DependsOn, ListedTooEarly, SelfDependent;
    if |path| == 2 {
      assert DependsOn(plan, path[0], path[1]);
      DirectListingInOrder(plan, i, j);
    } else {
      var rest := path[1..];
      assert DependsOn(plan, path[0], path[1]);
      forall k | 0 <= k < |rest| - 1 ensures DependsOn(plan, rest[k], rest[k + 1]) {
        assert DependsOn(plan, path[k + 1], path[k + 2]);
      }
      DirectDependencyNotLater(plan, path[0], path[1]);
      var m := LastIndex(plan.publishOrder, path[1]);
      DirectListingInOrder(plan, i, m);
      PathListingsInOrder(plan, rest, m, j);
    }
  }

  /** In an accepted plan every listing of a crate follows every listing of its transitive
      dependencies exactly when no crate depends on itself and no listing is too early. */
  lemma ListingsInOrderIff(plan: Plan)
    requires Accepts(plan)
    ensures EveryListingInOrder(plan) <==>
            !SelfDependent(plan) && forall i :: 0 <= i < |plan.publishOrder| ==> !ListedTooEarly(plan, i)
  {
    hide Accepts, DependsOn;
    var order := plan.publishOrder;
    if SelfDependent(plan) {
      var name :| name in order && DependsOn(plan, name, name);
      var i :| 0 <= i < |order| && order[i] == name;
      var path := [name, name];
      assert DependencyPath(plan, path);
      assert order[i] == path[0] && order[i] == path[|path| - 1];
    } else if i :| 0 <= i < |order| && ListedTooEarly(plan, i) {
      var j :| i <= j < |order| && DependsOn(plan, order[i], order[j]);
      var path := [order[i], order[j]];
      assert DependencyPath(plan, path);
      assert !EveryListingInOrder(plan);
    } else {
      forall path, i, j | DependencyPath(plan, path) && 0 <= i < |order| && 0 <= j < |order| &&
                          order[i] == path[0] && order[j] == path[|path| - 1]
        ensures j < i
      {
        PathListingsInOrder(plan, path, i, j);
      }
    }
  }

  /** The check accepts a crate that depends on itself. */
  lemma SelfDependencyIsAccepted()
    ensures var a := Crate("a", IntendedPublic, 1, ["a"], true);
            var plan := Plan(true, true, true, true, ["a"], [a]);
            Accepts(plan) && SelfDependent(plan) && Cyclic(plan)
  {
    var a := Crate("a", IntendedPublic, 1, ["a"], true);
    var plan := Plan(true, true, true, true, ["a"], [a]);
    assert plan.crates[0] == a && a.dependsOn[0] == "a" && plan.publishOrder[0] == "a";
    assert DependencyOk(plan.publishOrder, "a", "a");
    assert PublishableIn(plan, plan.crates[0]);
    assert HasPublishable(plan, "a");
    assert DependsOn(plan, "a", "a");
    AcceptedIsCyclicIffSelfDependent(plan);
  }

  const NEEDS_B := Crate("a", IntendedPublic, 1, ["b"], true)
  const NEEDS_NOTHING := Crate("b", IntendedPublic, 1, [], true)
  const REPEATING := Plan(true, true, true, true, ["a", "b", "a"], [NEEDS_B, NEEDS_NOTHING])

  lemma RepeatingIsAccepted()
    ensures Accepts(REPEATING) && DependsOn(REPEATING, "a", "b")
  {
    var order := REPEATING.publishOrder;
    assert order[0] == "a" && order[1] == "b" && order[2] == "a";
    assert LastIndex(order, "a") == 2;
    assert LastIndex(order, "b") == 1;
    assert "a"[0] != "b"[0];
    assert REPEATING.crates[0] == NEEDS_B && REPEATING.crates[1] == NEEDS_NOTHING;
    assert NEEDS_B.dependsOn[0] == "b" && DependencyOk(order, "a", NEEDS_B.dependsOn[0]);
    assert PublishableIn(REPEATING, REPEATING.crates[0]) && PublishableIn(REPEATING, REPEATING.crates[1]);
    assert HasPublishable(REPEATING, "a") && HasPublishable(REPEATING, "b");
    forall k | 0 <= k < |order| ensures HasPublishable(REPEATING, order[k]) {
      assert k == 0 || k == 1 || k == 2;
    }
  }

  lemma RepeatingIsNotSelfDependent()
    ensures !SelfDependent(REPEATING)
  {
    assert "a"[0] != "b"[0];
  }

  /** With a repeated name the check accepts an order in which a crate first comes before its
      dependency. */
  lemma {:induction false} RepeatedNameHidesOrder()
    ensures Accepts(REPEATING) && !SelfDependent(REPEATING) && DependsOn(REPEATING, "a", "b")
    ensures REPEATING.publishOrder[0] == "a" && REPEATING.publishOrder[1] == "b"
    ensures ListedTooEarly(REPEATING, 0) && !EveryListingInOrder(REPEATING)
  {
    hide Accepts, DependsOn, SelfDependent, EveryListingInOrder;
    RepeatingIsAccepted();
    RepeatingIsNotSelfDependent();
    var order := REPEATING.publishOrder;
    assert order[2] == order[0] && order[1] == "b";
    assert DependsOn(REPEATING, order[0], order[1]);
    assert ListedTooEarly(REPEATING, 0);
    ListingsInOrderIff(REPEATING);
  }
}
