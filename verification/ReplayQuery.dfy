/** Whole emitted queries lower back to the relations they were emitted from,
    and exactly when. */
module ReplayQuery {
  import opened Basics
  import opened Text
  import opened Relational
  import opened Semantics
  import opened Keys
  import opened Erasure
  import opened Surface
  import opened Canonical
  import opened Emission
  import opened Lowering
  import opened LoweringInvariant
  import opened LoweringMeaning
  import opened ReplayScalars
  import opened Replay
  import opened ReplaySteps

  lemma AddStepLowers(resolver: Resolver, site: Site, q: Query, step: Step, next: u32)
    ensures LowerQuery(resolver, site, AddStep(q, step), next) ==
            match LowerQuery(resolver, site, q, next)
            case Failure(f) => Failure(f)
            case Success(a) => LowerStep(resolver, site.Child(|q.steps| + 1), a, step)
  {
    hide LowerStep, LowerAll;
    var steps := q.steps + [step];
    assert steps[..|steps| - 1] == q.steps;
  }

  lemma {:induction false} BindingErased(r: Relation, base: nat)
    ensures BindingOf(Erase(r, base)) == BindingOf(r)
    decreases r
  {
    hide EraseScalar, EraseColumns, EraseFacts, EraseProjections, EraseSelection, EraseSortKeys;
    match r.operator
    case Scan(_) =>
    case Filter(input, _) => BindingErased(input, base);
    case Project(_, _, _) =>
    case Join(_, _, _, _) =>
    case Distinct(input) => BindingErased(input, base);
    case DistinctOn(input, _) => BindingErased(input, base);
    case Sort(input, _) => BindingErased(input, base);
  }

  /** A state that lowering reached and that mirrors a relation is ready for the
      next step, and its element is bound as the emitter bound the relation. */
  lemma StateReady(resolver: Resolver, site: Site, r: Relation, binder: nat, depth: nat, next: u32)
    requires Ordinary(resolver) && Valid(r) && EmitRelation(r, binder, depth).Success?
    requires var t := LowerQuery(resolver, site, EmitRelation(r, binder, depth).value.query, next);
             t.Success? && Mirrors(resolver, t.value.state, r)
    ensures var em := EmitRelation(r, binder, depth).value;
            var a := LowerQuery(resolver, site, em.query, next).value;
            && BodyReady(resolver, a.state, r, next, a.next) && next < a.next
            && em.binding == ElementBinding(a.state.element) == BindingOf(r)
  {
    hide LowerQuery, EmitRelation, Erase, BindingOf, Valid;
    var em := EmitRelation(r, binder, depth).value;
    var a := LowerQuery(resolver, site, em.query, next).value;
    LoweringKeepsInvariant(resolver, site, em.query, next);
    EmissionBindsAlike(r, binder, depth);
    BindingErased(r, 0);
    BindingErased(a.state.expression, 0);
  }

  /** The emitted query of `r` lowers back to `r`, taking the identities it needs. */
  ghost predicate ComesBack(resolver: Resolver, site: Site, r: Relation, binder: nat, depth: nat, next: u32) {
    EmitRelation(r, binder, depth).Success? &&
    var t := LowerQuery(resolver, site, EmitRelation(r, binder, depth).value.query, next);
    t.Success? && t.value.next == next + Allocations(r) && Mirrors(resolver, t.value.state, r)
  }

  // ---------- one operator over an input that comes back ----------

  lemma ScanComesBack(resolver: Resolver, site: Site, r: Relation, c: ResolvedClass, binder: nat, depth: nat, next: u32)
    requires Ordinary(resolver) && Valid(r) && r.operator == Scan(c) && Answered(resolver, r) && EmitRelation(r, binder, depth).Success?
    requires CanAllocate(next)
    ensures ComesBack(resolver, site, r, binder, depth, next)
  {
    hide Mirrors, LowerAll, EmitScan, Valid, Ordinary, Answered;
    assert EmitRelation(r, binder, depth) == EmitScan(r, c, binder);
    ScanReplays(resolver, site.Child(0).Span(), r, c, binder, next);
    ScanQuery(r, c, binder);
    assert LowerQuery(resolver, site, Query(c.path, []), next) == LowerAll(resolver, site.Child(0).Span(), c.path, next);
  }

  lemma ScanQuery(r: Relation, c: ResolvedClass, binder: nat)
    requires EmitScan(r, c, binder).Success?
    ensures EmitScan(r, c, binder).value.query == Query(c.path, [])
  {
    hide IsEmittablePath, ScanSchemaMatches;
  }

  lemma FilterComesBack(resolver: Resolver, site: Site, r: Relation, input: Relation, condition: Scalar, binder: nat, depth: nat, next: u32)
    requires Ordinary(resolver) && Valid(r) && Valid(input) && r.operator == Filter(input, condition) && EmitRelation(r, binder, depth).Success?
    requires ComesBack(resolver, site, input, binder, depth + 1, next)
    requires ScalarMade(condition) && ScalarAnswered(resolver, condition) && ReadsPlainly(condition, BindingOf(input), input.schema)
    ensures ComesBack(resolver, site, r, binder, depth, next)
  {
    hide Mirrors, LowerQuery, LowerFilter, Valid, Ordinary, ScalarMade, ScalarAnswered, BodyReady, EmitScalar, ReferencesFor, Binder;
    StateReady(resolver, site, input, binder, depth + 1, next);
    var em := EmitRelation(input, binder, depth + 1).value;
    var a := LowerQuery(resolver, site, em.query, next).value;
    var steps := EmitFilter(r, input, condition, em, depth + 1).value.query.steps;
    var step := steps[|steps| - 1];
    FilterReplays(resolver, site.Child(|em.query.steps| + 1), a.state, r, input, condition, em, depth + 1, next, a.next);
    AddStepLowers(resolver, site, em.query, step, next);
  }

  lemma MapComesBack(resolver: Resolver, site: Site, r: Relation, input: Relation, ps: seq<Projection>, binder: nat, depth: nat, next: u32)
    requires Ordinary(resolver) && Valid(r) && Valid(input) && r.operator == Project(input, ps, ScalarProjection)
    requires EmitRelation(r, binder, depth).Success? && ComesBack(resolver, site, input, binder, depth + 1, next)
    requires forall i :: 0 <= i < |ps| ==> ScalarMade(ps[i].expression) && ScalarAnswered(resolver, ps[i].expression)
    requires forall i :: 0 <= i < |ps| ==> ReadsPlainly(ps[i].expression, BindingOf(input), input.schema)
    requires forall c :: c in r.schema ==> c.name == MAP_VALUE_COLUMN_NAME
    requires next + Allocations(r) < U32_LIMIT
    ensures ComesBack(resolver, site, r, binder, depth, next)
  {
    hide Mirrors, LowerQuery, LowerMap, Valid, Ordinary, ScalarMade, ScalarAnswered, BodyReady, EmitScalar, ReferencesFor, Binder;
    StateReady(resolver, site, input, binder, depth + 1, next);
    var em := EmitRelation(input, binder, depth + 1).value;
    var a := LowerQuery(resolver, site, em.query, next).value;
    OneColumnMapped(r, input, ps, em, depth + 1);
    var steps := EmitMap(r, input, ps, em, depth + 1).value.query.steps;
    var step := steps[|steps| - 1];
    assert r.schema[0] in r.schema;
    MapReplays(resolver, site.Child(|em.query.steps| + 1), a.state, r, input, ps, em, depth + 1, next, a.next);
    AddStepLowers(resolver, site, em.query, step, next);
  }

  lemma RelationProjectComesBack(resolver: Resolver, site: Site, r: Relation, input: Relation, ps: seq<Projection>, binder: nat, depth: nat, next: u32)
    requires Ordinary(resolver) && Valid(r) && Valid(input) && r.operator == Project(input, ps, RelationProjection)
    requires EmitRelation(r, binder, depth).Success? && ComesBack(resolver, site, input, binder, depth + 1, next)
    requires forall i :: 0 <= i < |ps| ==> ScalarMade(ps[i].expression) && ScalarAnswered(resolver, ps[i].expression)
    requires ps != [] && next + Allocations(r) < U32_LIMIT
    ensures ComesBack(resolver, site, r, binder, depth, next)
  {
    hide Mirrors, LowerQuery, LowerRelationProject, Valid, Ordinary, ScalarMade, ScalarAnswered, BodyReady, EmitSpecs, ReferencesFor, Binder, NamesAreUnique;
    StateReady(resolver, site, input, binder, depth + 1, next);
    var em := EmitRelation(input, binder, depth + 1).value;
    var a := LowerQuery(resolver, site, em.query, next).value;
    RelationProjected(r, input, ps, em, depth + 1);
    var b := Binder(em.nextBinder);
    var step := ProjectStep(EmitSpecs(ps, r.schema, ReferencesFor(em.binding, input.schema, b).value, b, depth + 1).value);
    RelationProjectReplays(resolver, site.Child(|em.query.steps| + 1), a.state, r, input, ps, em, depth + 1, next, a.next);
    AddStepLowers(resolver, site, em.query, step, next);
  }

  lemma DistinctComesBack(resolver: Resolver, site: Site, r: Relation, input: Relation, binder: nat, depth: nat, next: u32)
    requires Ordinary(resolver) && Valid(r) && Valid(input) && r.operator == Distinct(input)
    requires EmitRelation(r, binder, depth).Success? && ComesBack(resolver, site, input, binder, depth + 1, next)
    ensures ComesBack(resolver, site, r, binder, depth, next)
  {
    hide Mirrors, LowerQuery, LowerDistinct, Valid, Ordinary, BodyReady;
    StateReady(resolver, site, input, binder, depth + 1, next);
    var em := EmitRelation(input, binder, depth + 1).value;
    var a := LowerQuery(resolver, site, em.query, next).value;
    DistinctReplays(resolver, site.Child(|em.query.steps| + 1).Span(), a.state, r, input, em, next, a.next);
    AddStepLowers(resolver, site, em.query, DistinctStep, next);
  }

  lemma DistinctOnComesBack(resolver: Resolver, site: Site, r: Relation, input: Relation, columns: seq<ColumnId>, binder: nat, depth: nat, next: u32)
    requires Ordinary(resolver) && Valid(r) && Valid(input) && r.operator == DistinctOn(input, columns)
    requires EmitRelation(r, binder, depth).Success? && ComesBack(resolver, site, input, binder, depth + 1, next)
    ensures ComesBack(resolver, site, r, binder, depth, next)
  {
    hide Mirrors, LowerQuery, LowerDistinctOn, Valid, Ordinary, BodyReady, SelectorNames, NamesAreUnique;
    StateReady(resolver, site, input, binder, depth + 1, next);
    var em := EmitRelation(input, binder, depth + 1).value;
    var a := LowerQuery(resolver, site, em.query, next).value;
    DistinctOnReplays(resolver, site.Child(|em.query.steps| + 1).Span(), a.state, r, input, columns, em, next, a.next);
    AddStepLowers(resolver, site, em.query, DistinctOnStep(SelectorNames(columns, input.schema).value), next);
  }

  lemma SortComesBack(resolver: Resolver, site: Site, r: Relation, input: Relation, keys: seq<SortKey>, binder: nat, depth: nat, next: u32)
    requires Ordinary(resolver) && Valid(r) && Valid(input) && r.operator == Sort(input, keys)
    requires EmitRelation(r, binder, depth).Success? && ComesBack(resolver, site, input, binder, depth + 1, next)
    ensures ComesBack(resolver, site, r, binder, depth, next)
  {
    hide Mirrors, LowerQuery, LowerSort, Valid, Ordinary, BodyReady, EmitKeys, NamesAreUnique;
    StateReady(resolver, site, input, binder, depth + 1, next);
    var em := EmitRelation(input, binder, depth + 1).value;
    var a := LowerQuery(resolver, site, em.query, next).value;
    SortReplays(resolver, site.Child(|em.query.steps| + 1), a.state, r, input, keys, em, next, a.next);
    AddStepLowers(resolver, site, em.query, SortStep(EmitKeys(keys, input.schema).value), next);
  }

  lemma JoinComesBack(resolver: Resolver, site: Site, r: Relation, left: Relation, right: Relation, condition: Scalar, binder: nat, depth: nat, next: u32)
    requires Ordinary(resolver) && Valid(r) && Valid(left) && Valid(right) && r.operator == Join(Inner, left, right, condition)
    requires EmitRelation(r, binder, depth).Success? && right.operator.Scan?
    requires ComesBack(resolver, site, left, binder, depth + 1, next) && next + Allocations(left) < U32_LIMIT
    requires var l := EmitRelation(left, binder, depth + 1).value;
             ComesBack(resolver, site.Child(|l.query.steps| + 1).Child(1), right, l.nextBinder, depth + 1, next + Allocations(left))
    requires ScalarMade(condition) && ScalarAnswered(resolver, condition) && JoinsBothSides(left, right, condition)
    ensures ComesBack(resolver, site, r, binder, depth, next)
  {
    hide Mirrors, LowerQuery, LowerJoined, Valid, Ordinary, ScalarMade, ScalarAnswered, BodyReady, EmitScalar, ReferencesFor, Binder, JoinsBothSides;
    var l := EmitRelation(left, binder, depth + 1).value;
    var node := site.Child(|l.query.steps| + 1);
    StateReady(resolver, site, left, binder, depth + 1, next);
    var a := LowerQuery(resolver, site, l.query, next).value;
    StateReady(resolver, node.Child(1), right, l.nextBinder, depth + 1, a.next);
    var rr := EmitRelation(right, l.nextBinder, depth + 1).value;
    var b := LowerQuery(resolver, node.Child(1), rr.query, a.next).value;
    assert SidesReady(resolver, a.state, b.state, left, right, next, a.next, b.next);
    JoinReplays(resolver, node, a.state, b.state, r, left, right, condition, l, rr, depth + 1, next, a.next, b.next);
    var steps := EmitJoin(r, left, right, condition, l, rr, depth + 1).value.query.steps;
    var step := steps[|steps| - 1];
    BindersDiffer(rr.nextBinder, rr.nextBinder + 1);
    ScanQuery(right, right.operator.cls, l.nextBinder);
    assert IsOneNode(rr.query, false);
    AddStepLowers(resolver, site, l.query, step, next);
  }

  lemma {:induction false} AllocatesSome(r: Relation)
    ensures Allocations(r) >= 1
    decreases r
  {
    match r.operator
    case Scan(_) =>
    case Filter(input, _) => AllocatesSome(input);
    case Project(input, _, _) => AllocatesSome(input);
    case Join(_, left, _, _) => AllocatesSome(left);
    case Distinct(input) => AllocatesSome(input);
    case DistinctOn(input, _) => AllocatesSome(input);
    case Sort(input, _) => AllocatesSome(input);
  }

  /** A replayable relation comes back from its emitted query, up to column
      identities and origins, whenever the identities suffice. */
  lemma {:induction false} QueryComesBack(resolver: Resolver, site: Site, r: Relation, binder: nat, depth: nat, next: u32)
    requires Ordinary(resolver) && Valid(r) && Answered(resolver, r) && Replayable(r)
    requires EmitRelation(r, binder, depth).Success? && next + Allocations(r) < U32_LIMIT
    ensures ComesBack(resolver, site, r, binder, depth, next)
    decreases r
  {
    hide ComesBack, Ordinary, ScalarMade, ScalarAnswered, JoinsBothSides, EmitScan, EmitFilter, EmitProject, EmitJoin, EmitDistinct, EmitDistinctOn, EmitSort,
         OperatorOk, DistinctIds, KeysInScope;
    var d := depth + 1;
    match r.operator
    case Scan(c) => ScanComesBack(resolver, site, r, c, binder, depth, next);
    case Filter(input, condition) =>
      QueryComesBack(resolver, site, input, binder, d, next);
      FilterComesBack(resolver, site, r, input, condition, binder, depth, next);
    case Project(input, ps, kind) =>
      QueryComesBack(resolver, site, input, binder, d, next);
      forall i | 0 <= i < |ps| ensures ScalarAnswered(resolver, ps[i].expression) {
        assert ps[i] in ps;
      }
      if kind == ScalarProjection {
        MapComesBack(resolver, site, r, input, ps, binder, depth, next);
      } else {
        RelationProjectComesBack(resolver, site, r, input, ps, binder, depth, next);
      }
    case Join(_, left, right, condition) =>
      AllocatesSome(right);
      QueryComesBack(resolver, site, left, binder, d, next);
      var l := EmitRelation(left, binder, d).value;
      QueryComesBack(resolver, site.Child(|l.query.steps| + 1).Child(1), right, l.nextBinder, d, next + Allocations(left));
      JoinComesBack(resolver, site, r, left, right, condition, binder, depth, next);
    case Distinct(input) =>
      QueryComesBack(resolver, site, input, binder, d, next);
      DistinctComesBack(resolver, site, r, input, binder, depth, next);
    case DistinctOn(input, columns) =>
      QueryComesBack(resolver, site, input, binder, d, next);
      DistinctOnComesBack(resolver, site, r, input, columns, binder, depth, next);
    case Sort(input, keys) =>
      QueryComesBack(resolver, site, input, binder, d, next);
      SortComesBack(resolver, site, r, input, keys, binder, depth, next);
  }

  // ---------- and only such relations do ----------

  /** Relations that erase alike from one base do so from every base. */
  lemma AlikeFromOneBase(a: Relation, b: Relation, base: nat)
    requires Erase(a, base) == Erase(b, base)
    ensures Alike(a, b)
  {
    hide Erase;
    RelationEncodes(a, b, base, End);
    forall other ensures Erase(a, other) == Erase(b, other) {
      RelationDecodes(a, End, b, End, other);
    }
  }

  function InputOf(operator: RelationOperator): Relation
    requires !operator.Scan? && !operator.Join?
  {
    operator.input
  }

  lemma InputAlike(a: Relation, b: Relation)
    requires Alike(a, b) && !b.operator.Scan? && !b.operator.Join?
    ensures !a.operator.Scan? && !a.operator.Join? && Alike(InputOf(a.operator), InputOf(b.operator))
  {
    hide EraseScalar, EraseColumns, EraseFacts, EraseProjections, EraseSelection, EraseSortKeys;
    assert Erase(a, 0) == Erase(b, 0);
    forall base ensures Erase(InputOf(a.operator), base) == Erase(InputOf(b.operator), base) {
      assert Erase(a, base) == Erase(b, base);
    }
  }

  /** The emitted query lowers to the relation, up to identities and origins. */
  ghost predicate Returns(resolver: Resolver, site: Site, r: Relation, binder: nat, depth: nat, next: u32) {
    EmitRelation(r, binder, depth).Success? &&
    var t := LowerQuery(resolver, site, EmitRelation(r, binder, depth).value.query, next);
    t.Success? && Alike(t.value.state.expression, r)
  }

  /** What is shown of a relation that returns: its conditions hold, the identities
      suffice, and it comes back. */
  ghost predicate Settled(resolver: Resolver, site: Site, r: Relation, binder: nat, depth: nat, next: u32) {
    Replayable(r) && next + Allocations(r) < U32_LIMIT && ComesBack(resolver, site, r, binder, depth, next)
  }

  /** One step emitted over an input, lowered: both succeed, and the input returns too. */
  lemma InputReturns(resolver: Resolver, site: Site, r: Relation, input: Relation, binder: nat, depth: nat, next: u32, step: Step)
    requires Returns(resolver, site, r, binder, depth, next) && !r.operator.Scan? && !r.operator.Join? && InputOf(r.operator) == input
    requires EmitRelation(input, binder, depth + 1).Success? && !step.JoinStep?
    requires EmitRelation(r, binder, depth).value.query == AddStep(EmitRelation(input, binder, depth + 1).value.query, step)
    requires Valid(r)
    ensures Returns(resolver, site, input, binder, depth + 1, next)
    ensures var em := EmitRelation(input, binder, depth + 1).value;
            var a := LowerQuery(resolver, site, em.query, next).value;
            LowerStep(resolver, site.Child(|em.query.steps| + 1), a, step) ==
            LowerQuery(resolver, site, EmitRelation(r, binder, depth).value.query, next)
  {
    hide LowerQuery, EmitRelation, LowerStep, Alike, Valid;
    var em := EmitRelation(input, binder, depth + 1).value;
    AddStepLowers(resolver, site, em.query, step, next);
    var t := LowerQuery(resolver, site, EmitRelation(r, binder, depth).value.query, next).value;
    InputAlike(t.state.expression, r);
    var a := LowerQuery(resolver, site, em.query, next).value;
    StepInput(resolver, site.Child(|em.query.steps| + 1), a, step);
  }

  /** A step other than a join puts its operator over the state's expression. */
  lemma StepInput(resolver: Resolver, site: Site, a: Allocated, step: Step)
    requires LowerStep(resolver, site, a, step).Success? && !step.JoinStep?
    ensures var operator := LowerStep(resolver, site, a, step).value.state.expression.operator;
            !operator.Scan? && !operator.Join? && InputOf(operator) == a.state.expression
  {
    hide LowerScalar, LowerSpecs, Merged, OperatorOk, KeysInScope, LowerKeys, ResolveSelectors, SelectedElement, Selected, BindRow,
         NamesAreUnique, DistinctIds, AliasesAreUnique, LowerNavigation;
  }

  // ---------- filter ----------

  lemma EmittedFilter(r: Relation, input: Relation, condition: Scalar, binder: nat, depth: nat)
    requires r.operator == Filter(input, condition) && EmitRelation(r, binder, depth).Success?
    ensures EmitRelation(input, binder, depth + 1).Success?
    ensures var em := EmitRelation(input, binder, depth + 1).value;
            var b := Binder(em.nextBinder);
            var references := ReferencesFor(em.binding, input.schema, b);
            && references.Some? && EmitScalar(condition, references.value, depth + 1).Success?
            && EmitRelation(r, binder, depth).value.query ==
               AddStep(em.query, FilterStep(b, EmitScalar(condition, references.value, depth + 1).value))
  {
    hide ReferencesFor, EmitScalar, Binder;
    assert EmitRelation(r, binder, depth) == EmitOperator(r, binder, depth + 1);
  }

  lemma LoweredFilter(resolver: Resolver, site: Site, a: Allocated, parameter: string, body: Expr)
    requires LowerStep(resolver, site, a, FilterStep(parameter, body)).Success?
    ensures a.state.element.Some?
    ensures var c := LowerScalar(resolver, site.Child(0), [(parameter, a.state.element.value)], body);
            c.Success? && LowerStep(resolver, site, a, FilterStep(parameter, body)).value.state.expression.operator ==
                          Filter(a.state.expression, c.value.expression)
  {
    hide LowerScalar, OperatorOk, KeysInScope, Merged;
  }

  lemma FilterScalarsAlike(a: Relation, b: Relation)
    requires Alike(a, b) && a.operator.Filter? && b.operator.Filter?
    ensures EraseScalar(a.operator.predicate_, Ids(a.operator.input.schema), 0) ==
            EraseScalar(b.operator.predicate_, Ids(b.operator.input.schema), 0)
  {
    assert Erase(a, 0) == Erase(b, 0);
  }

  lemma FilterSettles(resolver: Resolver, site: Site, r: Relation, input: Relation, condition: Scalar, binder: nat, depth: nat, next: u32)
    requires Ordinary(resolver) && Valid(r) && Valid(input) && r.operator == Filter(input, condition) && ScalarAnswered(resolver, condition)
    requires Returns(resolver, site, r, binder, depth, next) && Settled(resolver, site, input, binder, depth + 1, next)
    ensures Settled(resolver, site, r, binder, depth, next)
  {
    hide Mirrors, LowerQuery, EmitRelation, Valid, Ordinary, ScalarMade, ScalarAnswered, BodyReady, EmitScalar, ReferencesFor, Binder, Alike, Erase,
         EraseScalar, LowerScalar, LowerStep, ComesBack, Replayable, Allocations;
    EmittedFilter(r, input, condition, binder, depth);
    var d := depth + 1;
    var em := EmitRelation(input, binder, d).value;
    assert ComesBack(resolver, site, input, binder, d, next);
    ComesBackState(resolver, site, input, binder, d, next);
    var a := LowerQuery(resolver, site, em.query, next).value;
    var b := Binder(em.nextBinder);
    var x := EmitScalar(condition, ReferencesFor(em.binding, input.schema, b).value, d).value;
    var node := site.Child(|em.query.steps| + 1);
    InputReturns(resolver, site, r, input, binder, depth, next, FilterStep(b, x));
    LoweredFilter(resolver, node, a, b, x);
    FilterScalarsAlike(LowerStep(resolver, node, a, FilterStep(b, x)).value.state.expression, r);
    BodyIsMade(resolver, node.Child(0), a.state, input, b, condition, d, 0, next, a.next);
    FilterSettled(r, input, condition);
    FilterComesBack(resolver, site, r, input, condition, binder, depth, next);
  }

  /** The state an emitted query comes back to is ready for the next step. */
  lemma ComesBackState(resolver: Resolver, site: Site, r: Relation, binder: nat, depth: nat, next: u32)
    requires Ordinary(resolver) && Valid(r) && ComesBack(resolver, site, r, binder, depth, next)
    ensures EmitRelation(r, binder, depth).Success?
    ensures var em := EmitRelation(r, binder, depth).value;
            var t := LowerQuery(resolver, site, em.query, next);
            && t.Success? && t.value.next == next + Allocations(r) && BodyReady(resolver, t.value.state, r, next, t.value.next)
            && em.binding == ElementBinding(t.value.state.element) == BindingOf(r)
  {
    hide Mirrors, LowerQuery, EmitRelation, Valid, Ordinary, BodyReady, Allocations;
    StateReady(resolver, site, r, binder, depth, next);
  }

  lemma FilterSettled(r: Relation, input: Relation, condition: Scalar)
    requires r.operator == Filter(input, condition) && Replayable(input) && ScalarMade(condition)
    requires ReadsPlainly(condition, BindingOf(input), input.schema)
    ensures Replayable(r) && Allocations(r) == Allocations(input)
  {
    hide ScalarMade;
  }

  // ---------- projections ----------

  lemma EmittedMap(r: Relation, input: Relation, ps: seq<Projection>, binder: nat, depth: nat)
    requires r.operator == Project(input, ps, ScalarProjection) && EmitRelation(r, binder, depth).Success?
    ensures EmitRelation(input, binder, depth + 1).Success? && |ps| == |r.schema| == 1
    ensures var em := EmitRelation(input, binder, depth + 1).value;
            var b := Binder(em.nextBinder);
            var references := ReferencesFor(em.binding, input.schema, b);
            && references.Some? && EmitScalar(ps[0].expression, references.value, depth + 1).Success?
            && EmitRelation(r, binder, depth).value.query ==
               AddStep(em.query, MapStep(b, EmitScalar(ps[0].expression, references.value, depth + 1).value))
  {
    hide ReferencesFor, EmitScalar, Binder;
    assert EmitRelation(r, binder, depth) == EmitOperator(r, binder, depth + 1);
  }

  lemma LoweredMap(resolver: Resolver, site: Site, a: Allocated, parameter: string, body: Expr)
    requires LowerStep(resolver, site, a, MapStep(parameter, body)).Success?
    ensures a.state.element.Some? && CanAllocate(a.next)
    ensures var c := LowerScalar(resolver, site.Child(0), [(parameter, a.state.element.value)], body);
            var e := LowerStep(resolver, site, a, MapStep(parameter, body)).value.state.expression;
            && c.Success? && e.operator == Project(a.state.expression, [Projection(a.next, c.value.expression)], ScalarProjection)
            && |e.schema| == 1 && e.schema[0].name == MAP_VALUE_COLUMN_NAME
  {
    hide LowerScalar, OperatorOk, KeysInScope, Merged;
  }

  lemma ProjectScalarsAlike(a: Relation, b: Relation, i: nat)
    requires Alike(a, b) && a.operator.Project? && b.operator.Project?
    ensures |a.operator.projections| == |b.operator.projections| && a.operator.kind == b.operator.kind
    ensures i < |b.operator.projections| ==>
              EraseScalar(a.operator.projections[i].expression, Ids(a.operator.input.schema), 0) ==
              EraseScalar(b.operator.projections[i].expression, Ids(b.operator.input.schema), 0)
  {
    hide EraseScalar, ErasedId;
    assert Erase(a, 0) == Erase(b, 0);
    var x := EraseProjections(a.operator.projections, Ids(a.schema), Ids(a.operator.input.schema), 0);
    var y := EraseProjections(b.operator.projections, Ids(b.schema), Ids(b.operator.input.schema), 0);
    assert x == y && |x| == |a.operator.projections| && |y| == |b.operator.projections|;
    if i < |y| {
      assert x[i].expression == y[i].expression;
    }
  }

  lemma NamesAlike(a: Relation, b: Relation)
    requires Alike(a, b)
    ensures |a.schema| == |b.schema| && forall i :: 0 <= i < |a.schema| ==> a.schema[i].name == b.schema[i].name
  {
    assert Erase(a, 0) == Erase(b, 0);
    var x, y := EraseColumns(a.schema, Ids(a.schema), 0), EraseColumns(b.schema, Ids(b.schema), 0);
    assert x == y && |x| == |a.schema| && |y| == |b.schema|;
    forall i | 0 <= i < |a.schema| ensures a.schema[i].name == b.schema[i].name {
      assert x[i].name == y[i].name;
    }
  }

  lemma MapSettles(resolver: Resolver, site: Site, r: Relation, input: Relation, ps: seq<Projection>, binder: nat, depth: nat, next: u32)
    requires Ordinary(resolver) && Valid(r) && Valid(input) && r.operator == Project(input, ps, ScalarProjection)
    requires forall i :: 0 <= i < |ps| ==> ScalarAnswered(resolver, ps[i].expression)
    requires Returns(resolver, site, r, binder, depth, next) && Settled(resolver, site, input, binder, depth + 1, next)
    ensures Settled(resolver, site, r, binder, depth, next)
  {
    hide Mirrors, LowerQuery, EmitRelation, Valid, Ordinary, ScalarMade, ScalarAnswered, BodyReady, EmitScalar, ReferencesFor, Binder, Alike, Erase,
         EraseScalar, LowerScalar, LowerStep, ComesBack, Replayable, Allocations;
    EmittedMap(r, input, ps, binder, depth);
    var d := depth + 1;
    var em := EmitRelation(input, binder, d).value;
    ComesBackState(resolver, site, input, binder, d, next);
    var a := LowerQuery(resolver, site, em.query, next).value;
    var b := Binder(em.nextBinder);
    var x := EmitScalar(ps[0].expression, ReferencesFor(em.binding, input.schema, b).value, d).value;
    var node := site.Child(|em.query.steps| + 1);
    InputReturns(resolver, site, r, input, binder, depth, next, MapStep(b, x));
    LoweredMap(resolver, node, a, b, x);
    var e := LowerStep(resolver, node, a, MapStep(b, x)).value.state.expression;
    ProjectScalarsAlike(e, r, 0);
    NamesAlike(e, r);
    BodyIsMade(resolver, node.Child(0), a.state, input, b, ps[0].expression, d, 0, next, a.next);
    MapSettled(r, input, ps);
    MapComesBack(resolver, site, r, input, ps, binder, depth, next);
  }

  lemma MapSettled(r: Relation, input: Relation, ps: seq<Projection>)
    requires r.operator == Project(input, ps, ScalarProjection) && Replayable(input) && |ps| == |r.schema| == 1
    requires ScalarMade(ps[0].expression) && r.schema[0].name == MAP_VALUE_COLUMN_NAME
    requires ReadsPlainly(ps[0].expression, BindingOf(input), input.schema)
    ensures Replayable(r) && Allocations(r) == Allocations(input) + 1
  {
    hide ScalarMade;
  }

  lemma EmittedProject(r: Relation, input: Relation, ps: seq<Projection>, binder: nat, depth: nat)
    requires r.operator == Project(input, ps, RelationProjection) && EmitRelation(r, binder, depth).Success?
    ensures EmitRelation(input, binder, depth + 1).Success? && |ps| == |r.schema|
    ensures var em := EmitRelation(input, binder, depth + 1).value;
            var b := Binder(em.nextBinder);
            var references := ReferencesFor(em.binding, input.schema, b);
            && references.Some? && EmitSpecs(ps, r.schema, references.value, b, depth + 1).Success?
            && EmitRelation(r, binder, depth).value.query ==
               AddStep(em.query, ProjectStep(EmitSpecs(ps, r.schema, references.value, b, depth + 1).value))
  {
    hide ReferencesFor, EmitSpecs, Binder, NamesAreUnique;
    assert EmitRelation(r, binder, depth) == EmitOperator(r, binder, depth + 1);
  }

  lemma {:induction false} SpecsLowered(resolver: Resolver, site: Site, element: BoundElement, specs: seq<ColumnSpec>, next: u32)
    requires LowerSpecs(resolver, site, element, specs, next).Success?
    ensures var t := LowerSpecs(resolver, site, element, specs, next).value;
            && |t.projections| == |specs| && t.next == next + |specs|
            && forall i :: 0 <= i < |specs| ==>
                 var c := LowerScalar(resolver, site.Child(i).Child(0), [(specs[i].parameter, element)], specs[i].body);
                 c.Success? && t.projections[i].expression == c.value.expression
  {
    hide LowerScalar, SpecColumn;
    if specs != [] {
      SpecsLowered(resolver, site, element, specs[..|specs| - 1], next);
    }
  }

  lemma LoweredProject(resolver: Resolver, site: Site, a: Allocated, specs: seq<ColumnSpec>)
    requires LowerStep(resolver, site, a, ProjectStep(specs)).Success?
    ensures a.state.element.Some? && specs != [] && a.next + |specs| < U32_LIMIT
    ensures var t := LowerSpecs(resolver, site, a.state.element.value, specs, a.next);
            && t.Success?
            && LowerStep(resolver, site, a, ProjectStep(specs)).value.state.expression.operator ==
               Project(a.state.expression, t.value.projections, RelationProjection)
  {
    hide LowerSpecs, OperatorOk, KeysInScope, Merged, BindRow, AliasesAreUnique, DistinctIds;
    var t := LowerSpecs(resolver, site, a.state.element.value, specs, a.next).value;
    SpecsLowered(resolver, site, a.state.element.value, specs, a.next);
  }

  lemma RelationProjectSettles(resolver: Resolver, site: Site, r: Relation, input: Relation, ps: seq<Projection>, binder: nat, depth: nat, next: u32)
    requires Ordinary(resolver) && Valid(r) && Valid(input) && r.operator == Project(input, ps, RelationProjection)
    requires forall i :: 0 <= i < |ps| ==> ScalarAnswered(resolver, ps[i].expression)
    requires Returns(resolver, site, r, binder, depth, next) && Settled(resolver, site, input, binder, depth + 1, next)
    ensures Settled(resolver, site, r, binder, depth, next)
  {
    hide Mirrors, LowerQuery, EmitRelation, Valid, Ordinary, ScalarMade, ScalarAnswered, BodyReady, EmitScalar, EmitSpecs, ReferencesFor, Binder, Alike, Erase,
         EraseScalar, LowerScalar, LowerSpecs, LowerStep, ComesBack, Replayable, Allocations;
    EmittedProject(r, input, ps, binder, depth);
    var d := depth + 1;
    var em := EmitRelation(input, binder, d).value;
    ComesBackState(resolver, site, input, binder, d, next);
    var a := LowerQuery(resolver, site, em.query, next).value;
    var b := Binder(em.nextBinder);
    var references := ReferencesFor(em.binding, input.schema, b).value;
    var specs := EmitSpecs(ps, r.schema, references, b, d).value;
    var node := site.Child(|em.query.steps| + 1);
    InputReturns(resolver, site, r, input, binder, depth, next, ProjectStep(specs));
    LoweredProject(resolver, node, a, specs);
    EmitSpecsAt(ps, r.schema, references, b, d);
    SpecsLowered(resolver, node, a.state.element.value, specs, a.next);
    forall i | 0 <= i < |ps| ensures ScalarMade(ps[i].expression) && ReadsPlainly(ps[i].expression, BindingOf(input), input.schema) {
      ProjectScalarsAlike(LowerStep(resolver, node, a, ProjectStep(specs)).value.state.expression, r, i);
      BodyIsMade(resolver, node.Child(i).Child(0), a.state, input, b, ps[i].expression, d, 0, next, a.next);
    }
    ProjectSettled(r, input, ps);
    RelationProjectComesBack(resolver, site, r, input, ps, binder, depth, next);
  }

  lemma ProjectSettled(r: Relation, input: Relation, ps: seq<Projection>)
    requires r.operator == Project(input, ps, RelationProjection) && Replayable(input) && ps != []
    requires forall i :: 0 <= i < |ps| ==> ScalarMade(ps[i].expression) && ReadsPlainly(ps[i].expression, BindingOf(input), input.schema)
    ensures Replayable(r) && Allocations(r) == Allocations(input) + |ps|
  {
    hide ScalarMade;
  }

  // ---------- distinct and sort ----------

  lemma EmittedDistinct(r: Relation, input: Relation, binder: nat, depth: nat)
    requires r.operator == Distinct(input) && EmitRelation(r, binder, depth).Success?
    ensures EmitRelation(input, binder, depth + 1).Success?
    ensures EmitRelation(r, binder, depth).value.query == AddStep(EmitRelation(input, binder, depth + 1).value.query, DistinctStep)
  {
    assert EmitRelation(r, binder, depth) == EmitOperator(r, binder, depth + 1);
  }

  lemma EmittedDistinctOn(r: Relation, input: Relation, columns: seq<ColumnId>, binder: nat, depth: nat)
    requires r.operator == DistinctOn(input, columns) && EmitRelation(r, binder, depth).Success?
    ensures EmitRelation(input, binder, depth + 1).Success? && SelectorNames(columns, input.schema).Some?
    ensures EmitRelation(r, binder, depth).value.query ==
            AddStep(EmitRelation(input, binder, depth + 1).value.query, DistinctOnStep(SelectorNames(columns, input.schema).value))
  {
    hide SelectorNames, NamesAreUnique;
    assert EmitRelation(r, binder, depth) == EmitOperator(r, binder, depth + 1);
  }

  lemma EmittedSort(r: Relation, input: Relation, keys: seq<SortKey>, binder: nat, depth: nat)
    requires r.operator == Sort(input, keys) && EmitRelation(r, binder, depth).Success?
    ensures EmitRelation(input, binder, depth + 1).Success? && EmitKeys(keys, input.schema).Some?
    ensures EmitRelation(r, binder, depth).value.query ==
            AddStep(EmitRelation(input, binder, depth + 1).value.query, SortStep(EmitKeys(keys, input.schema).value))
  {
    hide EmitKeys, NamesAreUnique;
    assert EmitRelation(r, binder, depth) == EmitOperator(r, binder, depth + 1);
  }

  /** A relation over one input returns only if its input does. */
  lemma UnaryReturns(resolver: Resolver, site: Site, r: Relation, binder: nat, depth: nat, next: u32)
    requires Valid(r) && !r.operator.Scan? && !r.operator.Join? && Returns(resolver, site, r, binder, depth, next)
    ensures Returns(resolver, site, InputOf(r.operator), binder, depth + 1, next)
  {
    hide LowerQuery, EmitRelation, LowerStep, Alike, Valid, EmitScalar, EmitSpecs, ReferencesFor, Binder, EmitKeys, SelectorNames;
    var input := InputOf(r.operator);
    match r.operator
    case Filter(_, condition) =>
      EmittedFilter(r, input, condition, binder, depth);
      var em := EmitRelation(input, binder, depth + 1).value;
      var b := Binder(em.nextBinder);
      var x := EmitScalar(condition, ReferencesFor(em.binding, input.schema, b).value, depth + 1).value;
      InputReturns(resolver, site, r, input, binder, depth, next, FilterStep(b, x));
    case Project(_, ps, kind) =>
      if kind == ScalarProjection {
        EmittedMap(r, input, ps, binder, depth);
        var em := EmitRelation(input, binder, depth + 1).value;
        var b := Binder(em.nextBinder);
        var x := EmitScalar(ps[0].expression, ReferencesFor(em.binding, input.schema, b).value, depth + 1).value;
        InputReturns(resolver, site, r, input, binder, depth, next, MapStep(b, x));
      } else {
        EmittedProject(r, input, ps, binder, depth);
        var em := EmitRelation(input, binder, depth + 1).value;
        var b := Binder(em.nextBinder);
        var specs := EmitSpecs(ps, r.schema, ReferencesFor(em.binding, input.schema, b).value, b, depth + 1).value;
        InputReturns(resolver, site, r, input, binder, depth, next, ProjectStep(specs));
      }
    case Distinct(_) =>
      EmittedDistinct(r, input, binder, depth);
      InputReturns(resolver, site, r, input, binder, depth, next, DistinctStep);
    case DistinctOn(_, columns) =>
      EmittedDistinctOn(r, input, columns, binder, depth);
      InputReturns(resolver, site, r, input, binder, depth, next, DistinctOnStep(SelectorNames(columns, input.schema).value));
    case Sort(_, keys) =>
      EmittedSort(r, input, keys, binder, depth);
      InputReturns(resolver, site, r, input, binder, depth, next, SortStep(EmitKeys(keys, input.schema).value));
  }

  lemma KeptSettled(r: Relation)
    requires r.operator.Distinct? || r.operator.DistinctOn? || r.operator.Sort?
    requires Replayable(InputOf(r.operator))
    ensures Replayable(r) && Allocations(r) == Allocations(InputOf(r.operator))
  {
  }

  // ---------- scan ----------

  lemma ScanSettles(resolver: Resolver, site: Site, r: Relation, c: ResolvedClass, binder: nat, depth: nat, next: u32)
    requires Ordinary(resolver) && Valid(r) && r.operator == Scan(c) && Answered(resolver, r)
    requires Returns(resolver, site, r, binder, depth, next)
    ensures Settled(resolver, site, r, binder, depth, next)
  {
    hide Mirrors, LowerAll, EmitScan, Valid, Ordinary, Answered, ComesBack, Alike;
    assert EmitRelation(r, binder, depth) == EmitScan(r, c, binder);
    ScanQuery(r, c, binder);
    assert LowerQuery(resolver, site, Query(c.path, []), next) == LowerAll(resolver, site.Child(0).Span(), c.path, next);
    ExtentAllocates(resolver, site.Child(0).Span(), c.path, next);
    ScanComesBack(resolver, site, r, c, binder, depth, next);
  }

  lemma ExtentAllocates(resolver: Resolver, span: SourceSpan, path: string, next: u32)
    requires LowerAll(resolver, span, path, next).Success?
    ensures CanAllocate(next)
  {
  }

  // ---------- join ----------

  lemma EmittedJoin(r: Relation, left: Relation, right: Relation, condition: Scalar, binder: nat, depth: nat)
    requires r.operator == Join(Inner, left, right, condition) && EmitRelation(r, binder, depth).Success?
    ensures EmitRelation(left, binder, depth + 1).Success?
    ensures var l := EmitRelation(left, binder, depth + 1).value;
            && EmitRelation(right, l.nextBinder, depth + 1).Success? && l.binding == ColumnBinding
            && var rr := EmitRelation(right, l.nextBinder, depth + 1).value;
               var lb, rb := Binder(rr.nextBinder), Binder(rr.nextBinder + 1);
               var references := JoinReferences(left, right, lb, rb);
               && rr.binding == ColumnBinding && |left.schema| == 1 && |right.schema| == 1
               && references.Some? && EmitScalar(condition, references.value, depth + 1).Success?
               && EmitRelation(r, binder, depth).value.query ==
                  AddStep(l.query, JoinStep(rr.query, false, lb, rb, EmitScalar(condition, references.value, depth + 1).value))
  {
    hide EmitScalar, Binder;
    assert EmitRelation(r, binder, depth) == EmitOperator(r, binder, depth + 1);
  }

  /** How the condition of an emitted join refers to the two sides. */
  function JoinReferences(left: Relation, right: Relation, l: string, r: string): Option<References> {
    if |left.schema| == 1 && |right.schema| == 1
    then Some(map[left.schema[0].id := Chain(Variable(l), [])] + map[right.schema[0].id := Chain(Variable(r), [])])
    else None
  }

  lemma LoweredJoin(resolver: Resolver, site: Site, a: Allocated, step: Step)
    requires step.JoinStep? && LowerStep(resolver, site, a, step).Success?
    ensures BindsColumn(a.state) && IsOneNode(step.right, step.grouped)
    ensures var b := LowerQuery(resolver, site.Child(1), step.right, a.next);
            && b.Success? && BindsColumn(b.value.state)
            && var bindings := [(step.leftParameter, a.state.element.value), (step.rightParameter, b.value.state.element.value)];
               var c := LowerScalar(resolver, site.Child(0), bindings, step.condition);
               && c.Success?
               && ReferencesColumn(c.value.expression, a.state.element.value.bound.column.id)
               && ReferencesColumn(c.value.expression, b.value.state.element.value.bound.column.id)
               && LowerStep(resolver, site, a, step).value.state.expression.operator ==
                  Join(Inner, a.state.expression, b.value.state.expression, c.value.expression)
  {
    hide LowerScalar, OperatorOk, KeysInScope, Merged, LowerQuery, DistinctIds, ReferencesColumn;
  }

  lemma JoinAlike(a: Relation, b: Relation)
    requires Alike(a, b) && a.operator.Join? && b.operator.Join?
    ensures Alike(a.operator.left, b.operator.left) && Alike(a.operator.right, b.operator.right)
    ensures EraseScalar(a.operator.condition, Ids(a.operator.left.schema) + Ids(a.operator.right.schema), 0) ==
            EraseScalar(b.operator.condition, Ids(b.operator.left.schema) + Ids(b.operator.right.schema), 0)
  {
    hide EraseScalar, EraseColumns, EraseFacts, EraseProjections, EraseSelection, EraseSortKeys;
    assert Erase(a, 0) == Erase(b, 0);
    AlikeFromOneBase(a.operator.left, b.operator.left, 0);
    NamesAlike(a.operator.left, b.operator.left);
    AlikeFromOneBase(a.operator.right, b.operator.right, |a.operator.left.schema|);
  }

  /** A join returns only over an extent, and only if both its sides return. */
  lemma JoinReturns(resolver: Resolver, site: Site, r: Relation, left: Relation, right: Relation, condition: Scalar, binder: nat, depth: nat, next: u32)
    requires r.operator == Join(Inner, left, right, condition) && Returns(resolver, site, r, binder, depth, next)
    ensures Returns(resolver, site, left, binder, depth + 1, next) && right.operator.Scan?
    ensures var l := EmitRelation(left, binder, depth + 1).value;
            var a := LowerQuery(resolver, site, l.query, next).value;
            Returns(resolver, site.Child(|l.query.steps| + 1).Child(1), right, l.nextBinder, depth + 1, a.next)
  {
    hide LowerQuery, EmitRelation, LowerStep, Alike, EmitScalar, Binder, LowerScalar, ReferencesColumn;
    EmittedJoin(r, left, right, condition, binder, depth);
    var l := EmitRelation(left, binder, depth + 1).value;
    var rr := EmitRelation(right, l.nextBinder, depth + 1).value;
    var lb, rb := Binder(rr.nextBinder), Binder(rr.nextBinder + 1);
    var step := JoinStep(rr.query, false, lb, rb, EmitScalar(condition, JoinReferences(left, right, lb, rb).value, depth + 1).value);
    var t := LowerQuery(resolver, site, EmitRelation(r, binder, depth).value.query, next).value;
    AddStepLowers(resolver, site, l.query, step, next);
    var a := LowerQuery(resolver, site, l.query, next).value;
    LoweredJoin(resolver, site.Child(|l.query.steps| + 1), a, step);
    AlikeJoins(t.state.expression, r);
    JoinAlike(t.state.expression, r);
    EmittedSteps(right, l.nextBinder, depth + 1);
  }

  lemma AlikeJoins(a: Relation, b: Relation)
    requires Alike(a, b)
    ensures a.operator.Join? <==> b.operator.Join?
  {
    assert Erase(a, 0) == Erase(b, 0);
  }

  lemma JoinConditionMade(resolver: Resolver, node: Site, r: Relation, left: Relation, right: Relation, condition: Scalar, lb: string, rb: string,
                          a: RelationState, b: RelationState, depth: nat, from: nat, middle: nat, next: nat)
    requires SidesReady(resolver, a, b, left, right, from, middle, next) && Valid(r) && r.operator == Join(Inner, left, right, condition)
    requires lb != rb && ScalarAnswered(resolver, condition) && JoinReferences(left, right, lb, rb).Some?
    requires EmitScalar(condition, JoinReferences(left, right, lb, rb).value, depth).Success?
    requires var x := EmitScalar(condition, JoinReferences(left, right, lb, rb).value, depth).value;
             var c := LowerScalar(resolver, node.Child(0), [(lb, a.element.value), (rb, b.element.value)], x);
             && c.Success?
             && EraseScalar(c.value.expression, Ids(a.expression.schema) + Ids(b.expression.schema), 0) ==
                EraseScalar(condition, Ids(left.schema) + Ids(right.schema), 0)
             && ReferencesColumn(c.value.expression, a.element.value.bound.column.id)
             && ReferencesColumn(c.value.expression, b.element.value.bound.column.id)
    ensures ScalarMade(condition) && JoinsBothSides(left, right, condition)
  {
    hide EmitScalar, ScalarError, ScalarMade, ScalarAnswered, Replays, LowerValue, Erase, EraseScalar, DistinctIds, IsBoolean, SidesReady, LocalsFit, SameColumns,
         ReferencesRead, ReferencesColumn, Valid, Ordinary;
    JoinUnfolds(r, left, right, condition);
    SidesOrdinary(resolver, a, b, left, right, from, middle, next);
    SidesAreOne(resolver, a, b, left, right, from, middle, next);
    SchemasJoined(left.schema, right.schema);
    SchemasJoined(a.expression.schema, b.expression.schema);
    var x, y := a.element.value.bound, b.element.value.bound;
    var to, schema := a.expression.schema + b.expression.schema, left.schema + right.schema;
    var references, bindings := JoinReferences(left, right, lb, rb).value, [(lb, a.element.value), (rb, b.element.value)];
    JoinReferencesRead(resolver, left.schema, right.schema, lb, rb, x, y);
    var e := EmitScalar(condition, references, depth).value;
    var c := LowerScalar(resolver, node.Child(0), bindings, e).value;
    ReplayedScalarIsMade(resolver, node.Child(0), references, bindings, schema, [x, y], condition, depth, Ids(to), 0);
    ScalarReplays(resolver, node.Child(0), references, bindings, schema, [x, y], condition, depth);
    ScalarOf(LowerValue(resolver, node.Child(0), bindings, e.root, e.members), resolver, to, condition, schema);
    ReplayedErases(resolver, c, to, condition, schema, 0);
    ReadsCarryOver(c.expression, to, condition, schema, 0, 0);
    ReadsCarryOver(c.expression, to, condition, schema, 1, 0);
  }

  lemma JoinSettled(r: Relation, left: Relation, right: Relation, condition: Scalar)
    requires r.operator == Join(Inner, left, right, condition) && Replayable(left) && Replayable(right) && right.operator.Scan?
    requires ScalarMade(condition) && JoinsBothSides(left, right, condition)
    ensures Replayable(r) && Allocations(r) == Allocations(left) + Allocations(right)
  {
    hide ScalarMade, JoinsBothSides;
  }

  lemma JoinSettles(resolver: Resolver, site: Site, r: Relation, left: Relation, right: Relation, condition: Scalar, binder: nat, depth: nat, next: u32)
    requires Ordinary(resolver) && Valid(r) && Valid(left) && Valid(right) && r.operator == Join(Inner, left, right, condition)
    requires ScalarAnswered(resolver, condition) && right.operator.Scan?
    requires Returns(resolver, site, r, binder, depth, next) && Settled(resolver, site, left, binder, depth + 1, next)
    requires var l := EmitRelation(left, binder, depth + 1).value;
             Settled(resolver, site.Child(|l.query.steps| + 1).Child(1), right, l.nextBinder, depth + 1, next + Allocations(left))
    ensures Settled(resolver, site, r, binder, depth, next)
  {
    hide LowerQuery, EmitRelation, LowerStep, Alike, EmitScalar, Binder, LowerScalar, ReferencesColumn, ComesBack, BodyReady, Replayable, Allocations, Ordinary, Valid,
         ScalarMade, ScalarAnswered, JoinsBothSides, EraseScalar;
    EmittedJoin(r, left, right, condition, binder, depth);
    var l := EmitRelation(left, binder, depth + 1).value;
    var rr := EmitRelation(right, l.nextBinder, depth + 1).value;
    var lb, rb := Binder(rr.nextBinder), Binder(rr.nextBinder + 1);
    BindersDiffer(rr.nextBinder, rr.nextBinder + 1);
    var step := JoinStep(rr.query, false, lb, rb, EmitScalar(condition, JoinReferences(left, right, lb, rb).value, depth + 1).value);
    var t := LowerQuery(resolver, site, EmitRelation(r, binder, depth).value.query, next).value;
    var node := site.Child(|l.query.steps| + 1);
    ComesBackState(resolver, site, left, binder, depth + 1, next);
    var a := LowerQuery(resolver, site, l.query, next).value;
    ComesBackState(resolver, node.Child(1), right, l.nextBinder, depth + 1, a.next);
    var b := LowerQuery(resolver, node.Child(1), rr.query, a.next).value;
    AddStepLowers(resolver, site, l.query, step, next);
    LoweredJoin(resolver, node, a, step);
    AlikeJoins(t.state.expression, r);
    JoinAlike(t.state.expression, r);
    assert SidesReady(resolver, a.state, b.state, left, right, next, a.next, b.next);
    JoinConditionMade(resolver, node, r, left, right, condition, lb, rb, a.state, b.state, depth + 1, next, a.next, b.next);
    JoinSettled(r, left, right, condition);
    JoinComesBack(resolver, site, r, left, right, condition, binder, depth, next);
  }

  // ---------- the law ----------

  /** A relation its emitted query lowers back to is replayable, and the identities suffice. */
  lemma {:induction false} ReturnedIsSettled(resolver: Resolver, site: Site, r: Relation, binder: nat, depth: nat, next: u32)
    requires Ordinary(resolver) && Valid(r) && Answered(resolver, r) && Returns(resolver, site, r, binder, depth, next)
    ensures Settled(resolver, site, r, binder, depth, next)
    decreases r
  {
    hide ComesBack, Returns, Ordinary, Replayable, Allocations, ScalarAnswered, OperatorOk, DistinctIds, KeysInScope, EmitRelation, LowerQuery;
    var d := depth + 1;
    match r.operator
    case Scan(c) => ScanSettles(resolver, site, r, c, binder, depth, next);
    case Filter(input, condition) =>
      UnaryReturns(resolver, site, r, binder, depth, next);
      ReturnedIsSettled(resolver, site, input, binder, d, next);
      FilterSettles(resolver, site, r, input, condition, binder, depth, next);
    case Project(input, ps, kind) =>
      UnaryReturns(resolver, site, r, binder, depth, next);
      ReturnedIsSettled(resolver, site, input, binder, d, next);
      forall i | 0 <= i < |ps| ensures ScalarAnswered(resolver, ps[i].expression) {
        assert ps[i] in ps;
      }
      if kind == ScalarProjection {
        MapSettles(resolver, site, r, input, ps, binder, depth, next);
      } else {
        RelationProjectSettles(resolver, site, r, input, ps, binder, depth, next);
      }
    case Join(_, left, right, condition) =>
      JoinReturns(resolver, site, r, left, right, condition, binder, depth, next);
      ReturnedIsSettled(resolver, site, left, binder, d, next);
      ComesBackState(resolver, site, left, binder, d, next);
      var l := EmitRelation(left, binder, d).value;
      ReturnedIsSettled(resolver, site.Child(|l.query.steps| + 1).Child(1), right, l.nextBinder, d, next + Allocations(left));
      JoinSettles(resolver, site, r, left, right, condition, binder, depth, next);
    case Distinct(input) =>
      UnaryReturns(resolver, site, r, binder, depth, next);
      ReturnedIsSettled(resolver, site, input, binder, d, next);
      EmittedFromReturns(resolver, site, r, binder, depth, next);
      DistinctComesBack(resolver, site, r, input, binder, depth, next);
      KeptSettled(r);
    case DistinctOn(input, columns) =>
      UnaryReturns(resolver, site, r, binder, depth, next);
      ReturnedIsSettled(resolver, site, input, binder, d, next);
      EmittedFromReturns(resolver, site, r, binder, depth, next);
      DistinctOnComesBack(resolver, site, r, input, columns, binder, depth, next);
      KeptSettled(r);
    case Sort(input, keys) =>
      UnaryReturns(resolver, site, r, binder, depth, next);
      ReturnedIsSettled(resolver, site, input, binder, d, next);
      EmittedFromReturns(resolver, site, r, binder, depth, next);
      SortComesBack(resolver, site, r, input, keys, binder, depth, next);
      KeptSettled(r);
  }

  lemma EmittedFromReturns(resolver: Resolver, site: Site, r: Relation, binder: nat, depth: nat, next: u32)
    requires Returns(resolver, site, r, binder, depth, next)
    ensures EmitRelation(r, binder, depth).Success?
  {
    hide EmitRelation, LowerQuery, Alike;
  }

  /** The equivalence key of what the emitted query of `r` lowers to, if it lowers. */
  ghost function ReplayedKey(resolver: Resolver, site: Site, r: Relation, binder: nat, depth: nat, next: u32): Option<string>
    requires EmitRelation(r, binder, depth).Success?
  {
    var t := LowerQuery(resolver, site, EmitRelation(r, binder, depth).value.query, next);
    if t.Success? then Some(EquivalenceKey(t.value.state.expression)) else None
  }

  /** Emitting and lowering a surface query keeps the equivalence key of exactly the relations
      lowering could have made with `value` columns and joins over extents,
      for as long as there are column identities to give out. */
  lemma SurfaceReplayKeepsKeyExactly(resolver: Resolver, site: Site, r: Relation, binder: nat, depth: nat, next: u32)
    requires Ordinary(resolver) && Valid(r) && Answered(resolver, r) && EmitRelation(r, binder, depth).Success?
    ensures ReplayedKey(resolver, site, r, binder, depth, next) == Some(EquivalenceKey(r)) <==>
            Made(r) && ScalarColumnsAreValue(r) && JoinsOverScans(r) && next + Allocations(r) < U32_LIMIT
  {
    hide LowerQuery, EmitRelation, EquivalenceKey, Made, ScalarColumnsAreValue, JoinsOverScans, Allocations, Ordinary, Valid, Answered, Erase;
    if Replayable(r) && next + Allocations(r) < U32_LIMIT {
      QueryComesBack(resolver, site, r, binder, depth, next);
      var t := LowerQuery(resolver, site, EmitRelation(r, binder, depth).value.query, next).value.state.expression;
      assert Erase(t, 0) == Erase(r, 0);
      KeyIsComplete(t, r);
    }
    if ReplayedKey(resolver, site, r, binder, depth, next) == Some(EquivalenceKey(r)) {
      var t := LowerQuery(resolver, site, EmitRelation(r, binder, depth).value.query, next).value.state.expression;
      KeyIsComplete(t, r);
      AlikeFromOneBase(t, r, 0);
      ReturnedIsSettled(resolver, site, r, binder, depth, next);
    }
  }
}
