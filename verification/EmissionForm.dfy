/** The shape of emitted queries: every bare name is an identifier, every lambda
    parameter is a binder of its own, and every body reads only its own lambda. */
module EmissionForm {
  import opened Basics
  import opened Text
  import opened Relational
  import opened Surface
  import opened Canonical
  import opened Emission
  import opened Unambiguity

  // ---------- names ----------

  lemma BinderIsIdentifier(k: nat)
    ensures IsIdentifier(Binder(k))
  {
    DecimalReads(k);
    var d := Decimal(k);
    var s := Binder(k);
    assert s[0] == 'v';
    forall i | 0 <= i < |s| ensures IsIdentifierChar(s[i]) {
      assert i > 0 ==> s[i] == d[i - 1];
    }
  }

  // ---------- what a body reads ----------

  function Variables(root: Root): set<string> {
    match root
    case Variable(name) => {name}
    case BooleanRoot(_) => {}
    case IntegerRoot(_) => {}
    case StringRoot(_) => {}
    case EqualRoot(left, right) => Variables(left.root) + Variables(right.root)
    case NotEqualRoot(left, right) => Variables(left.root) + Variables(right.root)
  }

  ghost predicate BodyFits(x: Expr, parameters: set<string>) {
    ExprWellFormed(x) && Variables(x.root) <= parameters
  }

  ghost predicate ReferencesFit(references: References, parameters: set<string>) {
    forall id :: id in references ==> BodyFits(references[id], parameters)
  }

  lemma ReferencesForFit(binding: BindingKind, schema: Schema, k: nat)
    requires ReferencesFor(binding, schema, Binder(k)).Some?
    ensures ReferencesFit(ReferencesFor(binding, schema, Binder(k)).value, {Binder(k)})
  {
    BinderIsIdentifier(k);
  }

  lemma {:induction false} ScalarFits(e: Scalar, references: References, depth: nat, parameters: set<string>)
    requires ReferencesFit(references, parameters) && EmitScalar(e, references, depth).Success?
    ensures BodyFits(EmitScalar(e, references, depth).value, parameters)
    decreases e
  {
    hide IsIdentifier;
    match e.operator
    case ColumnRead(_) =>
    case Literal(_) =>
    case Navigation(input, _) => ScalarFits(input, references, depth + 1, parameters);
    case Equal(left, right) =>
      ScalarFits(left, references, depth + 1, parameters);
      ScalarFits(right, references, depth + 1, parameters);
    case Not(input) =>
      ScalarFits(input.operator.left, references, depth + 1, parameters);
      ScalarFits(input.operator.right, references, depth + 1, parameters);
  }

  lemma {:induction false} SpecsFit(ps: seq<Projection>, schema: Schema, references: References, binder: string, depth: nat)
    requires |ps| == |schema| && IsIdentifier(binder) && ReferencesFit(references, {binder})
    requires EmitSpecs(ps, schema, references, binder, depth).Success?
    ensures forall s :: s in EmitSpecs(ps, schema, references, binder, depth).value ==>
              s.parameter == binder && SpecWellFormed(s) && BodyFits(s.body, {binder})
    decreases |ps|
  {
    hide IsIdentifier, EmitScalar;
    if ps != [] {
      ScalarFits(ps[0].expression, references, depth, {binder});
      SpecsFit(ps[1..], schema[1..], references, binder, depth);
    }
  }

  // ---------- binders ----------

  /** The lambda parameters of a step, in the order they are printed; the
      columns of one project share theirs. */
  function StepBinders(step: Step): seq<string>
    decreases step, 0
  {
    match step
    case PropertyStep(_) => []
    case FilterStep(parameter, _) => [parameter]
    case MapStep(parameter, _) => [parameter]
    case ProjectStep(specs) => if specs == [] then [] else [specs[0].parameter]
    case JoinStep(right, _, l, r, _) => Binders(right.steps) + [l, r]
    case DistinctStep => []
    case DistinctOnStep(_) => []
    case SortStep(_) => []
  }

  function Binders(steps: seq<Step>): seq<string>
    decreases steps, 1
  {
    if steps == [] then [] else Binders(steps[..|steps| - 1]) + StepBinders(steps[|steps| - 1])
  }

  ghost predicate IsBinder(name: string, lo: nat, hi: nat) {
    exists k :: lo <= k < hi && name == Binder(k)
  }

  /** The names are distinct binders numbered from `lo` up to `hi`. */
  ghost predicate Numbered(names: seq<string>, lo: nat, hi: nat) {
    && (forall i :: 0 <= i < |names| ==> IsBinder(names[i], lo, hi))
    && (forall i, j :: 0 <= i < j < |names| ==> names[i] != names[j])
  }

  lemma NumberedAppend(a: seq<string>, b: seq<string>, lo: nat, middle: nat, hi: nat)
    requires lo <= middle <= hi && Numbered(a, lo, middle) && Numbered(b, middle, hi)
    ensures Numbered(a + b, lo, hi)
  {
    var names := a + b;
    forall i | 0 <= i < |names| ensures IsBinder(names[i], lo, hi) {
      if i < |a| {
        assert IsBinder(a[i], lo, middle);
      } else {
        assert IsBinder(b[i - |a|], middle, hi);
      }
    }
    forall i, j | 0 <= i < j < |names| ensures names[i] != names[j] {
      if i < |a| <= j {
        assert IsBinder(a[i], lo, middle) && IsBinder(b[j - |a|], middle, hi);
        BindersApart(a[i], b[j - |a|], lo, middle, hi);
      } else if |a| <= i {
        assert b[i - |a|] != b[j - |a|];
      }
    }
  }

  lemma BindersApart(x: string, y: string, lo: nat, middle: nat, hi: nat)
    requires IsBinder(x, lo, middle) && IsBinder(y, middle, hi)
    ensures x != y
  {
    var k :| lo <= k < middle && x == Binder(k);
    var m :| middle <= m < hi && y == Binder(m);
    BindersDiffer(k, m);
  }

  /** Each body of the step reads only that step's own parameters. */
  ghost predicate StepScoped(step: Step)
    decreases step, 0
  {
    match step
    case PropertyStep(_) => true
    case FilterStep(parameter, body) => Variables(body.root) <= {parameter}
    case MapStep(parameter, body) => Variables(body.root) <= {parameter}
    case ProjectStep(specs) => forall s :: s in specs ==> s.parameter == specs[0].parameter && Variables(s.body.root) <= {s.parameter}
    case JoinStep(right, _, l, r, condition) => Scoped(right.steps) && Variables(condition.root) <= {l, r}
    case DistinctStep => true
    case DistinctOnStep(_) => true
    case SortStep(_) => true
  }

  ghost predicate Scoped(steps: seq<Step>)
    decreases steps, 1
  {
    steps != [] ==> Scoped(steps[..|steps| - 1]) && StepScoped(steps[|steps| - 1])
  }

  /** Everything the emitter promises of the query it has built. */
  ghost predicate InForm(em: Emitted, next: nat) {
    && QueryWellFormed(em.query)
    && Scoped(em.query.steps)
    && next <= em.nextBinder
    && Numbered(Binders(em.query.steps), next, em.nextBinder)
  }

  lemma {:induction false} WellFormedAppend(steps: seq<Step>, step: Step)
    requires StepsWellFormed(steps) && StepWellFormed(step)
    ensures StepsWellFormed(steps + [step])
  {
    hide StepWellFormed;
    if steps == [] {
      assert [] + [step] == [step] && [step][1..] == [];
    } else {
      assert (steps + [step])[1..] == steps[1..] + [step];
      WellFormedAppend(steps[1..], step);
    }
  }

  lemma AddStepInForm(q: Query, step: Step, binding: BindingKind, lo: nat, middle: nat, hi: nat)
    requires QueryWellFormed(q) && Scoped(q.steps) && Numbered(Binders(q.steps), lo, middle)
    requires StepWellFormed(step) && StepScoped(step) && Numbered(StepBinders(step), middle, hi) && lo <= middle <= hi
    ensures InForm(Emitted(AddStep(q, step), binding, hi), lo)
  {
    hide Numbered, StepWellFormed, StepScoped, StepBinders;
    var steps := q.steps + [step];
    assert steps[..|steps| - 1] == q.steps && steps[|steps| - 1] == step;
    WellFormedAppend(q.steps, step);
    NumberedAppend(Binders(q.steps), StepBinders(step), lo, middle, hi);
  }

  lemma OneBinder(k: nat)
    ensures Numbered([Binder(k)], k, k + 1)
  {
    assert [Binder(k)][0] == Binder(k);
  }

  lemma NoBinders(lo: nat, hi: nat)
    ensures Numbered([], lo, hi)
  {
  }

  lemma JoinBinders(right: seq<Step>, lo: nat, k: nat)
    requires Numbered(Binders(right), lo, k) && lo <= k
    ensures Numbered(Binders(right) + [Binder(k), Binder(k + 1)], lo, k + 2)
  {
    OneBinder(k);
    OneBinder(k + 1);
    NumberedAppend([Binder(k)], [Binder(k + 1)], k, k + 1, k + 2);
    assert [Binder(k)] + [Binder(k + 1)] == [Binder(k), Binder(k + 1)];
    NumberedAppend(Binders(right), [Binder(k), Binder(k + 1)], lo, k, k + 2);
  }

  lemma ScanInForm(r: Relation, c: ResolvedClass, next: nat)
    requires EmitScan(r, c, next).Success?
    ensures InForm(EmitScan(r, c, next).value, next)
  {
    hide IsIdentifier, IsEmittablePath;
    var q := Query(c.path, []);
    assert Binders(q.steps) == [] && Scoped(q.steps);
    assert QueryWellFormed(q);
  }

  lemma FilterInForm(r: Relation, source: Relation, condition: Scalar, input: Emitted, next: nat, depth: nat)
    requires InForm(input, next) && EmitFilter(r, source, condition, input, depth).Success?
    ensures InForm(EmitFilter(r, source, condition, input, depth).value, next)
  {
    hide IsIdentifier, Numbered, EmitScalar, ReferencesFor, QueryWellFormed, Scoped, Binder, ReferencesFit;
    var k := input.nextBinder;
    BinderIsIdentifier(k);
    ReferencesForFit(input.binding, source.schema, k);
    var references := ReferencesFor(input.binding, source.schema, Binder(k)).value;
    ScalarFits(condition, references, depth, {Binder(k)});
    OneBinder(k);
    AddStepInForm(input.query, FilterStep(Binder(k), EmitScalar(condition, references, depth).value), input.binding, next, k, k + 1);
  }

  lemma MapInForm(r: Relation, source: Relation, ps: seq<Projection>, input: Emitted, next: nat, depth: nat)
    requires InForm(input, next) && EmitMap(r, source, ps, input, depth).Success?
    ensures InForm(EmitMap(r, source, ps, input, depth).value, next)
  {
    hide IsIdentifier, Numbered, EmitScalar, ReferencesFor, QueryWellFormed, Scoped, Binder, ReferencesFit;
    var k := input.nextBinder;
    BinderIsIdentifier(k);
    ReferencesForFit(input.binding, source.schema, k);
    var references := ReferencesFor(input.binding, source.schema, Binder(k)).value;
    ScalarFits(ps[0].expression, references, depth, {Binder(k)});
    OneBinder(k);
    AddStepInForm(input.query, MapStep(Binder(k), EmitScalar(ps[0].expression, references, depth).value), ColumnBinding, next, k, k + 1);
  }

  lemma RelationProjectInForm(r: Relation, source: Relation, ps: seq<Projection>, input: Emitted, next: nat, depth: nat)
    requires InForm(input, next) && |ps| == |r.schema| && EmitRelationProject(r, source, ps, input, depth).Success?
    ensures InForm(EmitRelationProject(r, source, ps, input, depth).value, next)
  {
    hide IsIdentifier, Numbered, EmitScalar, EmitSpecs, ReferencesFor, QueryWellFormed, Scoped, Binder, ReferencesFit, NamesAreUnique;
    var k := input.nextBinder;
    BinderIsIdentifier(k);
    ReferencesForFit(input.binding, source.schema, k);
    var references := ReferencesFor(input.binding, source.schema, Binder(k)).value;
    SpecsFit(ps, r.schema, references, Binder(k), depth);
    OneBinder(k);
    NoBinders(k, k + 1);
    AddStepInForm(input.query, ProjectStep(EmitSpecs(ps, r.schema, references, Binder(k), depth).value), RowBinding, next, k, k + 1);
  }

  lemma JoinReferencesFit(a: References, b: References, l: string, r: string)
    requires ReferencesFit(a, {l}) && ReferencesFit(b, {r})
    ensures ReferencesFit(a + b, {l, r})
  {
  }

  lemma JoinInForm(r: Relation, left: Relation, right: Relation, condition: Scalar, l: Emitted, rr: Emitted, next: nat, depth: nat)
    requires InForm(l, next) && InForm(rr, l.nextBinder) && EmitJoin(r, left, right, condition, l, rr, depth).Success?
    ensures InForm(EmitJoin(r, left, right, condition, l, rr, depth).value, next)
  {
    hide IsIdentifier, Numbered, EmitScalar, ReferencesFor, QueryWellFormed, Scoped, Binder, ReferencesFit;
    var k := rr.nextBinder;
    BinderIsIdentifier(k);
    BinderIsIdentifier(k + 1);
    ReferencesForFit(l.binding, left.schema, k);
    ReferencesForFit(rr.binding, right.schema, k + 1);
    var a, b := ReferencesFor(l.binding, left.schema, Binder(k)).value, ReferencesFor(rr.binding, right.schema, Binder(k + 1)).value;
    JoinReferencesFit(a, b, Binder(k), Binder(k + 1));
    ScalarFits(condition, a + b, depth, {Binder(k), Binder(k + 1)});
    JoinBinders(rr.query.steps, l.nextBinder, k);
    var step := JoinStep(rr.query, false, Binder(k), Binder(k + 1), EmitScalar(condition, a + b, depth).value);
    AddStepInForm(l.query, step, NoBinding, next, l.nextBinder, k + 2);
  }

  /** Every emitted query is in form: its bare names are identifiers, its binders
      are distinct and taken from the counter, its bodies read their own lambdas. */
  lemma {:induction false} EmissionIsInForm(r: Relation, next: nat, depth: nat)
    requires EmitRelation(r, next, depth).Success?
    ensures InForm(EmitRelation(r, next, depth).value, next)
    decreases r
  {
    hide InForm, EmitScan, EmitFilter, EmitMap, EmitRelationProject, EmitJoin, SelectorNames, EmitKeys, NamesAreUnique;
    var d := depth + 1;
    match r.operator
    case Scan(c) => ScanInForm(r, c, next);
    case Filter(input, condition) =>
      EmissionIsInForm(input, next, d);
      FilterInForm(r, input, condition, EmitRelation(input, next, d).value, next, d);
    case Project(input, projections, kind) =>
      EmissionIsInForm(input, next, d);
      if kind == ScalarProjection {
        MapInForm(r, input, projections, EmitRelation(input, next, d).value, next, d);
      } else {
        RelationProjectInForm(r, input, projections, EmitRelation(input, next, d).value, next, d);
      }
    case Join(_, left, right, condition) =>
      EmissionIsInForm(left, next, d);
      var l := EmitRelation(left, next, d).value;
      EmissionIsInForm(right, l.nextBinder, d);
      JoinInForm(r, left, right, condition, l, EmitRelation(right, l.nextBinder, d).value, next, d);
    case Distinct(input) =>
      EmissionIsInForm(input, next, d);
      BareStepInForm(EmitRelation(input, next, d).value, DistinctStep, next);
    case DistinctOn(input, columns) =>
      EmissionIsInForm(input, next, d);
      BareStepInForm(EmitRelation(input, next, d).value, DistinctOnStep(SelectorNames(columns, input.schema).value), next);
    case Sort(input, keys) =>
      EmissionIsInForm(input, next, d);
      BareStepInForm(EmitRelation(input, next, d).value, SortStep(EmitKeys(keys, input.schema).value), next);
  }

  lemma BareStepInForm(input: Emitted, step: Step, next: nat)
    requires InForm(input, next) && (step.DistinctStep? || step.DistinctOnStep? || step.SortStep?)
    ensures InForm(input.(query := AddStep(input.query, step)), next)
  {
    hide Numbered, QueryWellFormed, Scoped;
    NoBinders(input.nextBinder, input.nextBinder);
    AddStepInForm(input.query, step, input.binding, next, input.nextBinder, input.nextBinder);
  }

  /** Canonical text decides: two emitted queries with the same text are the same query. */
  lemma EqualTextsAreEqualQueries(a: Relation, b: Relation)
    requires EmitCanonical(a).Success? && EmitCanonical(b).Success?
    ensures QueryText(EmitCanonical(a).value.query) == QueryText(EmitCanonical(b).value.query) <==>
            EmitCanonical(a).value.query == EmitCanonical(b).value.query
  {
    hide EmitRelation, QueryText;
    EmissionIsInForm(a, 0, 0);
    EmissionIsInForm(b, 0, 0);
    TextIsUnambiguous(EmitCanonical(a).value.query, EmitCanonical(b).value.query);
  }
}
