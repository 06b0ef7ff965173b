/** Emitted text lowers back to the relation it was emitted from, and exactly when. */
module ReplayText {
  import opened Basics
  import opened Relational
  import opened Semantics
  import opened Keys
  import opened Surface
  import opened Canonical
  import opened Emission
  import opened EmissionForm
  import opened Unambiguity
  import opened Reader
  import opened Lowering
  import opened LoweringInvariant
  import opened ReplayScalars
  import opened Replay
  import ReplaySteps
  import opened ReplayQuery

  // ---------- which emitted queries can be read ----------

  /** Every column label emission prints reads back: it is no bare reserved word,
      and a quoted one is a name the model accepts. */
  ghost predicate LabelsReadBack(r: Relation)
    decreases r
  {
    match r.operator
    case Scan(_) => true
    case Filter(input, _) => LabelsReadBack(input)
    case Project(input, _, kind) =>
      LabelsReadBack(input) && (kind == RelationProjection ==> forall i :: 0 <= i < |r.schema| ==> LabelReads(r.schema[i].name))
    case Join(_, left, right, _) => LabelsReadBack(left) && LabelsReadBack(right)
    case Distinct(input) => LabelsReadBack(input)
    case DistinctOn(input, _) => LabelsReadBack(input) && forall i :: 0 <= i < |r.schema| ==> LabelReads(r.schema[i].name)
    case Sort(input, keys) =>
      && LabelsReadBack(input)
      && forall i :: 0 <= i < |keys| ==>
           FindColumn(input.schema, keys[i].column).Some? ==> LabelReads(FindColumn(input.schema, keys[i].column).value.name)
  }

  lemma {:induction false} StepsReadAppend(steps: seq<Step>, step: Step)
    ensures StepsRead(steps + [step]) <==> StepsRead(steps) && StepReads(step)
  {
    hide StepReads;
    if steps == [] {
      assert [] + [step] == [step] && [step][1..] == [];
      assert StepsRead([]);
    } else {
      assert (steps + [step])[1..] == steps[1..] + [step] && (steps + [step])[0] == steps[0];
      StepsReadAppend(steps[1..], step);
    }
  }

  lemma BinderIsFree(k: nat)
    ensures Binder(k) !in RESERVED
  {
    assert Binder(k)[0] == 'v';
  }

  /** The references name binders, and what is read of a binder has at most one property. */
  ghost predicate NamesBinders(references: References) {
    forall id :: id in references ==> references[id].root.Variable? && references[id].root.name !in RESERVED
  }

  lemma {:induction false} ScalarReads(e: Scalar, references: References, depth: nat)
    requires ScalarMade(e) && ReadsSpoken(e, references) && NamesBinders(references) && EmitScalar(e, references, depth).Success?
    ensures ExprReads(EmitScalar(e, references, depth).value)
    decreases e
  {
    match e.operator
    case ColumnRead(_) =>
    case Literal(_) =>
    case Navigation(input, _) => ScalarReads(input, references, depth + 1);
    case Equal(left, right) =>
      ScalarReads(left, references, depth + 1);
      ScalarReads(right, references, depth + 1);
    case Not(input) =>
      ScalarReads(input.operator.left, references, depth + 1);
      ScalarReads(input.operator.right, references, depth + 1);
  }

  lemma BodyReads(e: Scalar, binding: BindingKind, schema: Schema, k: nat, depth: nat)
    requires DistinctIds(schema) && ReferencesFor(binding, schema, Binder(k)).Some? && ScalarMade(e) && ReadsPlainly(e, binding, schema)
    requires EmitScalar(e, ReferencesFor(binding, schema, Binder(k)).value, depth).Success?
    ensures ExprReads(EmitScalar(e, ReferencesFor(binding, schema, Binder(k)).value, depth).value)
  {
    hide EmitScalar, ScalarMade, ReadsSpoken, DistinctIds, Binder, ExprReads, ReadsPlainly;
    BinderIsFree(k);
    PlainReadsAreSpoken(e, binding, schema, Binder(k), depth);
    ScalarReads(e, ReferencesFor(binding, schema, Binder(k)).value, depth);
  }

  // ---------- step by step ----------

  lemma FilterReads(r: Relation, input: Relation, condition: Scalar, binder: nat, depth: nat)
    requires Valid(input) && r.operator == Filter(input, condition) && EmitRelation(r, binder, depth).Success?
    requires ScalarMade(condition) && ReadsPlainly(condition, BindingOf(input), input.schema)
    ensures EmitRelation(input, binder, depth + 1).Success?
    ensures QueryReads(EmitRelation(r, binder, depth).value.query) <==> QueryReads(EmitRelation(input, binder, depth + 1).value.query)
  {
    hide EmitRelation, EmitScalar, ReferencesFor, Binder, ExprReads, ScalarMade, ReadsPlainly, BindingOf, OperatorOk, DistinctIds, KeysInScope;
    EmittedFilter(r, input, condition, binder, depth);
    EmissionBindsAlike(input, binder, depth + 1);
    var em := EmitRelation(input, binder, depth + 1).value;
    BinderIsFree(em.nextBinder);
    BodyReads(condition, em.binding, input.schema, em.nextBinder, depth + 1);
    var steps := EmitRelation(r, binder, depth).value.query.steps;
    StepsReadAppend(em.query.steps, steps[|steps| - 1]);
  }

  lemma MapReads(r: Relation, input: Relation, ps: seq<Projection>, binder: nat, depth: nat)
    requires Valid(input) && r.operator == Project(input, ps, ScalarProjection) && EmitRelation(r, binder, depth).Success?
    requires forall i :: 0 <= i < |ps| ==> ScalarMade(ps[i].expression) && ReadsPlainly(ps[i].expression, BindingOf(input), input.schema)
    ensures EmitRelation(input, binder, depth + 1).Success?
    ensures QueryReads(EmitRelation(r, binder, depth).value.query) <==> QueryReads(EmitRelation(input, binder, depth + 1).value.query)
  {
    hide EmitRelation, EmitScalar, ReferencesFor, Binder, ExprReads, ScalarMade, ReadsPlainly, BindingOf, OperatorOk, DistinctIds, KeysInScope;
    EmittedMap(r, input, ps, binder, depth);
    EmissionBindsAlike(input, binder, depth + 1);
    var em := EmitRelation(input, binder, depth + 1).value;
    BinderIsFree(em.nextBinder);
    BodyReads(ps[0].expression, em.binding, input.schema, em.nextBinder, depth + 1);
    var steps := EmitRelation(r, binder, depth).value.query.steps;
    StepsReadAppend(em.query.steps, steps[|steps| - 1]);
  }

  lemma ProjectReads(r: Relation, input: Relation, ps: seq<Projection>, binder: nat, depth: nat)
    requires Valid(input) && r.operator == Project(input, ps, RelationProjection) && EmitRelation(r, binder, depth).Success?
    requires forall i :: 0 <= i < |ps| ==> ScalarMade(ps[i].expression) && ReadsPlainly(ps[i].expression, BindingOf(input), input.schema)
    ensures EmitRelation(input, binder, depth + 1).Success?
    ensures QueryReads(EmitRelation(r, binder, depth).value.query) <==>
            && QueryReads(EmitRelation(input, binder, depth + 1).value.query)
            && forall i :: 0 <= i < |r.schema| ==> LabelReads(r.schema[i].name)
  {
    hide EmitRelation, EmitScalar, EmitSpecs, ReferencesFor, Binder, ExprReads, ScalarMade, ReadsPlainly, BindingOf, OperatorOk, DistinctIds, KeysInScope, LabelReads;
    EmittedProject(r, input, ps, binder, depth);
    EmissionBindsAlike(input, binder, depth + 1);
    var em := EmitRelation(input, binder, depth + 1).value;
    var b := Binder(em.nextBinder);
    var references := ReferencesFor(em.binding, input.schema, b).value;
    var specs := EmitSpecs(ps, r.schema, references, b, depth + 1).value;
    BinderIsFree(em.nextBinder);
    ReplaySteps.EmitSpecsAt(ps, r.schema, references, b, depth + 1);
    forall i | 0 <= i < |specs| ensures SpecReads(specs[i]) <==> LabelReads(r.schema[i].name) {
      BodyReads(ps[i].expression, em.binding, input.schema, em.nextBinder, depth + 1);
    }
    StepsReadAppend(em.query.steps, ProjectStep(specs));
  }

  lemma JoinReads(r: Relation, left: Relation, right: Relation, condition: Scalar, binder: nat, depth: nat)
    requires r.operator == Join(Inner, left, right, condition) && EmitRelation(r, binder, depth).Success? && ScalarMade(condition)
    ensures EmitRelation(left, binder, depth + 1).Success?
    ensures var l := EmitRelation(left, binder, depth + 1).value;
            && EmitRelation(right, l.nextBinder, depth + 1).Success?
            && (QueryReads(EmitRelation(r, binder, depth).value.query) <==>
                QueryReads(l.query) && QueryReads(EmitRelation(right, l.nextBinder, depth + 1).value.query))
  {
    hide EmitRelation, EmitScalar, Binder, ExprReads, ScalarMade;
    EmittedJoin(r, left, right, condition, binder, depth);
    var l := EmitRelation(left, binder, depth + 1).value;
    var rr := EmitRelation(right, l.nextBinder, depth + 1).value;
    var lb, rb := Binder(rr.nextBinder), Binder(rr.nextBinder + 1);
    BinderIsFree(rr.nextBinder);
    BinderIsFree(rr.nextBinder + 1);
    var references := JoinReferences(left, right, lb, rb).value;
    BareReadsAreSpoken(condition, references, depth + 1);
    ScalarReads(condition, references, depth + 1);
    StepsReadAppend(l.query.steps, JoinStep(rr.query, false, lb, rb, EmitScalar(condition, references, depth + 1).value));
  }

  lemma DistinctOnReads(r: Relation, input: Relation, columns: seq<ColumnId>, binder: nat, depth: nat)
    requires Valid(r) && r.operator == DistinctOn(input, columns) && EmitRelation(r, binder, depth).Success?
    ensures EmitRelation(input, binder, depth + 1).Success?
    ensures QueryReads(EmitRelation(r, binder, depth).value.query) <==>
            && QueryReads(EmitRelation(input, binder, depth + 1).value.query)
            && forall i :: 0 <= i < |r.schema| ==> LabelReads(r.schema[i].name)
  {
    hide EmitRelation, LabelReads, SelectorNames, FindColumn, DistinctIds, KeysInScope;
    EmittedDistinctOn(r, input, columns, binder, depth);
    SelectorNamesAt(columns, input.schema);
    SelectedWidth(columns, input.schema);
    var names := SelectorNames(columns, input.schema).value;
    forall i | 0 <= i < |names| ensures names[i] == r.schema[i].name {
      assert FindColumn(input.schema, columns[i]) == Some(r.schema[i]);
    }
    StepsReadAppend(EmitRelation(input, binder, depth + 1).value.query.steps, DistinctOnStep(names));
  }

  lemma SortReads(r: Relation, input: Relation, keys: seq<SortKey>, binder: nat, depth: nat)
    requires r.operator == Sort(input, keys) && EmitRelation(r, binder, depth).Success?
    ensures EmitRelation(input, binder, depth + 1).Success?
    ensures QueryReads(EmitRelation(r, binder, depth).value.query) <==>
            && QueryReads(EmitRelation(input, binder, depth + 1).value.query)
            && forall i :: 0 <= i < |keys| ==>
                 FindColumn(input.schema, keys[i].column).Some? ==> LabelReads(FindColumn(input.schema, keys[i].column).value.name)
  {
    hide EmitRelation, LabelReads, EmitKeys, FindColumn;
    EmittedSort(r, input, keys, binder, depth);
    ReplaySteps.EmitKeysAt(keys, input.schema);
    var specs := EmitKeys(keys, input.schema).value;
    StepsReadAppend(EmitRelation(input, binder, depth + 1).value.query.steps, SortStep(specs));
    forall i | 0 <= i < |keys|
      ensures FindColumn(input.schema, keys[i].column).Some? && specs[i].column == FindColumn(input.schema, keys[i].column).value.name {
    }
  }

  lemma DistinctReads(r: Relation, input: Relation, binder: nat, depth: nat)
    requires r.operator == Distinct(input) && EmitRelation(r, binder, depth).Success?
    ensures EmitRelation(input, binder, depth + 1).Success?
    ensures QueryReads(EmitRelation(r, binder, depth).value.query) <==> QueryReads(EmitRelation(input, binder, depth + 1).value.query)
  {
    hide EmitRelation;
    EmittedDistinct(r, input, binder, depth);
    StepsReadAppend(EmitRelation(input, binder, depth + 1).value.query.steps, DistinctStep);
  }

  /** The emitted query of a relation lowering can make reads exactly when its labels do. */
  lemma {:induction false} EmittedQueryReads(r: Relation, binder: nat, depth: nat)
    requires Valid(r) && Made(r) && EmitRelation(r, binder, depth).Success?
    ensures QueryReads(EmitRelation(r, binder, depth).value.query) <==> LabelsReadBack(r)
    decreases r
  {
    hide EmitRelation, QueryReads, LabelReads, ScalarMade, ReadsPlainly, JoinsBothSides, BindingOf, OperatorOk, DistinctIds, KeysInScope, FindColumn;
    var d := depth + 1;
    match r.operator
    case Scan(c) => ScanReads(r, c, binder, depth);
    case Filter(input, condition) =>
      FilterReads(r, input, condition, binder, depth);
      EmittedQueryReads(input, binder, d);
    case Project(input, ps, kind) =>
      if kind == ScalarProjection {
        MapReads(r, input, ps, binder, depth);
      } else {
        ProjectReads(r, input, ps, binder, depth);
      }
      EmittedQueryReads(input, binder, d);
    case Join(_, left, right, condition) =>
      JoinReads(r, left, right, condition, binder, depth);
      EmittedQueryReads(left, binder, d);
      EmittedQueryReads(right, EmitRelation(left, binder, d).value.nextBinder, d);
    case Distinct(input) =>
      DistinctReads(r, input, binder, depth);
      EmittedQueryReads(input, binder, d);
    case DistinctOn(input, columns) =>
      DistinctOnReads(r, input, columns, binder, depth);
      EmittedQueryReads(input, binder, d);
    case Sort(input, keys) =>
      SortReads(r, input, keys, binder, depth);
      EmittedQueryReads(input, binder, d);
  }

  lemma ScanReads(r: Relation, c: ResolvedClass, binder: nat, depth: nat)
    requires r.operator == Scan(c) && EmitRelation(r, binder, depth).Success?
    ensures QueryReads(EmitRelation(r, binder, depth).value.query)
  {
    assert EmitRelation(r, binder, depth) == EmitScan(r, c, binder);
    ScanQuery(r, c, binder);
  }

  // ---------- the law, about text ----------

  /** Lowering a text: reading it, then lowering what it spells; unread text has no relation. */
  ghost function LowerText(resolver: Resolver, site: Site, text: string, next: u32): Option<Relation> {
    match ReadText(text)
    case None => None
    case Some(q) =>
      match LowerQuery(resolver, site, q, next)
      case Failure(_) => None
      case Success(a) => Some(a.state.expression)
  }

  /** Emitting a relation and lowering its text keeps the equivalence key of
      exactly the relations lowering could have made with `value` columns, joins
      over extents and labels that read back, for as long as there are column
      identities to give out. */
  lemma ReplayKeepsKeyExactly(resolver: Resolver, site: Site, r: Relation, binder: nat, depth: nat, next: u32)
    requires Ordinary(resolver) && Valid(r) && Answered(resolver, r) && EmitRelation(r, binder, depth).Success?
    ensures var t := LowerText(resolver, site, QueryText(EmitRelation(r, binder, depth).value.query), next);
            t.Some? && EquivalenceKey(t.value) == EquivalenceKey(r) <==>
            && Made(r) && ScalarColumnsAreValue(r) && JoinsOverScans(r) && LabelsReadBack(r)
            && next + Allocations(r) < U32_LIMIT
  {
    hide LowerQuery, EmitRelation, EquivalenceKey, Made, ScalarColumnsAreValue, JoinsOverScans, LabelsReadBack, Allocations, Ordinary, Valid, Answered,
         QueryReads, ReadQuery, QueryText, QueryWellFormed, Scoped, Binders, Numbered, ReadText;
    var q := EmitRelation(r, binder, depth).value.query;
    EmissionIsInForm(r, binder, depth);
    TextReadsExactly(q);
    SurfaceReplayKeepsKeyExactly(resolver, site, r, binder, depth, next);
    if Made(r) {
      EmittedQueryReads(r, binder, depth);
    }
  }
}
