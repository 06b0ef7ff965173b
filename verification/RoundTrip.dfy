/** Canonical text read back: comparing a query with its own canonical form,
    and exactly when that says `Equivalent`. */
module RoundTrip {
  import opened Basics
  import opened Relational
  import opened Normalization
  import opened Keys
  import opened Semantics
  import opened Surface
  import opened SurfaceSemantics
  import opened Canonical
  import opened Emission
  import opened Lowering
  import opened LoweringInvariant
  import opened LoweringMeaning
  import opened ReplayScalars
  import opened Replay
  import opened ReplaySteps
  import opened ReplayQuery
  import opened ReplayText
  import opened EmissionForm
  import opened Unambiguity
  import opened Reader
  import opened LoweredForms
  import opened Pipeline
  import Comparison

  // ---------- the rewrites a lowered relation can meet ----------

  /** No filter on a literal `true` is left. */
  ghost predicate NoTrueFilters(r: Relation)
    decreases r
  {
    match r.operator
    case Scan(_) => true
    case Filter(input, condition) =>
      NoTrueFilters(input) && !(condition.operator == Literal(BooleanLiteral(true)) && condition.totality.Unknown?)
    case Project(input, _, _) => NoTrueFilters(input)
    case Join(_, left, right, _) => NoTrueFilters(left) && NoTrueFilters(right)
    case Distinct(input) => NoTrueFilters(input)
    case DistinctOn(input, _) => NoTrueFilters(input)
    case Sort(input, _) => NoTrueFilters(input)
  }

  ghost predicate NoRepeatedDistincts(r: Relation)
    decreases r
  {
    match r.operator
    case Scan(_) => true
    case Filter(input, _) => NoRepeatedDistincts(input)
    case Project(input, _, _) => NoRepeatedDistincts(input)
    case Join(_, left, right, _) => NoRepeatedDistincts(left) && NoRepeatedDistincts(right)
    case Distinct(input) => NoRepeatedDistincts(input) && !input.operator.Distinct?
    case DistinctOn(input, _) => NoRepeatedDistincts(input)
    case Sort(input, _) => NoRepeatedDistincts(input)
  }

  /** A tidy relation is a normal form exactly when it has no true filter and no repeated distinct. */
  lemma {:induction false} TidyNormalForms(r: Relation)
    requires Tidy(r)
    ensures IsNormalForm(r) <==> NoTrueFilters(r) && NoRepeatedDistincts(r)
    decreases r
  {
    match r.operator
    case Scan(_) =>
    case Filter(input, _) => TidyNormalForms(input);
    case Project(input, _, _) => TidyNormalForms(input);
    case Join(_, left, right, _) =>
      TidyNormalForms(left);
      TidyNormalForms(right);
    case Distinct(input) => TidyNormalForms(input);
    case DistinctOn(input, _) => TidyNormalForms(input);
    case Sort(input, _) => TidyNormalForms(input);
  }

  /** What can be emitted from a normal form never repeats a distinct. */
  lemma {:induction false} EmittedNormalForms(r: Relation, binder: nat, depth: nat)
    requires IsNormalForm(r) && EmitRelation(r, binder, depth).Success?
    ensures NoRepeatedDistincts(r)
    decreases r
  {
    hide EmitScalar, EmitSpecs, ReferencesFor, SelectorNames, EmitKeys, ScanSchemaMatches, NamesAreUnique, IsEmittablePath, ProjectShapeMatches,
         IsIdentityProject, IsLiteralTrueFilter;
    match r.operator
    case Scan(_) =>
    case Filter(input, _) => EmittedNormalForms(input, binder, depth + 1);
    case Project(input, _, _) => EmittedNormalForms(input, binder, depth + 1);
    case Join(_, left, right, _) =>
      EmittedNormalForms(left, binder, depth + 1);
      EmittedNormalForms(right, EmitRelation(left, binder, depth + 1).value.nextBinder, depth + 1);
    case Distinct(input) => EmittedNormalForms(input, binder, depth + 1);
    case DistinctOn(input, _) => EmittedNormalForms(input, binder, depth + 1);
    case Sort(input, _) => EmittedNormalForms(input, binder, depth + 1);
  }

  // ---------- what erasing keeps ----------

  lemma {:induction false} ErasedFilters(r: Relation, base: nat)
    ensures NoTrueFilters(Erase(r, base)) == NoTrueFilters(r)
    decreases r
  {
    hide EraseColumns, EraseFacts, EraseProjections, EraseSelection, EraseSortKeys, EraseClass;
    match r.operator
    case Scan(_) =>
    case Filter(input, _) => ErasedFilters(input, base);
    case Project(input, _, _) => ErasedFilters(input, base);
    case Join(_, left, right, _) =>
      ErasedFilters(left, base);
      ErasedFilters(right, base + |left.schema|);
    case Distinct(input) => ErasedFilters(input, base);
    case DistinctOn(input, _) => ErasedFilters(input, base);
    case Sort(input, _) => ErasedFilters(input, base);
  }

  lemma {:induction false} ErasedDistincts(r: Relation, base: nat)
    ensures NoRepeatedDistincts(Erase(r, base)) == NoRepeatedDistincts(r)
    decreases r
  {
    hide EraseColumns, EraseFacts, EraseProjections, EraseSelection, EraseSortKeys, EraseClass, EraseScalar;
    match r.operator
    case Scan(_) =>
    case Filter(input, _) => ErasedDistincts(input, base);
    case Project(input, _, _) => ErasedDistincts(input, base);
    case Join(_, left, right, _) =>
      ErasedDistincts(left, base);
      ErasedDistincts(right, base + |left.schema|);
    case Distinct(input) => ErasedDistincts(input, base);
    case DistinctOn(input, _) => ErasedDistincts(input, base);
    case Sort(input, _) => ErasedDistincts(input, base);
  }

  lemma {:induction false} ErasedOperators(r: Relation, base: nat)
    ensures Operators(Erase(r, base)) == Operators(r)
    decreases r
  {
    hide EraseColumns, EraseFacts, EraseProjections, EraseSelection, EraseSortKeys, EraseClass, EraseScalar;
    match r.operator
    case Scan(_) =>
    case Filter(input, _) => ErasedOperators(input, base);
    case Project(input, _, _) => ErasedOperators(input, base);
    case Join(_, left, right, _) =>
      ErasedOperators(left, base);
      ErasedOperators(right, base + |left.schema|);
    case Distinct(input) => ErasedOperators(input, base);
    case DistinctOn(input, _) => ErasedOperators(input, base);
    case Sort(input, _) => ErasedOperators(input, base);
  }

  lemma {:induction false} ErasedScalarSize(e: Scalar, ids: seq<ColumnId>, base: nat)
    ensures ScalarCount(EraseScalar(e, ids, base)) == ScalarCount(e) && ScalarHeight(EraseScalar(e, ids, base)) == ScalarHeight(e)
    decreases e
  {
    match e.operator
    case ColumnRead(_) =>
    case Literal(_) =>
    case Navigation(input, _) => ErasedScalarSize(input, ids, base);
    case Equal(left, right) =>
      ErasedScalarSize(left, ids, base);
      ErasedScalarSize(right, ids, base);
    case Not(input) => ErasedScalarSize(input, ids, base);
  }

  lemma {:induction false} ErasedProjectionsSize(ps: seq<Projection>, output: seq<ColumnId>, input: seq<ColumnId>, base: nat)
    ensures ProjectionsCount(EraseProjections(ps, output, input, base)) == ProjectionsCount(ps)
    ensures ProjectionsHeight(EraseProjections(ps, output, input, base)) == ProjectionsHeight(ps)
  {
    hide EraseScalar;
    if ps != [] {
      ErasedScalarSize(ps[0].expression, input, base);
      ErasedProjectionsSize(ps[1..], output, input, base);
      assert EraseProjections(ps, output, input, base)[1..] == EraseProjections(ps[1..], output, input, base);
    }
  }

  lemma {:induction false} ErasedSize(r: Relation, base: nat)
    ensures Count(Erase(r, base)) == Count(r) && Height(Erase(r, base)) == Height(r)
    decreases r
  {
    hide EraseColumns, EraseFacts, EraseProjections, EraseSelection, EraseSortKeys, EraseScalar, EraseClass, ScalarCount, ScalarHeight, ProjectionsCount,
         ProjectionsHeight, Max;
    match r.operator
    case Scan(_) =>
    case Filter(input, condition) =>
      ErasedSize(input, base);
      ErasedScalarSize(condition, Ids(input.schema), base);
    case Project(input, ps, _) =>
      ErasedSize(input, base);
      ErasedProjectionsSize(ps, Ids(r.schema), Ids(input.schema), base);
    case Join(_, left, right, condition) =>
      ErasedSize(left, base);
      ErasedSize(right, base + |left.schema|);
      ErasedScalarSize(condition, Ids(left.schema) + Ids(right.schema), base);
    case Distinct(input) => ErasedSize(input, base);
    case DistinctOn(input, _) => ErasedSize(input, base);
    case Sort(input, _) => ErasedSize(input, base);
  }

  // ---------- as many operators as steps ----------

  function StepsSize(steps: seq<Step>): nat
    decreases steps
  {
    if steps == [] then 1
    else
      var last := steps[|steps| - 1];
      StepsSize(steps[..|steps| - 1]) + 1 + if last.JoinStep? then StepsSize(last.right.steps) else 0
  }

  lemma NoSteps()
    ensures StepsSize([]) == 1
  {
  }

  lemma OneMoreStep(earlier: seq<Step>, steps: seq<Step>)
    requires |steps| == |earlier| + 1 && steps == earlier + [steps[|earlier|]]
    ensures var last := steps[|earlier|]; StepsSize(steps) == StepsSize(earlier) + 1 + if last.JoinStep? then StepsSize(last.right.steps) else 0
  {
    assert steps[..|steps| - 1] == earlier;
  }

  lemma {:induction false} EmissionSize(r: Relation, binder: nat, depth: nat)
    requires EmitRelation(r, binder, depth).Success?
    ensures StepsSize(EmitRelation(r, binder, depth).value.query.steps) == Operators(r)
    decreases r
  {
    hide EmitScalar, EmitSpecs, ReferencesFor, SelectorNames, EmitKeys, ScanSchemaMatches, NamesAreUnique, IsEmittablePath, ProjectShapeMatches, Binder,
         StepsSize;
    var steps := EmitRelation(r, binder, depth).value.query.steps;
    match r.operator
    case Scan(_) => NoSteps();
    case Filter(input, _) =>
      EmissionSize(input, binder, depth + 1);
      OneMoreStep(EmitRelation(input, binder, depth + 1).value.query.steps, steps);
    case Project(input, _, _) =>
      EmissionSize(input, binder, depth + 1);
      OneMoreStep(EmitRelation(input, binder, depth + 1).value.query.steps, steps);
    case Join(_, left, right, _) =>
      EmissionSize(left, binder, depth + 1);
      EmissionSize(right, EmitRelation(left, binder, depth + 1).value.nextBinder, depth + 1);
      OneMoreStep(EmitRelation(left, binder, depth + 1).value.query.steps, steps);
    case Distinct(input) =>
      EmissionSize(input, binder, depth + 1);
      OneMoreStep(EmitRelation(input, binder, depth + 1).value.query.steps, steps);
    case DistinctOn(input, _) =>
      EmissionSize(input, binder, depth + 1);
      OneMoreStep(EmitRelation(input, binder, depth + 1).value.query.steps, steps);
    case Sort(input, _) =>
      EmissionSize(input, binder, depth + 1);
      OneMoreStep(EmitRelation(input, binder, depth + 1).value.query.steps, steps);
  }

  lemma {:induction false} LoweringSize(resolver: Resolver, site: Site, path: string, steps: seq<Step>, next: u32)
    requires LowerSteps(resolver, site, path, steps, next).Success?
    ensures Operators(LowerSteps(resolver, site, path, steps, next).value.state.expression) == StepsSize(steps)
    decreases steps
  {
    hide LowerStep, LowerAll;
    if steps == [] {
      ExtentIsScan(resolver, site.Child(0).Span(), path, next);
    } else {
      var last := steps[|steps| - 1];
      var a := LowerSteps(resolver, site, path, steps[..|steps| - 1], next).value;
      LoweringSize(resolver, site, path, steps[..|steps| - 1], next);
      if last.JoinStep? {
        LoweredJoin(resolver, site.Child(|steps|), a, last);
        LoweringSize(resolver, site.Child(|steps|).Child(1), last.right.path, last.right.steps, a.next);
      } else {
        StepInput(resolver, site.Child(|steps|), a, last);
      }
    }
  }

  lemma ExtentIsScan(resolver: Resolver, span: SourceSpan, path: string, next: u32)
    requires LowerAll(resolver, span, path, next).Success?
    ensures LowerAll(resolver, span, path, next).value.state.expression.operator.Scan?
  {
  }

  // ---------- what normalization keeps ----------

  /** Without identity projects, normalization leaves the kind of element alone. */
  lemma {:induction false} NormalKeepsBinding(r: Relation)
    requires Valid(r) && Tidy(r)
    ensures BindingOf(Normal(r)) == BindingOf(r)
    decreases r
  {
    hide IsLiteralTrueFilter, IsRepeatedDistinct, DistinctIds, OperatorOk, KeysInScope;
    match r.operator
    case Scan(_) =>
    case Filter(input, _) => NormalKeepsBinding(input);
    case Project(input, _, _) => NormalIsValid(input);
    case Join(_, _, _, _) =>
    case Distinct(input) => NormalKeepsBinding(input);
    case DistinctOn(input, _) => NormalKeepsBinding(input);
    case Sort(input, _) => NormalKeepsBinding(input);
  }

  lemma EquivalentBindsAlike(resolver: Resolver, p: Site, s: Site, primary: Query, secondary: Query, budget: nat)
    requires KeepsNames(resolver)
    requires LowerQuery(resolver, p, primary, 0).Success? && LowerQuery(resolver, s, secondary, 0).Success?
    requires Comparison.Compare(LowerQuery(resolver, p, primary, 0).value.state.expression,
                                LowerQuery(resolver, s, secondary, 0).value.state.expression, budget) == Comparison.Equivalent
    ensures var a, b := LowerQuery(resolver, p, primary, 0).value.state, LowerQuery(resolver, s, secondary, 0).value.state;
            ElementBinding(a.element) == ElementBinding(b.element)
  {
    hide LowerQuery, Normal, Erase, BindingOf, Comparison.Compare, KeepsNames, Valid, Tidy, Answered, Made, Count, Height, ElementFits, IdsWithin, ColumnsFound;
    var a, b := LowerQuery(resolver, p, primary, 0).value.state, LowerQuery(resolver, s, secondary, 0).value.state;
    LoweringKeepsInvariant(resolver, p, primary, 0);
    LoweringKeepsInvariant(resolver, s, secondary, 0);
    LoweredQueryGrounded(resolver, p, primary, 0);
    LoweredQueryGrounded(resolver, s, secondary, 0);
    Comparison.EquivalentExactly(a.expression, b.expression, budget);
    NormalKeepsBinding(a.expression);
    NormalKeepsBinding(b.expression);
    BindingErased(Normal(a.expression), 0);
    BindingErased(Normal(b.expression), 0);
  }

  /** Queries that comparison calls equivalent return one and the same table on
      every database: its rows, its columns, and whether it holds a collection of
      elements, rows of a relation or joined pairs. */
  lemma EquivalentQueriesReturnOneTable(db: Database, resolver: Resolver, p: Site, s: Site, primary: Query, secondary: Query, budget: nat)
    requires KeepsNames(resolver)
    requires Comparison.CompareLowered(OutcomeOf(resolver, p, primary), OutcomeOf(resolver, s, secondary), budget) == Comparison.Equivalent
    ensures var t := EvaluateQuery(db, ModelOf(resolver), primary);
            t.Some? && t == EvaluateQuery(db, ModelOf(resolver), secondary)
  {
    hide LowerQuery, EvaluateQuery, Valid, Comparison.Compare, Denote, NamedTypes, ModelOf, KindOf, ElementBinding, KeepsNames;
    EquivalentQueriesAnswerAlike(resolver, p, s, primary, secondary, budget);
    EquivalentBindsAlike(resolver, p, s, primary, secondary, budget);
    LoweringPreservesMeaning(db, resolver, p, primary, 0);
    LoweringPreservesMeaning(db, resolver, s, secondary, 0);
    assert SameAnswer(EvaluateQuery(db, ModelOf(resolver), primary), EvaluateQuery(db, ModelOf(resolver), secondary));
  }

  lemma {:induction false} NormalKeepsForms(resolver: Resolver, r: Relation)
    requires Answered(resolver, r) && Made(r) && Valid(r) && Tidy(r)
    ensures Answered(resolver, Normal(r)) && Made(Normal(r)) && Allocations(Normal(r)) <= Allocations(r)
    decreases r
  {
    hide ScalarAnswered, ScalarMade, IsIdentityProject, IsLiteralTrueFilter, IsRepeatedDistinct, ReferencesColumn, DistinctIds, OperatorOk, KeysInScope, BindingOf,
         ReadsPlainly;
    match r.operator
    case Scan(_) =>
    case Filter(input, _) =>
      NormalKeepsForms(resolver, input);
      NormalIsValid(input);
      NormalKeepsBinding(input);
    case Project(input, _, _) =>
      NormalKeepsForms(resolver, input);
      NormalIsValid(input);
      NormalKeepsBinding(input);
    case Join(_, left, right, _) =>
      NormalKeepsForms(resolver, left);
      NormalKeepsForms(resolver, right);
      NormalIsValid(left);
      NormalIsValid(right);
    case Distinct(input) => NormalKeepsForms(resolver, input);
    case DistinctOn(input, _) => NormalKeepsForms(resolver, input);
    case Sort(input, _) => NormalKeepsForms(resolver, input);
  }

  // ---------- the law ----------

  /** A normal form comes back from its canonical query: every scalar column is a
      `value`, every join is over an extent, and no true filter is left. */
  ghost predicate LowersBack(n: Relation) {
    ScalarColumnsAreValue(n) && JoinsOverScans(n) && NoTrueFilters(n)
  }

  lemma LoweredNormalForm(resolver: Resolver, site: Site, q: Query)
    requires KeepsNames(resolver) && LowerQuery(resolver, site, q, 0).Success?
    ensures var n := Normal(LowerQuery(resolver, site, q, 0).value.state.expression);
            Valid(n) && Answered(resolver, n) && Made(n) && Allocations(n) < U32_LIMIT && IsNormalForm(n)
  {
    hide LowerQuery, Normal, KeepsNames, Answered, Made, Tidy, Valid, Allocations, ElementFits, IdsWithin, BindingOf, ColumnsFound, IsNormalForm;
    LoweringKeepsInvariant(resolver, site, q, 0);
    LoweredQueryGrounded(resolver, site, q, 0);
    var e := LowerQuery(resolver, site, q, 0).value.state.expression;
    NormalIsValid(e);
    NormalKeepsForms(resolver, e);
    NormalFormsAreFixed(e);
  }

  lemma SameShape(a: Relation, b: Relation)
    requires Erase(a, 0) == Erase(b, 0)
    ensures Operators(a) == Operators(b) && Count(a) == Count(b) && Height(a) == Height(b)
    ensures NoTrueFilters(a) == NoTrueFilters(b) && NoRepeatedDistincts(a) == NoRepeatedDistincts(b)
  {
    hide Erase, Operators, Count, Height, NoTrueFilters, NoRepeatedDistincts;
    ErasedFilters(a, 0);
    ErasedFilters(b, 0);
    ErasedDistincts(a, 0);
    ErasedDistincts(b, 0);
    ErasedOperators(a, 0);
    ErasedOperators(b, 0);
    ErasedSize(a, 0);
    ErasedSize(b, 0);
  }

  /** What the emitted query of a normal form lowers to normalizes to the same
      key exactly when the normal form lowers back. */
  lemma LowersBackExactly(resolver: Resolver, site: Site, n: Relation)
    requires Ordinary(resolver) && Valid(n) && Answered(resolver, n) && Made(n) && Allocations(n) < U32_LIMIT && IsNormalForm(n)
    requires EmitCanonical(n).Success?
    ensures var t := LowerQuery(resolver, site, EmitCanonical(n).value.query, 0);
            t.Success? && Erase(Normal(t.value.state.expression), 0) == Erase(n, 0) <==> LowersBack(n)
    ensures var t := LowerQuery(resolver, site, EmitCanonical(n).value.query, 0);
            LowersBack(n) ==> t.Success? && Count(t.value.state.expression) == Count(n) && Height(t.value.state.expression) == Height(n)
  {
    hide EmitRelation, LowerQuery, Erase, Normal, Valid, Answered, Made, Allocations, Operators, Count, Height, NoTrueFilters, NoRepeatedDistincts, Tidy,
         IsNormalForm, ScalarColumnsAreValue, JoinsOverScans, ColumnsFound, Mirrors;
    var q := EmitCanonical(n).value.query;
    EmittedNormalForms(n, 0, 0);
    if LowersBack(n) {
      QueryComesBack(resolver, site, n, 0, 0, 0);
      var t := LowerQuery(resolver, site, q, 0).value.state.expression;
      MirrorsErase(resolver, LowerQuery(resolver, site, q, 0).value.state, n);
      SameShape(t, n);
      LoweredQueryGrounded(resolver, site, q, 0);
      TidyNormalForms(t);
      NormalFormsAreFixed(t);
    }
    var t := LowerQuery(resolver, site, q, 0);
    if t.Success? && Erase(Normal(t.value.state.expression), 0) == Erase(n, 0) {
      var e := t.value.state.expression;
      SameShape(Normal(e), n);
      EmissionSize(n, 0, 0);
      OperatorsOfQuery(resolver, site, q);
      NormalDropsOperators(e);
      NormalFormsAreFixed(e);
      LoweredQueryGrounded(resolver, site, q, 0);
      TidyNormalForms(e);
      AlikeFromOneBase(e, n, 0);
      ReturnedIsSettled(resolver, site, n, 0, 0, 0);
    }
  }

  lemma MirrorsErase(resolver: Resolver, s: RelationState, r: Relation)
    requires Mirrors(resolver, s, r)
    ensures Erase(s.expression, 0) == Erase(r, 0)
  {
    hide Erase;
  }

  lemma OperatorsOfQuery(resolver: Resolver, site: Site, q: Query)
    requires LowerQuery(resolver, site, q, 0).Success?
    ensures Operators(LowerQuery(resolver, site, q, 0).value.state.expression) == StepsSize(q.steps)
  {
    LoweringSize(resolver, site, q.path, q.steps, 0);
  }

  /** Comparing a query with its own canonical query answers `Equivalent` exactly
      when its normal form lowers back. */
  lemma CanonicalQueryIsEquivalentExactly(resolver: Resolver, site: Site, other: Site, q: Query, budget: nat)
    requires Ordinary(resolver) && Canonicalized(resolver, site, q, budget).Some?
    ensures Comparison.CompareLowered(OutcomeOf(resolver, site, q),
                                      OutcomeOf(resolver, other, Canonicalized(resolver, site, q, budget).value), budget) == Comparison.Equivalent <==>
            LowersBack(Normal(LowerQuery(resolver, site, q, 0).value.state.expression))
  {
    hide EmitRelation, LowerQuery, Erase, Normal, Valid, Answered, Made, Allocations, Count, Height, IsNormalForm, LowersBack, Comparison.Compare,
         Comparison.NormalizeQuery, Canonicalized, KeepsNames;
    CanonicalizedFromNormal(resolver, site, q, budget);
    var e := LowerQuery(resolver, site, q, 0).value.state.expression;
    var n := Normal(e);
    LoweredNormalForm(resolver, site, q);
    LowersBackExactly(resolver, other, n);
    NormalIsNoLarger(e);
    FitsBudget(resolver, site, q, budget);
    var t := LowerQuery(resolver, other, Canonicalized(resolver, site, q, budget).value, 0);
    if t.Success? {
      Comparison.EquivalentExactly(e, t.value.state.expression, budget);
    }
  }

  lemma FitsBudget(resolver: Resolver, site: Site, q: Query, budget: nat)
    requires Canonicalized(resolver, site, q, budget).Some?
    ensures LowerQuery(resolver, site, q, 0).Success?
    ensures var e := LowerQuery(resolver, site, q, 0).value.state.expression;
            Count(e) <= budget && Height(e) <= MAX_RELATIONAL_RECURSION_DEPTH
  {
    hide LowerQuery, EmitRelation, Normal, Run, Visits, Count, Height;
    Comparison.NormalizesExactlyWithin(LowerQuery(resolver, site, q, 0).value.state.expression, budget);
  }

  // ---------- the law, about text ----------

  /** A normal form can be read back from its canonical text: it comes back from
      its canonical query, and every label printed for it reads back. */
  ghost predicate ReadsBack(n: Relation) {
    LowersBack(n) && LabelsReadBack(n)
  }

  /** What a text hands to comparison; one that spells no query is refused, however. */
  ghost function OutcomeOfText(resolver: Resolver, site: Site, text: string, unread: Refusal): Comparison.RelationalOutcome {
    match ReadText(text)
    case None => Comparison.Opaque(unread)
    case Some(q) => OutcomeOf(resolver, site, q)
  }

  /** Comparing a query with its own canonical text, read and lowered afresh,
      answers `Equivalent` exactly when its normal form reads back. */
  lemma CanonicalFormIsEquivalentExactly(resolver: Resolver, site: Site, other: Site, q: Query, budget: nat, unread: Refusal)
    requires Ordinary(resolver) && Canonicalized(resolver, site, q, budget).Some?
    ensures var text := QueryText(Canonicalized(resolver, site, q, budget).value);
            Comparison.CompareLowered(OutcomeOf(resolver, site, q), OutcomeOfText(resolver, other, text, unread), budget) == Comparison.Equivalent <==>
            ReadsBack(Normal(LowerQuery(resolver, site, q, 0).value.state.expression))
  {
    hide LowerQuery, EmitRelation, Normal, Canonicalized, LowersBack, LabelsReadBack, KeepsNames, ReadText, QueryText, QueryReads, QueryWellFormed, Scoped, Binders,
         Numbered, Valid, Answered, Made, Allocations, IsNormalForm, Comparison.Compare;
    CanonicalizedFromNormal(resolver, site, q, budget);
    var n := Normal(LowerQuery(resolver, site, q, 0).value.state.expression);
    LoweredNormalForm(resolver, site, q);
    EmissionIsInForm(n, 0, 0);
    EmittedQueryReads(n, 0, 0);
    TextReadsExactly(EmitCanonical(n).value.query);
    CanonicalQueryIsEquivalentExactly(resolver, site, other, q, budget);
  }

  // ---------- a query that does not come back ----------

  /** What `path.all().name` lowers to. */
  lemma LoweredProperty(resolver: Resolver, site: Site, path: string, name: string, c: ResolvedClass, m: ResolvedMember)
    requires KeepsNames(resolver) && resolver.classAt(path) == Found(c) && resolver.memberAt(path, name) == Found(m)
    requires m.kind.Property? && IsToOne(m.multiplicity) && name !in RESERVED
    ensures var t := LowerQuery(resolver, site, Query(path, [PropertyStep(name)]), 0);
            && t.Success? && t.value.next == 2
            && var r := t.value.state.expression;
               && r.operator.Project? && r.operator.kind == ScalarProjection && r.operator.input.operator == Scan(c) && r.facts == UNKNOWN_FACTS
               && r.operator.input.schema == [ExtentColumn(site.Child(0).Span(), c, 0)] && r.operator.input.facts == UNKNOWN_FACTS
               && |r.schema| == 1 && r.schema[0].name == name && r.schema[0].id == 1 && |r.operator.projections| == 1
               && r.operator.projections[0].column == 1
               && var e := r.operator.projections[0].expression;
                  && e.operator.Navigation? && e.operator.navigation.member == m && e.operator.input.operator == ColumnRead(0)
  {
    hide Merged, InferTarget;
    var a := LowerAll(resolver, site.Child(0).Span(), path, 0);
    AddStepLowers(resolver, site, Query(path, []), PropertyStep(name), 0);
    assert AddStep(Query(path, []), PropertyStep(name)) == Query(path, [PropertyStep(name)]);
    assert LowerQuery(resolver, site, Query(path, []), 0) == a;
    var b := a.value.state.element.value.bound;
    var span := site.Child(1).Span();
    var ls := LowerNavigation(resolver, span, ReadColumn(b, b.column.origin), name);
    assert ls.Success?;
    assert [OriginOfClass(c)][0] == OriginOfClass(c);
    LoweredNavigationOk(resolver, span, ReadColumn(b, b.column.origin), a.value.state.expression.schema, name, c, m);
    assert LowerProperty(resolver, span, a.value.state, name, 1).Success?;
  }

  /** `path.all().name` is emitted with a map, whose column is called `value`: the
      canonical form of such a query is not equivalent to it unless the property is called that too. */
  lemma PropertyStepsDoNotComeBack(resolver: Resolver, site: Site, other: Site, path: string, name: string, c: ResolvedClass, m: ResolvedMember, budget: nat,
                                   unread: Refusal)
    requires Ordinary(resolver) && resolver.classAt(path) == Found(c) && resolver.memberAt(path, name) == Found(m)
    requires m.kind.Property? && IsToOne(m.multiplicity) && name !in RESERVED && IsEmittablePath(path) && IsIdentifier(name) && budget >= 4
    ensures Canonicalized(resolver, site, Query(path, [PropertyStep(name)]), budget) ==
            Some(Query(path, [MapStep(Binder(0), Chain(Variable(Binder(0)), [name]))]))
    ensures var text := QueryText(Query(path, [MapStep(Binder(0), Chain(Variable(Binder(0)), [name]))]));
            (Comparison.CompareLowered(OutcomeOf(resolver, site, Query(path, [PropertyStep(name)])), OutcomeOfText(resolver, other, text, unread), budget) ==
             Comparison.Equivalent) <==> name == MAP_VALUE_COLUMN_NAME
  {
    hide LowerQuery, IsIdentifier, IsEmittablePath, Comparison.CompareLowered, Comparison.NormalizeQuery, Binder, Normal, Count, Height, EmitRelation,
         JoinsOverScans, NoTrueFilters, ScalarColumnsAreValue, Canonicalized, ReadText, QueryText, OutcomeOfText, LowersBack, LabelsReadBack, LabelReads;
    var q := Query(path, [PropertyStep(name)]);
    LoweredProperty(resolver, site, path, name, c, m);
    var e := LowerQuery(resolver, site, q, 0).value.state.expression;
    PropertyIsNormal(e);
    PropertyEmitted(e, c, name);
    CanonicalizesTo(resolver, site, q, budget);
    CanonicalFormIsEquivalentExactly(resolver, site, other, q, budget, unread);
  }

  lemma CanonicalizesTo(resolver: Resolver, site: Site, q: Query, budget: nat)
    requires LowerQuery(resolver, site, q, 0).Success?
    requires var e := LowerQuery(resolver, site, q, 0).value.state.expression;
             Count(e) <= budget && Height(e) <= MAX_RELATIONAL_RECURSION_DEPTH && Normal(e) == e && EmitCanonical(e).Success?
    ensures Canonicalized(resolver, site, q, budget) ==
            Some(EmitCanonical(LowerQuery(resolver, site, q, 0).value.state.expression).value.query)
  {
    hide LowerQuery, EmitRelation, Normal, Run, Visits, Count, Height;
    Comparison.NormalizesExactlyWithin(LowerQuery(resolver, site, q, 0).value.state.expression, budget);
  }

  lemma PropertyIsNormal(r: Relation)
    requires r.operator.Project? && r.operator.input.operator.Scan?
    requires |r.operator.input.schema| == |r.schema| == |r.operator.projections| == 1 && r.schema[0].id != r.operator.input.schema[0].id
    requires r.operator.projections[0].expression.operator.Navigation?
    requires r.operator.projections[0].expression.operator.input.operator.ColumnRead?
    ensures Normal(r) == r && Count(r) == 4 && Height(r) == 3
    ensures LowersBack(r) <==> r.operator.kind == RelationProjection || r.schema[0].name == MAP_VALUE_COLUMN_NAME
    ensures LabelsReadBack(r) <==> r.operator.kind == ScalarProjection || LabelReads(r.schema[0].name)
  {
    var ps := r.operator.projections;
    var body := ps[0].expression;
    assert ScalarCount(body.operator.input) == 1 && ScalarHeight(body.operator.input) == 1;
    assert ps[1..] == [] && ProjectionsCount(ps[1..]) == 0 && ProjectionsHeight(ps[1..]) == 0;
    var input := r.operator.input;
    assert r.schema[0] in r.schema;
    assert ScalarColumnsAreValue(input) && JoinsOverScans(input) && NoTrueFilters(input) && LabelsReadBack(input);
    assert JoinsOverScans(r) && NoTrueFilters(r);
    assert ScalarColumnsAreValue(r) <==> r.operator.kind == RelationProjection || r.schema[0].name == MAP_VALUE_COLUMN_NAME;
  }

  lemma PropertyEmitted(r: Relation, c: ResolvedClass, name: string)
    requires r.operator.Project? && r.operator.kind == ScalarProjection && r.operator.input.operator == Scan(c) && r.facts == UNKNOWN_FACTS
    requires |r.operator.input.schema| == 1 && ScanSchemaMatches(r.operator.input.schema, c.path) && r.operator.input.facts == UNKNOWN_FACTS
    requires |r.schema| == 1 == |r.operator.projections| && r.operator.projections[0].column == r.schema[0].id && IsEmittablePath(c.path)
    requires var e := r.operator.projections[0].expression;
             && e.operator.Navigation? && e.operator.navigation.member.name == name && IsIdentifier(name)
             && e.operator.input.operator == ColumnRead(r.operator.input.schema[0].id)
    ensures EmitCanonical(r).Success?
    ensures EmitCanonical(r).value.query == Query(c.path, [MapStep(Binder(0), Chain(Variable(Binder(0)), [name]))])
  {
    hide IsIdentifier, IsEmittablePath, Binder, ScanSchemaMatches;
    var input := r.operator.input;
    assert EmitRelation(input, 0, 1) == EmitScan(input, c, 0);
    assert EmitRelation(r, 0, 0) == EmitOperator(r, 0, 1);
    var references := map[input.schema[0].id := Chain(Variable(Binder(0)), [])];
    var e := r.operator.projections[0].expression;
    assert EmitScalar(e.operator.input, references, 2) == Success(Chain(Variable(Binder(0)), []));
    assert [] + [name] == [name];
    assert EmitScalar(e, references, 1) == Success(Chain(Variable(Binder(0)), [name]));
  }

  // ---------- an alias that does not read back ----------

  /** `path.all()->project(~[alias: parameter | $parameter.name])`. */
  function AliasedQuery(path: string, alias: string, parameter: string, name: string): Query {
    Query(path, [ProjectStep([ColumnSpec(alias, parameter, Chain(Variable(parameter), [name]))])])
  }

  lemma AliasedBody(resolver: Resolver, site: Site, parameter: string, name: string, b: BoundColumn, c: ResolvedClass, m: ResolvedMember)
    requires KeepsNames(resolver) && resolver.memberAt(c.path, name) == Found(m) && b.local.kind == ClassLocal(c)
    requires m.kind.Property? && IsToOne(m.multiplicity) && name !in RESERVED && b.column.multiplicity == EXACTLY_ONE
    requires b.column.typeRef == TypeRef(c.path, []) && OriginOfClass(c) in b.column.origin.modelOrigins
    ensures var t := LowerScalar(resolver, site, [(parameter, ColumnElement(b))], Chain(Variable(parameter), [name]));
            && t.Success? && ScalarOk(t.value.expression, [b.column])
            && t.value.expression.operator.Navigation? && t.value.expression.operator.navigation.member == m
            && t.value.expression.operator.input.operator == ColumnRead(b.column.id)
  {
    hide Merged, InferTarget;
    var bindings := [(parameter, ColumnElement(b))];
    var span := site.Child(0).Span();
    var origin := Merged(span, [b.column.origin], []);
    MergedMembers(span, [b.column.origin], [], OriginOfClass(c));
    assert [b.column.origin][0] == b.column.origin;
    var read := ReadColumn(b, origin);
    assert [name][..0] == [];
    assert LowerValue(resolver, site, bindings, Variable(parameter), []) == Success(ScalarValue(read));
    var ls := LowerNavigation(resolver, site.Child(1).Span(), read, name);
    assert ls.Success?;
    assert ScalarOk(read.expression, [b.column]);
    LoweredNavigationOk(resolver, site.Child(1).Span(), read, [b.column], name, c, m);
  }

  lemma OneSpec(resolver: Resolver, node: Site, element: BoundElement, spec: ColumnSpec)
    requires LowerScalar(resolver, node.Child(0).Child(0), [(spec.parameter, element)], spec.body).Success?
    ensures var scalar := LowerScalar(resolver, node.Child(0).Child(0), [(spec.parameter, element)], spec.body).value;
            LowerSpecs(resolver, node, element, [spec], 1) ==
            Success(LoweredSpecs([BoundColumn(SpecColumn(node.Child(0).Span(), 1, spec.alias, scalar.expression), scalar.local)],
                                 [Projection(1, scalar.expression)], 2))
  {
    hide LowerScalar, Merged;
    var specs := [spec];
    assert specs[..0] == [];
    assert LowerSpecs(resolver, node, element, specs[..0], 1) == Success(LoweredSpecs([], [], 1));
    var scalar := LowerScalar(resolver, node.Child(0).Child(0), [(spec.parameter, element)], spec.body).value;
    var column := BoundColumn(SpecColumn(node.Child(0).Span(), 1, spec.alias, scalar.expression), scalar.local);
    assert [] + [column] == [column] && [] + [Projection(1, scalar.expression)] == [Projection(1, scalar.expression)];
  }

  /** A project of one column over a single bound column. */
  lemma OneColumnProjected(resolver: Resolver, node: Site, s: RelationState, spec: ColumnSpec, lowered: LoweredSpecs)
    requires BindsColumn(s) && |s.expression.schema| == 1
    requires LowerSpecs(resolver, node, s.element.value, [spec], 1) == Success(lowered)
    requires |lowered.columns| == |lowered.projections| == 1 && lowered.projections[0].column == lowered.columns[0].column.id
    requires var e := lowered.projections[0].expression;
             ScalarOk(e, s.expression.schema) && lowered.columns[0].column == SpecColumn(node.Child(0).Span(), 1, spec.alias, e)
    ensures var t := LowerRelationProject(resolver, node, s, [spec], 1);
            && t.Success?
            && var r := t.value.state.expression;
               && r.operator == Project(s.expression, lowered.projections, RelationProjection) && r.facts == UNKNOWN_FACTS
               && r.schema == [lowered.columns[0].column]
  {
    hide Merged, LowerSpecs, ScalarOk;
    var columns := lowered.columns;
    assert ColumnsOf(columns) == [columns[0].column];
    assert BindRow(columns).Success?;
    OneColumnFits(s.expression, lowered.projections, columns[0].column);
  }

  lemma OneColumnFits(input: Relation, ps: seq<Projection>, column: Column)
    requires |ps| == 1 && ps[0].column == column.id && ScalarOk(ps[0].expression, input.schema)
    requires var e := ps[0].expression; column.typeRef == e.typeRef && column.multiplicity == e.multiplicity && column.nullability == e.nullability
    ensures OperatorOk(Project(input, ps, RelationProjection), [column])
  {
    hide ScalarError;
  }

  /** What the aliased query lowers to. */
  lemma LoweredAlias(resolver: Resolver, site: Site, path: string, alias: string, parameter: string, name: string, c: ResolvedClass, m: ResolvedMember)
    requires KeepsNames(resolver) && resolver.classAt(path) == Found(c) && resolver.memberAt(path, name) == Found(m)
    requires m.kind.Property? && IsToOne(m.multiplicity) && name !in RESERVED
    ensures var t := LowerQuery(resolver, site, AliasedQuery(path, alias, parameter, name), 0);
            && t.Success?
            && var r := t.value.state.expression;
               && r.operator.Project? && r.operator.kind == RelationProjection && r.operator.input.operator == Scan(c) && r.facts == UNKNOWN_FACTS
               && r.operator.input.schema == [ExtentColumn(site.Child(0).Span(), c, 0)] && r.operator.input.facts == UNKNOWN_FACTS
               && |r.schema| == 1 && r.schema[0].name == alias && r.schema[0].id == 1 && |r.operator.projections| == 1
               && r.operator.projections[0].column == 1
               && var e := r.operator.projections[0].expression;
                  && e.operator.Navigation? && e.operator.navigation.member == m && e.operator.input.operator == ColumnRead(0)
  {
    hide Merged, InferTarget, LowerScalar, ScalarError, LowerSpecs, LowerRelationProject;
    var spec := ColumnSpec(alias, parameter, Chain(Variable(parameter), [name]));
    var node := site.Child(1);
    var a := LowerAll(resolver, site.Child(0).Span(), path, 0);
    AddStepLowers(resolver, site, Query(path, []), ProjectStep([spec]), 0);
    assert AddStep(Query(path, []), ProjectStep([spec])) == AliasedQuery(path, alias, parameter, name);
    assert LowerQuery(resolver, site, Query(path, []), 0) == a;
    var element := a.value.state.element.value;
    assert [OriginOfClass(c)][0] == OriginOfClass(c);
    AliasedBody(resolver, node.Child(0).Child(0), parameter, name, element.bound, c, m);
    OneSpec(resolver, node, element, spec);
    OneColumnProjected(resolver, node, a.value.state, spec, LowerSpecs(resolver, node, element, [spec], 1).value);
  }

  lemma AliasEmitted(r: Relation, c: ResolvedClass, name: string)
    requires r.operator.Project? && r.operator.kind == RelationProjection && r.operator.input.operator == Scan(c) && r.facts == UNKNOWN_FACTS
    requires |r.operator.input.schema| == 1 && ScanSchemaMatches(r.operator.input.schema, c.path) && r.operator.input.facts == UNKNOWN_FACTS
    requires |r.schema| == 1 == |r.operator.projections| && r.operator.projections[0].column == r.schema[0].id && IsEmittablePath(c.path)
    requires var e := r.operator.projections[0].expression;
             && e.operator.Navigation? && e.operator.navigation.member.name == name && IsIdentifier(name)
             && e.operator.input.operator == ColumnRead(r.operator.input.schema[0].id)
    ensures EmitCanonical(r).Success?
    ensures EmitCanonical(r).value.query == AliasedQuery(c.path, r.schema[0].name, Binder(0), name)
  {
    hide IsIdentifier, IsEmittablePath, Binder, ScanSchemaMatches;
    var input, ps := r.operator.input, r.operator.projections;
    assert EmitRelation(input, 0, 1) == EmitScan(input, c, 0);
    assert EmitRelation(r, 0, 0) == EmitOperator(r, 0, 1);
    var references := map[input.schema[0].id := Chain(Variable(Binder(0)), [])];
    var e := ps[0].expression;
    assert EmitScalar(e.operator.input, references, 2) == Success(Chain(Variable(Binder(0)), []));
    assert [] + [name] == [name];
    assert EmitScalar(e, references, 1) == Success(Chain(Variable(Binder(0)), [name]));
    assert ps[1..] == [] && r.schema[1..] == [];
    assert EmitSpecs(ps[1..], r.schema[1..], references, Binder(0), 1) == Success([]);
    var spec := ColumnSpec(r.schema[0].name, Binder(0), Chain(Variable(Binder(0)), [name]));
    assert [spec] + [] == [spec];
    assert EmitSpecs(ps, r.schema, references, Binder(0), 1) == Success([ColumnSpec(r.schema[0].name, Binder(0), Chain(Variable(Binder(0)), [name]))]);
  }

  lemma ReservedWordsLookBare(word: string)
    requires word in RESERVED
    ensures IsIdentifier(word) && !LabelReads(word)
  {
    assert word == "all" || word == "let" || word == "allVersions" || word == "allVersionsInRange" || word == "toBytes";
  }

  /** A column aliased by a quoted reserved word prints bare, and its text is
      refused: `path.all()->project(~['let': x | $x.name])` and its like are
      emitted, and are equivalent to the text emitted exactly when the alias reads back. */
  lemma ReservedAliasesDoNotComeBack(resolver: Resolver, site: Site, other: Site, path: string, alias: string, parameter: string, name: string,
                                     c: ResolvedClass, m: ResolvedMember, budget: nat, unread: Refusal)
    requires Ordinary(resolver) && resolver.classAt(path) == Found(c) && resolver.memberAt(path, name) == Found(m)
    requires m.kind.Property? && IsToOne(m.multiplicity) && name !in RESERVED && IsEmittablePath(path) && IsIdentifier(name) && budget >= 4
    ensures Canonicalized(resolver, site, AliasedQuery(path, alias, parameter, name), budget) == Some(AliasedQuery(path, alias, Binder(0), name))
    ensures var q, text := AliasedQuery(path, alias, parameter, name), QueryText(AliasedQuery(path, alias, Binder(0), name));
            var verdict := Comparison.CompareLowered(OutcomeOf(resolver, site, q), OutcomeOfText(resolver, other, text, unread), budget);
            && (verdict == Comparison.Equivalent <==> LabelReads(alias))
            && (alias in RESERVED ==> verdict != Comparison.Equivalent)
  {
    hide LowerQuery, IsIdentifier, IsEmittablePath, Comparison.CompareLowered, Comparison.NormalizeQuery, Binder, Normal, Count, Height, EmitRelation, LowersBack,
         LabelsReadBack, LabelReads, Canonicalized, ReadText, QueryText, OutcomeOfText;
    var q := AliasedQuery(path, alias, parameter, name);
    LoweredAlias(resolver, site, path, alias, parameter, name, c, m);
    var e := LowerQuery(resolver, site, q, 0).value.state.expression;
    PropertyIsNormal(e);
    AliasEmitted(e, c, name);
    CanonicalizesTo(resolver, site, q, budget);
    CanonicalFormIsEquivalentExactly(resolver, site, other, q, budget, unread);
    if alias in RESERVED {
      ReservedWordsLookBare(alias);
    }
  }
}
