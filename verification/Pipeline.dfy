/** The whole pipeline, from one surface query to another: lowering,
    normalization, comparison and emission put together. */
module Pipeline {
  import opened Basics
  import opened Relational
  import opened Semantics
  import opened Normalization
  import opened Surface
  import opened SurfaceSemantics
  import opened Canonical
  import opened Emission
  import opened EmissionForm
  import opened Unambiguity
  import opened Lowering
  import opened LoweringInvariant
  import opened LoweringMeaning
  import opened FailureOrigins
  import opened Replay
  import Comparison

  // ---------- comparison of surface queries ----------

  /** Both tables have the same ordered rows under the same column names and types. */
  ghost predicate SameAnswer(a: Option<Table>, b: Option<Table>) {
    a.Some? && b.Some? && a.value.rows == b.value.rows && a.value.columns == b.value.columns
  }

  lemma DescribedAlike(a: Schema, b: Schema)
    requires Describe(a) == Describe(b)
    ensures NamedTypes(a) == NamedTypes(b)
  {
    assert |Describe(a)| == |a| && |Describe(b)| == |b|;
    forall i | 0 <= i < |a| ensures NamedTypes(a)[i] == NamedTypes(b)[i] {
      assert Describe(a)[i] == Describe(b)[i];
    }
  }

  /** What lowering hands to comparison: an expression, or a refusal at the origin last marked. */
  ghost function OutcomeOf(resolver: Resolver, site: Site, q: Query): Comparison.RelationalOutcome {
    match LowerQuery(resolver, site, q, 0)
    case Success(a) => Comparison.Supported(a.state.expression)
    case Failure(reason) => Comparison.Opaque(Refusal(reason, MarkAfterQuery(resolver, site, q, 0)))
  }

  /** Whenever comparison calls two surface queries equivalent, they return the
      same answer on every database. */
  lemma {:induction false} EquivalentQueriesAnswerAlike(resolver: Resolver, p: Site, s: Site, primary: Query, secondary: Query,
                                                        budget: nat)
    requires KeepsNames(resolver)
    ensures Comparison.CompareLowered(OutcomeOf(resolver, p, primary), OutcomeOf(resolver, s, secondary), budget) == Comparison.Equivalent ==>
            forall db :: SameAnswer(EvaluateQuery(db, ModelOf(resolver), primary), EvaluateQuery(db, ModelOf(resolver), secondary))
  {
    hide LowerQuery, EvaluateQuery, Valid, Comparison.Compare, Describe, Denote, NamedTypes, ModelOf;
    if Comparison.CompareLowered(OutcomeOf(resolver, p, primary), OutcomeOf(resolver, s, secondary), budget) == Comparison.Equivalent {
      EquivalentLoweringsAnswerAlike(resolver, p, s, primary, secondary, budget);
    }
  }

  lemma {:induction false} EquivalentLoweringsAnswerAlike(resolver: Resolver, p: Site, s: Site, primary: Query, secondary: Query,
                                                          budget: nat)
    requires KeepsNames(resolver)
    requires LowerQuery(resolver, p, primary, 0).Success? && LowerQuery(resolver, s, secondary, 0).Success?
    requires Comparison.Compare(LowerQuery(resolver, p, primary, 0).value.state.expression,
                                LowerQuery(resolver, s, secondary, 0).value.state.expression, budget) == Comparison.Equivalent
    ensures forall db :: SameAnswer(EvaluateQuery(db, ModelOf(resolver), primary), EvaluateQuery(db, ModelOf(resolver), secondary))
  {
    hide LowerQuery, EvaluateQuery, Valid, Comparison.Compare, Describe, Denote, NamedTypes, ModelOf;
    var a, b := LowerQuery(resolver, p, primary, 0).value.state, LowerQuery(resolver, s, secondary, 0).value.state;
    LoweringKeepsInvariant(resolver, p, primary, 0);
    LoweringKeepsInvariant(resolver, s, secondary, 0);
    Comparison.EquivalentIsSound(a.expression, b.expression, budget);
    DescribedAlike(a.expression.schema, b.expression.schema);
    forall db ensures SameAnswer(EvaluateQuery(db, ModelOf(resolver), primary), EvaluateQuery(db, ModelOf(resolver), secondary)) {
      LoweringPreservesMeaning(db, resolver, p, primary, 0);
      LoweringPreservesMeaning(db, resolver, s, secondary, 0);
    }
  }

  // ---------- canonicalization of a surface query ----------

  lemma {:induction false} NormalResolved(model: Model, r: Relation)
    requires Resolved(model, r)
    ensures Resolved(model, Normal(r))
    decreases r
  {
    match r.operator
    case Scan(_) =>
    case Filter(input, _) => NormalResolved(model, input);
    case Project(input, _, _) => NormalResolved(model, input);
    case Join(_, left, right, _) =>
      NormalResolved(model, left);
      NormalResolved(model, right);
    case Distinct(input) => NormalResolved(model, input);
    case DistinctOn(input, _) => NormalResolved(model, input);
    case Sort(input, _) => NormalResolved(model, input);
  }

  lemma {:induction false} NormalKeepsValueColumns(r: Relation)
    requires ScalarColumnsAreValue(r)
    ensures ScalarColumnsAreValue(Normal(r))
    decreases r
  {
    match r.operator
    case Scan(_) =>
    case Filter(input, _) => NormalKeepsValueColumns(input);
    case Project(input, _, _) => NormalKeepsValueColumns(input);
    case Join(_, left, right, _) =>
      NormalKeepsValueColumns(left);
      NormalKeepsValueColumns(right);
    case Distinct(input) => NormalKeepsValueColumns(input);
    case DistinctOn(input, _) => NormalKeepsValueColumns(input);
    case Sort(input, _) => NormalKeepsValueColumns(input);
  }

  /** The query navigates only inside lambdas, never with a `.property` step. */
  predicate NavigatesInLambdas(steps: seq<Step>)
    decreases steps
  {
    steps == [] ||
    var last := steps[|steps| - 1];
    && NavigatesInLambdas(steps[..|steps| - 1])
    && !last.PropertyStep?
    && (last.JoinStep? ==> NavigatesInLambdas(last.right.steps))
  }

  lemma StepColumnsAreValue(resolver: Resolver, site: Site, a: Allocated, step: Step)
    requires ScalarColumnsAreValue(a.state.expression) && !step.PropertyStep? && LowerStep(resolver, site, a, step).Success?
    requires step.JoinStep? ==>
               var right := LowerQuery(resolver, site.Child(1), step.right, a.next);
               right.Success? ==> ScalarColumnsAreValue(right.value.state.expression)
    ensures ScalarColumnsAreValue(LowerStep(resolver, site, a, step).value.state.expression)
  {
    hide LowerQuery, LowerScalar, LowerSpecs, Merged, OperatorOk, KeysInScope, LowerKeys, ResolveSelectors, SelectedElement, Selected, BindRow,
         NamesAreUnique, DistinctIds, AliasesAreUnique, ReferencesColumn, ProjectionOrigins, KeyOrigins;
  }

  lemma {:induction false} LoweredColumnsAreValue(resolver: Resolver, site: Site, path: string, steps: seq<Step>, next: u32)
    requires NavigatesInLambdas(steps) && LowerSteps(resolver, site, path, steps, next).Success?
    ensures ScalarColumnsAreValue(LowerSteps(resolver, site, path, steps, next).value.state.expression)
    decreases steps
  {
    hide LowerStep;
    if steps != [] {
      var last := steps[|steps| - 1];
      LoweredColumnsAreValue(resolver, site, path, steps[..|steps| - 1], next);
      var a := LowerSteps(resolver, site, path, steps[..|steps| - 1], next).value;
      if last.JoinStep? && LowerQuery(resolver, site.Child(|steps|).Child(1), last.right, a.next).Success? {
        LoweredColumnsAreValue(resolver, site.Child(|steps|).Child(1), last.right.path, last.right.steps, a.next);
      }
      StepColumnsAreValue(resolver, site.Child(|steps|), a, last);
    }
  }

  /** The query canonical emission prints for a surface query, within a work budget. */
  ghost function Canonicalized(resolver: Resolver, site: Site, q: Query, budget: nat): Option<Query> {
    match LowerQuery(resolver, site, q, 0)
    case Failure(_) => None
    case Success(a) =>
      match Comparison.NormalizeQuery(a.state.expression, budget)
      case NotNormalized(_) => None
      case Normalized(normalized) =>
        match EmitCanonical(normalized.root)
        case Failure(_) => None
        case Success(em) => Some(em.query)
  }

  /** What is emitted is emitted from the normal form. */
  lemma CanonicalizedFromNormal(resolver: Resolver, site: Site, q: Query, budget: nat)
    requires Canonicalized(resolver, site, q, budget).Some?
    ensures LowerQuery(resolver, site, q, 0).Success?
    ensures var e := LowerQuery(resolver, site, q, 0).value.state.expression;
            EmitCanonical(Normal(e)).Success? && Canonicalized(resolver, site, q, budget) == Some(EmitCanonical(Normal(e)).value.query)
  {
    hide LowerQuery, EmitRelation, Normal, Run, Visits;
    Comparison.NormalizesExactlyWithin(LowerQuery(resolver, site, q, 0).value.state.expression, budget);
  }

  /** The normal form a query is emitted from. */
  ghost function NormalFormOf(resolver: Resolver, site: Site, q: Query): Relation
    requires LowerQuery(resolver, site, q, 0).Success?
  {
    Normal(LowerQuery(resolver, site, q, 0).value.state.expression)
  }

  /** The tables have the same ordered rows and column types. */
  ghost predicate SameRows(a: Option<Table>, b: Option<Table>) {
    a.Some? && b.Some? && a.value.rows == b.value.rows && TypesOf(a.value.columns) == TypesOf(b.value.columns)
  }

  function NamesOf(columns: seq<NamedType>): seq<string> {
    seq(|columns|, i requires 0 <= i < |columns| => columns[i].0)
  }

  function TypesOf(columns: seq<NamedType>): seq<TypeRef> {
    seq(|columns|, i requires 0 <= i < |columns| => columns[i].1)
  }

  lemma UnderSplits(names: seq<string>, schema: Schema)
    requires |names| == |schema|
    ensures NamesOf(Under(names, schema)) == names
    ensures TypesOf(Under(names, schema)) == seq(|schema|, i requires 0 <= i < |schema| => schema[i].typeRef)
  {
  }

  /** A query that lowers returns the rows of its normal form under its own names. */
  lemma QueryReturnsNormalForm(db: Database, resolver: Resolver, site: Site, q: Query)
    requires KeepsNames(resolver) && LowerQuery(resolver, site, q, 0).Success?
    ensures var n := NormalFormOf(resolver, site, q);
            var t := EvaluateQuery(db, ModelOf(resolver), q);
            && Valid(n) && Resolved(ModelOf(resolver), n)
            && t.Some? && t.value.rows == Denote(db, n) && t.value.columns == Under(ColumnNames(n.schema), n.schema)
  {
    hide LowerSteps, EvaluateQuery, Valid, Denote, NamedTypes, ModelOf, Normal, Resolved, Under, ColumnNames;
    var e := LowerQuery(resolver, site, q, 0).value.state.expression;
    LoweringKeepsInvariant(resolver, site, q, 0);
    LoweringPreservesMeaning(db, resolver, site, q, 0);
    NormalIsValid(e);
    NormalPreservesMeaning(db, e);
    NormalResolved(ModelOf(resolver), e);
    OwnNames(e.schema);
  }

  /** Canonicalization, whatever the query: the emitted query has the query's rows
      and column types under the emitted names, or resolves no names at all, and
      answers the same exactly when the emitted names are the query's own. */
  lemma CanonicalizationPreservesMeaning(db: Database, resolver: Resolver, site: Site, q: Query, budget: nat)
    requires KeepsNames(resolver) && Canonicalized(resolver, site, q, budget).Some?
    ensures LowerQuery(resolver, site, q, 0).Success?
    ensures var n := NormalFormOf(resolver, site, q);
            var before := EvaluateQuery(db, ModelOf(resolver), q);
            var after := EvaluateQuery(db, ModelOf(resolver), Canonicalized(resolver, site, q, budget).value);
            && (after.Some? <==> EmittedNames(n).Some?)
            && (after.Some? ==> SameRows(before, after) && NamesOf(after.value.columns) == EmittedNames(n).value)
            && (SameAnswer(before, after) <==> EmittedNames(n) == Some(ColumnNames(n.schema)))
  {
    hide LowerQuery, EvaluateQuery, Valid, Denote, NamedTypes, ModelOf, Normal, EmitRelation, Resolved, Canonicalized, EmittedNames, Under, NamesOf, TypesOf, ColumnNames;
    CanonicalizedFromNormal(resolver, site, q, budget);
    var n := NormalFormOf(resolver, site, q);
    QueryReturnsNormalForm(db, resolver, site, q);
    EmissionReturnsExactly(db, ModelOf(resolver), n, 0, 0);
    NamesCounted(n.schema);
    UnderSplits(ColumnNames(n.schema), n.schema);
    if EmittedNames(n).Some? {
      UnderSplits(EmittedNames(n).value, n.schema);
    }
  }

  lemma NamesCounted(schema: Schema)
    ensures |ColumnNames(schema)| == |schema|
  {
  }

  /** A query without `.property` steps has the same answer as its emitted query. */
  lemma LambdaQueriesKeepTheirAnswer(db: Database, resolver: Resolver, site: Site, q: Query, budget: nat)
    requires KeepsNames(resolver) && NavigatesInLambdas(q.steps) && Canonicalized(resolver, site, q, budget).Some?
    ensures SameAnswer(EvaluateQuery(db, ModelOf(resolver), q),
                       EvaluateQuery(db, ModelOf(resolver), Canonicalized(resolver, site, q, budget).value))
  {
    hide LowerSteps, EvaluateQuery, Valid, ModelOf, Normal, EmitRelation, Resolved, ScalarColumnsAreValue, Canonicalized, EmittedNames, SameAnswer;
    CanonicalizedFromNormal(resolver, site, q, budget);
    CanonicalizationPreservesMeaning(db, resolver, site, q, budget);
    var e := LowerQuery(resolver, site, q, 0).value.state.expression;
    LoweringKeepsInvariant(resolver, site, q, 0);
    NormalIsValid(e);
    LoweredColumnsAreValue(resolver, site, q.path, q.steps, 0);
    NormalKeepsValueColumns(e);
    ValueColumnsKeepNames(Normal(e), 0, 0);
  }

  /** Two queries with the same canonical text, its names resolving, return the
      same rows and column types on every database, and the same answer exactly
      when their columns have the same names. */
  lemma EqualCanonicalTextsAnswerAlike(db: Database, resolver: Resolver, site: Site, other: Site, p: Query, q: Query, budget: nat)
    requires KeepsNames(resolver)
    requires Canonicalized(resolver, site, p, budget).Some? && Canonicalized(resolver, other, q, budget).Some?
    requires QueryText(Canonicalized(resolver, site, p, budget).value) == QueryText(Canonicalized(resolver, other, q, budget).value)
    ensures LowerQuery(resolver, site, p, 0).Success? && LowerQuery(resolver, other, q, 0).Success?
    ensures var m, n := NormalFormOf(resolver, site, p), NormalFormOf(resolver, other, q);
            var a, b := EvaluateQuery(db, ModelOf(resolver), p), EvaluateQuery(db, ModelOf(resolver), q);
            EmittedNames(m).Some? ==> SameRows(a, b) && (SameAnswer(a, b) <==> ColumnNames(m.schema) == ColumnNames(n.schema))
  {
    hide LowerQuery, EvaluateQuery, EmitRelation, Normal, QueryText, ModelOf, Canonicalized, EmittedNames, Valid, Resolved, Under, NamesOf, TypesOf, ColumnNames, Denote;
    CanonicalizedFromNormal(resolver, site, p, budget);
    CanonicalizedFromNormal(resolver, other, q, budget);
    var m, n := NormalFormOf(resolver, site, p), NormalFormOf(resolver, other, q);
    EqualTextsAreEqualQueries(m, n);
    CanonicalizationPreservesMeaning(db, resolver, site, p, budget);
    CanonicalizationPreservesMeaning(db, resolver, other, q, budget);
    QueryReturnsNormalForm(db, resolver, site, p);
    QueryReturnsNormalForm(db, resolver, other, q);
    NamesCounted(m.schema);
    NamesCounted(n.schema);
    UnderSplits(ColumnNames(m.schema), m.schema);
    UnderSplits(ColumnNames(n.schema), n.schema);
    var a, b := EvaluateQuery(db, ModelOf(resolver), p).value.columns, EvaluateQuery(db, ModelOf(resolver), q).value.columns;
    SplitsJoin(a, b);
  }

  lemma SplitsJoin(a: seq<NamedType>, b: seq<NamedType>)
    ensures a == b <==> NamesOf(a) == NamesOf(b) && TypesOf(a) == TypesOf(b)
  {
    assert |NamesOf(a)| == |a| && |NamesOf(b)| == |b|;
    if NamesOf(a) == NamesOf(b) && TypesOf(a) == TypesOf(b) {
      forall i | 0 <= i < |a| ensures a[i] == b[i] {
        assert NamesOf(a)[i] == NamesOf(b)[i] && TypesOf(a)[i] == TypesOf(b)[i];
      }
    }
  }

  // ---------- where emission falls short of a round trip ----------

  lemma UngroupedJoinIsRefused(resolver: Resolver, site: Site, a: Allocated, step: Step)
    requires step.JoinStep? && !IsOneNode(step.right, step.grouped)
    ensures LowerStep(resolver, site, a, step) == Failure(IndUnmodeledOp)
  {
  }

  /** The emitter never puts a join's right operand in parentheses, and lowering
      takes one only as a single node: an emitted join over anything but a class
      extent is refused, whatever the model. */
  lemma EmittedJoinOverStepsIsRefused(resolver: Resolver, site: Site, r: Relation, binder: nat, depth: nat, next: u32)
    requires EmitRelation(r, binder, depth).Success? && r.operator.Join? && !r.operator.right.operator.Scan?
    ensures LowerQuery(resolver, site, EmitRelation(r, binder, depth).value.query, next).Failure?
  {
    hide EmitScalar, ReferencesFor, LowerAll, LowerJoined, LowerStep;
    var l := EmitRelation(r.operator.left, binder, depth + 1).value;
    var right := EmitRelation(r.operator.right, l.nextBinder, depth + 1).value;
    EmittedSteps(r.operator.right, l.nextBinder, depth + 1);
    var steps := EmitRelation(r, binder, depth).value.query.steps;
    var last := steps[|steps| - 1];
    assert last.JoinStep? && last.right == right.query && !last.grouped;
    var earlier := LowerSteps(resolver, site, l.query.path, steps[..|steps| - 1], next);
    if earlier.Success? {
      UngroupedJoinIsRefused(resolver, site.Child(|steps|), earlier.value, last);
    }
  }

  /** `->distinct()->distinct()->filter(x | true)` over a scan, with the facts
      lowering gives each step. */
  function TwiceDistinctThenTrue(scan: Relation, condition: Scalar, first: IrOrigin, second: IrOrigin, third: IrOrigin): Relation {
    var once := Relation(Distinct(scan), scan.schema, Facts(Unknown, Proven(SetRows, first)), first);
    var twice := Relation(Distinct(once), scan.schema, Facts(Unknown, Proven(SetRows, second)), second);
    Relation(Filter(twice, condition), scan.schema, twice.facts, third)
  }

  /** Normal forms depend on origins: the collapse of a repeated distinct ignores
      where its facts were proved, the removal of a true filter does not, so the
      filter goes exactly when both distincts stand at one origin. */
  lemma NormalizationSeesOrigins(scan: Relation, condition: Scalar, first: IrOrigin, second: IrOrigin, third: IrOrigin)
    requires scan.operator.Scan? && condition.operator == Literal(BooleanLiteral(true)) && condition.totality.Unknown?
    ensures var r := Normal(TwiceDistinctThenTrue(scan, condition, first, second, third));
            && (first == second <==> r.operator == Distinct(scan))
            && (first != second <==> r.operator.Filter?)
  {
    var r := TwiceDistinctThenTrue(scan, condition, first, second, third);
    var twice := r.operator.input;
    var once := twice.operator.input;
    assert Normal(once) == once;
    assert Normal(twice) == once;
  }
}
