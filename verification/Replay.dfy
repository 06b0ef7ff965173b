/** Lowering an emitted query again: what it gives back, and exactly when. */
module Replay {
  import opened Basics
  import opened Relational
  import opened Semantics
  import opened Keys
  import opened Surface
  import opened Canonical
  import opened Emission
  import opened Lowering
  import opened LoweringInvariant
  import opened LoweringMeaning
  import opened ReplayScalars

  // ---------- the conditions ----------

  /** Every class and navigation is one the resolver still answers, up to provenance. */
  ghost predicate Answered(resolver: Resolver, r: Relation)
    decreases r
  {
    match r.operator
    case Scan(c) => resolver.classAt(c.path).Found? && EraseClass(resolver.classAt(c.path).value) == EraseClass(c)
    case Filter(input, condition) => Answered(resolver, input) && ScalarAnswered(resolver, condition)
    case Project(input, projections, _) =>
      Answered(resolver, input) && forall p :: p in projections ==> ScalarAnswered(resolver, p.expression)
    case Join(_, left, right, condition) => Answered(resolver, left) && Answered(resolver, right) && ScalarAnswered(resolver, condition)
    case Distinct(input) => Answered(resolver, input)
    case DistinctOn(input, _) => Answered(resolver, input)
    case Sort(input, _) => Answered(resolver, input)
  }

  /** The join condition reads the one column of each side. */
  ghost predicate JoinsBothSides(left: Relation, right: Relation, condition: Scalar) {
    && |left.schema| == 1 && |right.schema| == 1
    && ReferencesColumn(condition, left.schema[0].id) && ReferencesColumn(condition, right.schema[0].id)
  }

  /** What every lowered relation has: scalars lowering makes, which read no row
      column by a reserved word, projects with columns, and joins whose condition
      reads both sides. */
  ghost predicate Made(r: Relation)
    decreases r
  {
    match r.operator
    case Scan(_) => true
    case Filter(input, condition) => Made(input) && ScalarMade(condition) && ReadsPlainly(condition, BindingOf(input), input.schema)
    case Project(input, projections, kind) =>
      && Made(input)
      && (forall i :: 0 <= i < |projections| ==>
            ScalarMade(projections[i].expression) && ReadsPlainly(projections[i].expression, BindingOf(input), input.schema))
      && (kind == RelationProjection ==> projections != [])
    case Join(_, left, right, condition) => Made(left) && Made(right) && ScalarMade(condition) && JoinsBothSides(left, right, condition)
    case Distinct(input) => Made(input)
    case DistinctOn(input, _) => Made(input)
    case Sort(input, _) => Made(input)
  }

  /** Every join has a bare class extent on its right. */
  ghost predicate JoinsOverScans(r: Relation)
    decreases r
  {
    match r.operator
    case Scan(_) => true
    case Filter(input, _) => JoinsOverScans(input)
    case Project(input, _, _) => JoinsOverScans(input)
    case Join(_, left, right, _) => JoinsOverScans(left) && JoinsOverScans(right) && right.operator.Scan?
    case Distinct(input) => JoinsOverScans(input)
    case DistinctOn(input, _) => JoinsOverScans(input)
    case Sort(input, _) => JoinsOverScans(input)
  }

  ghost predicate Replayable(r: Relation) {
    Made(r) && ScalarColumnsAreValue(r) && JoinsOverScans(r)
  }

  /** How many column identities a lowering of the relation takes. */
  function Allocations(r: Relation): nat
    decreases r
  {
    match r.operator
    case Scan(_) => 1
    case Filter(input, _) => Allocations(input)
    case Project(input, projections, _) => Allocations(input) + |projections|
    case Join(_, left, right, _) => Allocations(left) + Allocations(right)
    case Distinct(input) => Allocations(input)
    case DistinctOn(input, _) => Allocations(input)
    case Sort(input, _) => Allocations(input)
  }

  // ---------- equal up to identities and origins ----------

  ghost predicate Alike(a: Relation, b: Relation) {
    forall base :: Erase(a, base) == Erase(b, base)
  }

  lemma ColumnsErase(a: Schema, b: Schema, base: nat)
    requires DistinctIds(a) && DistinctIds(b)
    ensures EraseColumns(a, Ids(a), base) == EraseColumns(b, Ids(b), base) <==> SameColumns(a, b)
  {
    hide DistinctIds, Position;
    var x, y := EraseColumns(a, Ids(a), base), EraseColumns(b, Ids(b), base);
    assert |x| == |a| && |y| == |b|;
    forall i | 0 <= i < |a| ensures x[i] == a[i].(id := base + i, origin := BLANK_ORIGIN) {
      DistinctPosition(a, i);
    }
    forall i | 0 <= i < |b| ensures y[i] == b[i].(id := base + i, origin := BLANK_ORIGIN) {
      DistinctPosition(b, i);
    }
    if SameColumns(a, b) {
      forall i | 0 <= i < |a| ensures x[i] == y[i] {
        assert FactsOfColumn(a[i]) == FactsOfColumn(b[i]);
      }
    }
    if x == y {
      forall i | 0 <= i < |a| ensures FactsOfColumn(a[i]) == FactsOfColumn(b[i]) {
        assert x[i] == y[i];
      }
    }
  }

  lemma MatchingFactsErase(a: Facts, b: Facts, ids: seq<ColumnId>)
    requires a.Matches(b)
    ensures EraseFacts(a, ids) == EraseFacts(b, ids)
  {
  }

  lemma AlikeParts(a: Relation, b: Relation)
    requires Valid(a) && Valid(b) && Erase(a, 0) == Erase(b, 0)
    ensures SameColumns(a.schema, b.schema) && EraseFacts(a.facts, Ids(a.schema)) == EraseFacts(b.facts, Ids(b.schema))
  {
    ColumnsErase(a.schema, b.schema, 0);
  }

  lemma FilterErases(a: Relation, b: Relation, base: nat)
    requires Valid(a) && Valid(b) && a.operator.Filter? && b.operator.Filter?
    requires a.facts.Matches(a.operator.input.facts) && b.facts.Matches(b.operator.input.facts)
    requires Erase(a.operator.input, base) == Erase(b.operator.input, base)
    requires EraseScalar(a.operator.predicate_, Ids(a.operator.input.schema), base) ==
             EraseScalar(b.operator.predicate_, Ids(b.operator.input.schema), base)
    ensures Erase(a, base) == Erase(b, base)
  {
    hide EraseScalar, EraseColumns, EraseFacts, ScalarError, DistinctIds, IsBoolean;
    MatchingFactsErase(a.facts, a.operator.input.facts, Ids(a.schema));
    MatchingFactsErase(b.facts, b.operator.input.facts, Ids(b.schema));
  }

  lemma SortErases(a: Relation, b: Relation, base: nat)
    requires Valid(a) && Valid(b) && a.operator.Sort? && b.operator.Sort?
    requires a.facts.Matches(a.operator.input.facts) && b.facts.Matches(b.operator.input.facts)
    requires Erase(a.operator.input, base) == Erase(b.operator.input, base)
    requires EraseSortKeys(a.operator.keys, Ids(a.operator.input.schema), base) == EraseSortKeys(b.operator.keys, Ids(b.operator.input.schema), base)
    ensures Erase(a, base) == Erase(b, base)
  {
    hide EraseSortKeys, EraseColumns, EraseFacts, SortKeysOk, DistinctIds;
    MatchingFactsErase(a.facts, a.operator.input.facts, Ids(a.schema));
    MatchingFactsErase(b.facts, b.operator.input.facts, Ids(b.schema));
  }

  lemma DistinctErases(a: Relation, b: Relation, base: nat)
    requires Valid(a) && Valid(b) && a.operator.Distinct? && b.operator.Distinct?
    requires FactsAreDistinctSet(a.facts) && FactsAreDistinctSet(b.facts)
    requires Erase(a.operator.input, base) == Erase(b.operator.input, base)
    ensures Erase(a, base) == Erase(b, base)
  {
    hide EraseColumns, DistinctIds;
  }

  lemma DistinctOnErases(a: Relation, b: Relation, base: nat)
    requires Valid(a) && Valid(b) && a.operator.DistinctOn? && b.operator.DistinctOn?
    requires a.facts.AreUnknown() && b.facts.AreUnknown() && SameColumns(a.schema, b.schema)
    requires Erase(a.operator.input, base) == Erase(b.operator.input, base)
    requires EraseSelection(a.operator.columns, Ids(a.operator.input.schema), base) ==
             EraseSelection(b.operator.columns, Ids(b.operator.input.schema), base)
    ensures Erase(a, base) == Erase(b, base)
  {
    hide EraseSelection, EraseColumns, SelectionOk, Selected, DistinctIds;
    ColumnsErase(a.schema, b.schema, base);
  }

  lemma ProjectErases(a: Relation, b: Relation, base: nat)
    requires Valid(a) && Valid(b) && a.operator.Project? && b.operator.Project? && a.operator.kind == b.operator.kind
    requires a.facts.AreUnknown() && b.facts.AreUnknown() && SameColumns(a.schema, b.schema)
    requires Erase(a.operator.input, base) == Erase(b.operator.input, base)
    requires forall i :: 0 <= i < |a.schema| ==>
               EraseScalar(a.operator.projections[i].expression, Ids(a.operator.input.schema), base) ==
               EraseScalar(b.operator.projections[i].expression, Ids(b.operator.input.schema), base)
    ensures Erase(a, base) == Erase(b, base)
  {
    hide EraseScalar, EraseColumns, ScalarError, DistinctIds, Position;
    ColumnsErase(a.schema, b.schema, base);
    var p, q := a.operator.projections, b.operator.projections;
    var x := EraseProjections(p, Ids(a.schema), Ids(a.operator.input.schema), base);
    var y := EraseProjections(q, Ids(b.schema), Ids(b.operator.input.schema), base);
    forall i | 0 <= i < |p| ensures x[i] == y[i] {
      DistinctPosition(a.schema, i);
      DistinctPosition(b.schema, i);
    }
    assert x == y;
  }

  lemma JoinErases(a: Relation, b: Relation, base: nat)
    requires Valid(a) && Valid(b) && a.operator.Join? && b.operator.Join? && |a.operator.left.schema| == |b.operator.left.schema|
    requires a.facts.AreUnknown() && b.facts.AreUnknown() && SameColumns(a.schema, b.schema)
    requires Erase(a.operator.left, base) == Erase(b.operator.left, base)
    requires Erase(a.operator.right, base + |a.operator.left.schema|) == Erase(b.operator.right, base + |a.operator.left.schema|)
    requires EraseScalar(a.operator.condition, Ids(a.schema), base) == EraseScalar(b.operator.condition, Ids(b.schema), base)
    ensures Erase(a, base) == Erase(b, base)
  {
    hide EraseScalar, EraseColumns, ScalarError, DistinctIds, IsBoolean;
    ColumnsErase(a.schema, b.schema, base);
    SchemasJoined(a.operator.left.schema, a.operator.right.schema);
    SchemasJoined(b.operator.left.schema, b.operator.right.schema);
    assert a.operator.joinKind == Inner == b.operator.joinKind;
  }

  /** Only a scan is emitted without steps. */
  lemma EmittedSteps(r: Relation, next: nat, depth: nat)
    requires EmitRelation(r, next, depth).Success?
    ensures EmitRelation(r, next, depth).value.query.steps == [] <==> r.operator.Scan?
  {
    hide EmitScalar, EmitSpecs, ReferencesFor, SelectorNames, EmitKeys, IsEmittablePath, ScanSchemaMatches, NamesAreUnique;
  }
}
