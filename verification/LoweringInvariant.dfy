/** What every accepted lowering state keeps. */
module LoweringInvariant {
  import opened Basics
  import opened Relational
  import opened Semantics
  import opened Surface
  import opened Canonical
  import opened Lowering

  /** The binding kind an expression's operators call for: a join leaves none,
      and only steps that keep their input's binding can follow it. */
  function BindingOf(r: Relation): BindingKind
    decreases r
  {
    match r.operator
    case Scan(_) => ColumnBinding
    case Filter(input, _) => BindingOf(input)
    case Project(_, _, kind) => if kind == ScalarProjection then ColumnBinding else RowBinding
    case Join(_, _, _, _) => NoBinding
    case Distinct(input) => BindingOf(input)
    case DistinctOn(input, _) => BindingOf(input)
    case Sort(input, _) => BindingOf(input)
  }

  function ElementBinding(element: Option<BoundElement>): BindingKind {
    match element
    case None => NoBinding
    case Some(ColumnElement(_)) => ColumnBinding
    case Some(RowElement(_, _)) => RowBinding
  }

  /** The row binding of these columns, in this order. */
  ghost predicate IsRowOf(local: LocalValue, columns: seq<BoundColumn>) {
    && columns != [] && |columns| <= U32_LIMIT
    && NamesAreUnique(ColumnsOf(columns))
    && local == LocalValue(RowLocal(RowColumnsOf(columns)), EXACTLY_ONE)
  }

  /** A bound column is the sole column; a bound row is all columns in schema order. */
  ghost predicate ElementFits(element: Option<BoundElement>, schema: Schema) {
    match element
    case None => true
    case Some(ColumnElement(b)) => schema == [b.column]
    case Some(RowElement(local, columns)) => IsRowOf(local, columns) && ColumnsOf(columns) == schema
  }

  ghost predicate IdsWithin(schema: Schema, from: nat, next: nat) {
    forall i :: 0 <= i < |schema| ==> from <= schema[i].id < next
  }

  /** The state invariant: a valid expression over identities taken from the
      counter, and a bound element of exactly its schema. */
  ghost predicate Accepted(s: RelationState, from: nat, next: nat) {
    && Valid(s.expression)
    && IdsWithin(s.expression.schema, from, next)
    && ElementFits(s.element, s.expression.schema)
    && ElementBinding(s.element) == BindingOf(s.expression)
  }

  // ---------- selections ----------

  lemma {:induction false} BoundWithIdFinds(columns: seq<BoundColumn>, id: ColumnId)
    ensures BoundWithId(columns, id).Some? <==> FindColumn(ColumnsOf(columns), id).Some?
    ensures BoundWithId(columns, id).Some? ==> FindColumn(ColumnsOf(columns), id) == Some(BoundWithId(columns, id).value.column)
  {
    if columns != [] {
      BoundWithIdFinds(columns[1..], id);
      assert ColumnsOf(columns)[1..] == ColumnsOf(columns[1..]);
    }
  }

  lemma {:induction false} BoundSelectionFinds(columns: seq<BoundColumn>, ids: seq<ColumnId>)
    requires BoundSelection(columns, ids).Some?
    ensures var selected := BoundSelection(columns, ids).value;
            |selected| == |ids|
            && forall i :: 0 <= i < |ids| ==> FindColumn(ColumnsOf(columns), ids[i]) == Some(selected[i].column)
  {
    hide FindColumn, BoundWithId;
    if ids != [] {
      BoundWithIdFinds(columns, ids[0]);
      BoundSelectionFinds(columns, ids[1..]);
    }
  }

  lemma FirstTwoDiffer(ids: seq<ColumnId>)
    requires forall i, j :: 0 <= j < i < |ids| ==> ids[j] != ids[i]
    ensures |ids| > 1 ==> ids[0] != ids[1]
  {
  }

  /** A selection from a one-column schema is that column. */
  lemma SoleSelection(ids: seq<ColumnId>, c: Column)
    requires ids != [] && SelectionOk(ids, [c])
    ensures ids == [c.id] && Selected(ids, [c]) == [c]
  {
    FirstTwoDiffer(ids);
    forall i | 0 <= i < |ids| ensures ids[i] == c.id {
      assert FindColumn([c], ids[i]).Some?;
    }
    SelectedWidth(ids, [c]);
  }

  lemma SelectedElementFits(element: Option<BoundElement>, schema: Schema, ids: seq<ColumnId>)
    requires ids != [] && SelectionOk(ids, schema) && ElementFits(element, schema) && SelectedElement(element, ids).Success?
    ensures ElementFits(SelectedElement(element, ids).value, Selected(ids, schema))
    ensures ElementBinding(SelectedElement(element, ids).value) == ElementBinding(element)
  {
    match element
    case None =>
    case Some(ColumnElement(b)) => SoleSelection(ids, b.column);
    case Some(RowElement(_, columns)) =>
      var selected := BoundSelection(columns, ids).value;
      BoundSelectionFinds(columns, ids);
      SelectedWidth(ids, schema);
      assert ColumnsOf(selected) == Selected(ids, schema);
  }

  // ---------- allocation ----------

  /** Each column of a project takes the next identity, in order. */
  lemma {:induction false} SpecsAllocate(resolver: Resolver, site: Site, element: BoundElement, specs: seq<ColumnSpec>, next: u32)
    requires LowerSpecs(resolver, site, element, specs, next).Success?
    ensures var r := LowerSpecs(resolver, site, element, specs, next).value;
            && |r.columns| == |r.projections| == |specs| && r.next == next + |specs|
            && forall i :: 0 <= i < |specs| ==> r.columns[i].column.id == next + i && r.columns[i].column.name == specs[i].alias
  {
    hide LowerScalar;
    if specs != [] {
      SpecsAllocate(resolver, site, element, specs[..|specs| - 1], next);
    }
  }

  // ---------- the invariant, step by step ----------

  lemma AllAccepted(resolver: Resolver, span: SourceSpan, path: string, next: u32)
    requires LowerAll(resolver, span, path, next).Success?
    ensures var a := LowerAll(resolver, span, path, next).value;
            Accepted(a.state, next, a.next) && a.next == next + 1
  {
  }

  lemma FilterAccepted(resolver: Resolver, site: Site, s: RelationState, parameter: string, body: Expr, from: nat, next: nat)
    requires Accepted(s, from, next) && LowerFilter(resolver, site, s, parameter, body).Success?
    ensures Accepted(LowerFilter(resolver, site, s, parameter, body).value, from, next)
  {
    hide LowerScalar, ElementFits, IdsWithin, ScalarError;
  }

  lemma ScalarProjectAccepted(span: SourceSpan, s: RelationState, name: string, scalar: LoweredScalar, from: nat, next: u32)
    requires Accepted(s, from, next) && from <= next && LowerScalarProject(span, s, name, scalar, next).Success?
    ensures var a := LowerScalarProject(span, s, name, scalar, next).value;
            Accepted(a.state, from, a.next) && a.next == next + 1
  {
    hide ScalarError;
  }

  lemma RelationProjectAccepted(resolver: Resolver, site: Site, s: RelationState, specs: seq<ColumnSpec>, from: nat, next: u32)
    requires Accepted(s, from, next) && from <= next && LowerRelationProject(resolver, site, s, specs, next).Success?
    ensures var a := LowerRelationProject(resolver, site, s, specs, next).value;
            Accepted(a.state, from, a.next) && a.next == next + |specs|
  {
    hide LowerSpecs, ScalarError, NamesAreUnique;
    SpecsAllocate(resolver, site, s.element.value, specs, next);
  }

  lemma DistinctAccepted(span: SourceSpan, s: RelationState, from: nat, next: nat)
    requires Accepted(s, from, next) && LowerDistinct(span, s).Success?
    ensures Accepted(LowerDistinct(span, s).value, from, next)
  {
    hide ElementFits, IdsWithin;
  }

  lemma DistinctOnAccepted(span: SourceSpan, s: RelationState, names: seq<string>, from: nat, next: nat)
    requires Accepted(s, from, next) && LowerDistinctOn(span, s, names).Success?
    ensures Accepted(LowerDistinctOn(span, s, names).value, from, next)
  {
    hide ElementFits, SelectedElement, Selected;
    var input := s.expression;
    var ids := ResolveSelectors(names, input.schema).value;
    SelectedElementFits(s.element, input.schema, ids);
    SelectedWidth(ids, input.schema);
    var schema := Selected(ids, input.schema);
    forall i | 0 <= i < |schema| ensures from <= schema[i].id < next {
      assert schema[i] in input.schema;
    }
  }

  lemma SortAccepted(site: Site, s: RelationState, keys: seq<KeySpec>, from: nat, next: nat)
    requires Accepted(s, from, next) && LowerSort(site, s, keys).Success?
    ensures Accepted(LowerSort(site, s, keys).value, from, next)
  {
    hide ElementFits, IdsWithin, LowerKeys;
  }

  lemma JoinedAccepted(resolver: Resolver, site: Site, left: RelationState, right: RelationState, l: string, r: string, body: Expr,
                       from: nat, middle: nat, next: nat)
    requires BindsColumn(left) && from <= middle <= next && Accepted(left, from, middle) && Accepted(right, middle, next)
    requires LowerJoined(resolver, site, left, right, l, r, body).Success?
    ensures Accepted(LowerJoined(resolver, site, left, right, l, r, body).value, from, next)
  {
    hide LowerScalar, ScalarError;
  }

  lemma {:induction false} StepAccepted(resolver: Resolver, site: Site, a: Allocated, step: Step, from: nat)
    requires Accepted(a.state, from, a.next) && from <= a.next && LowerStep(resolver, site, a, step).Success?
    ensures var b := LowerStep(resolver, site, a, step).value;
            Accepted(b.state, from, b.next) && a.next <= b.next
    decreases step, 0
  {
    hide Accepted, LowerFilter, LowerScalarProject, LowerRelationProject, LowerDistinct, LowerDistinctOn, LowerSort, LowerJoined, LowerScalar, LowerNavigation;
    match step
    case PropertyStep(name) =>
      var b := a.state.element.value.bound;
      ScalarProjectAccepted(site.Span(), a.state, name, LowerNavigation(resolver, site.Span(), ReadColumn(b, b.column.origin), name).value, from, a.next);
    case FilterStep(parameter, body) => FilterAccepted(resolver, site, a.state, parameter, body, from, a.next);
    case MapStep(parameter, body) =>
      var scalar := LowerScalar(resolver, site.Child(0), [(parameter, a.state.element.value)], body).value;
      ScalarProjectAccepted(site.Span(), a.state, MAP_VALUE_COLUMN_NAME, scalar, from, a.next);
    case ProjectStep(specs) => RelationProjectAccepted(resolver, site, a.state, specs, from, a.next);
    case JoinStep(right, _, l, r, condition) =>
      var b := LowerQuery(resolver, site.Child(1), right, a.next).value;
      LoweringKeepsInvariant(resolver, site.Child(1), right, a.next);
      JoinedAccepted(resolver, site, a.state, b.state, l, r, condition, from, a.next, b.next);
    case DistinctStep => DistinctAccepted(site.Span(), a.state, from, a.next);
    case DistinctOnStep(names) => DistinctOnAccepted(site.Span(), a.state, names, from, a.next);
    case SortStep(keys) => SortAccepted(site, a.state, keys, from, a.next);
  }

  lemma {:induction false} StepsAccepted(resolver: Resolver, site: Site, path: string, steps: seq<Step>, next: u32)
    requires LowerSteps(resolver, site, path, steps, next).Success?
    ensures var a := LowerSteps(resolver, site, path, steps, next).value;
            Accepted(a.state, next, a.next) && next < a.next
    decreases steps, 1
  {
    hide Accepted, LowerStep, LowerAll;
    if steps == [] {
      AllAccepted(resolver, site.Child(0).Span(), path, next);
    } else {
      StepsAccepted(resolver, site, path, steps[..|steps| - 1], next);
      StepAccepted(resolver, site.Child(|steps|), LowerSteps(resolver, site, path, steps[..|steps| - 1], next).value, steps[|steps| - 1], next);
    }
  }

  /** Every accepted query is a valid expression over fresh identities, and the
      element bound for the next lambda is what its operators call for. */
  lemma {:induction false} LoweringKeepsInvariant(resolver: Resolver, site: Site, q: Query, next: u32)
    requires LowerQuery(resolver, site, q, next).Success?
    ensures var a := LowerQuery(resolver, site, q, next).value;
            Accepted(a.state, next, a.next) && next < a.next
    decreases q, 2
  {
    StepsAccepted(resolver, site, q.path, q.steps, next);
  }

  /** The sides of a join never share an identity, so lowering never declines a join for that. */
  lemma JoinSidesAreDisjoint(left: RelationState, right: RelationState, from: nat, middle: nat, next: nat)
    requires Accepted(left, from, middle) && Accepted(right, middle, next)
    ensures DistinctIds(left.expression.schema + right.expression.schema)
  {
    ghost var l, r := left.expression.schema, right.expression.schema;
    assert DistinctIds(l) && DistinctIds(r);
    forall i, j | 0 <= i < j < |l + r| ensures (l + r)[i].id != (l + r)[j].id {
      if i < |l| <= j {
        assert l[i].id < middle <= r[j - |l|].id;
      }
    }
  }

  /** Emission binds what the operators call for. */
  lemma {:induction false} EmissionBindsAlike(r: Relation, next: nat, depth: nat)
    requires EmitRelation(r, next, depth).Success?
    ensures EmitRelation(r, next, depth).value.binding == BindingOf(r)
    decreases r
  {
    hide EmitScalar, EmitSpecs, ReferencesFor, SelectorNames, EmitKeys, ScanSchemaMatches, NamesAreUnique, IsEmittablePath, ProjectShapeMatches;
    match r.operator
    case Scan(_) =>
    case Filter(input, _) => EmissionBindsAlike(input, next, depth + 1);
    case Project(_, _, _) =>
    case Join(_, _, _, _) =>
    case Distinct(input) => EmissionBindsAlike(input, next, depth + 1);
    case DistinctOn(input, _) => EmissionBindsAlike(input, next, depth + 1);
    case Sort(input, _) => EmissionBindsAlike(input, next, depth + 1);
  }

  /** When a lowered query can be emitted, the emitter binds for the next lambda
      exactly what lowering bound for it. */
  lemma EmissionBindsTheElement(resolver: Resolver, site: Site, q: Query, next: u32, binder: nat, depth: nat)
    requires LowerQuery(resolver, site, q, next).Success?
    requires EmitRelation(LowerQuery(resolver, site, q, next).value.state.expression, binder, depth).Success?
    ensures var s := LowerQuery(resolver, site, q, next).value.state;
            EmitRelation(s.expression, binder, depth).value.binding == ElementBinding(s.element)
  {
    hide LowerQuery, EmitRelation;
    LoweringKeepsInvariant(resolver, site, q, next);
    EmissionBindsAlike(LowerQuery(resolver, site, q, next).value.state.expression, binder, depth);
  }
}
