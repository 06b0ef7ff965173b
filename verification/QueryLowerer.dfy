/** Lowering as the crate runs it: one counter of column identities, advanced in
    place while loops walk the steps, the column specifications, the selectors
    and the sort keys. Every method is tied to the function of the same step. */
module QueryLowering {
  import opened Basics
  import opened Relational
  import opened Surface
  import opened Canonical
  import opened Lowering
  import opened LoweringInvariant
  import opened FailureOrigins

  method FindColumns(schema: Schema, name: string) returns (matches: seq<Column>)
    ensures matches == ColumnsNamed(schema, name)
  {
    matches := [];
    for i := 0 to |schema|
      invariant matches + ColumnsNamed(schema[i..], name) == ColumnsNamed(schema, name)
    {
      if schema[i].name == name {
        matches := matches + [schema[i]];
      }
      assert schema[i..][1..] == schema[i + 1..];
    }
  }

  /** The selected columns, or the reason and the selector that stopped the search. */
  method ResolveColumnSelectors(site: Site, names: seq<string>, schema: Schema) returns (r: Lowering<seq<ColumnId>>, fault: Option<SourceSpan>)
    ensures r == ResolveSelectors(names, schema) && fault == SelectorFault(site, names, schema)
    ensures r.Failure? <==> fault.Some?
  {
    hide ColumnsNamed;
    var seen: set<string> := {};
    var resolved: seq<ColumnId> := [];
    for i := 0 to |names|
      invariant seen == set k | 0 <= k < i :: names[k]
      invariant ResolveSelectors(names[..i], schema) == Success(resolved) && SelectorFault(site, names[..i], schema) == None
    {
      assert names[..i + 1][..i] == names[..i];
      assert names[i] in seen <==> names[i] in names[..i];
      if names[i] in seen {
        SelectorFailureStays(site, names, i + 1, schema);
        return Failure(IndUnmodeledOp), Some(site.Child(i).Span());
      }
      seen := seen + {names[i]};
      var matches := FindColumns(schema, names[i]);
      if |matches| != 1 {
        SelectorFailureStays(site, names, i + 1, schema);
        return Failure(IndUnresolvedSchema), Some(site.Child(i).Child(0).Span());
      }
      resolved := resolved + [matches[0].id];
    }
    assert names[..|names|] == names;
    return Success(resolved), None;
  }

  /** A prefix that is refused refuses the whole list, for the same reason and at the same place. */
  lemma {:induction false} SelectorFailureStays(site: Site, names: seq<string>, i: nat, schema: Schema)
    requires i <= |names| && ResolveSelectors(names[..i], schema).Failure?
    ensures ResolveSelectors(names, schema) == ResolveSelectors(names[..i], schema)
    ensures SelectorFault(site, names, schema) == SelectorFault(site, names[..i], schema)
    decreases |names|
  {
    if i == |names| {
      assert names[..i] == names;
    } else {
      assert names[..|names| - 1][..i] == names[..i];
      SelectorFailureStays(site, names[..|names| - 1], i, schema);
    }
  }

  lemma {:induction false} KeyFailureStays(site: Site, keys: seq<KeySpec>, i: nat, schema: Schema, input: IrOrigin, before: IrOrigin)
    requires i <= |keys| && LowerKeys(site, keys[..i], schema, input).Failure?
    ensures LowerKeys(site, keys, schema, input) == LowerKeys(site, keys[..i], schema, input)
    ensures KeysMark(site, keys, schema, input, before) == KeysMark(site, keys[..i], schema, input, before)
    decreases |keys|
  {
    if i == |keys| {
      assert keys[..i] == keys;
    } else {
      assert keys[..|keys| - 1][..i] == keys[..i];
      KeyFailureStays(site, keys[..|keys| - 1], i, schema, input, before);
    }
  }

  lemma {:induction false} SpecFailureStays(resolver: Resolver, site: Site, element: BoundElement, specs: seq<ColumnSpec>, i: nat, next: u32,
                                            before: IrOrigin)
    requires i <= |specs| && LowerSpecs(resolver, site, element, specs[..i], next).Failure?
    ensures LowerSpecs(resolver, site, element, specs, next) == LowerSpecs(resolver, site, element, specs[..i], next)
    ensures SpecsMark(resolver, site, element, specs, next, before) == SpecsMark(resolver, site, element, specs[..i], next, before)
    decreases |specs|
  {
    if i == |specs| {
      assert specs[..i] == specs;
    } else {
      assert specs[..|specs| - 1][..i] == specs[..i];
      SpecFailureStays(resolver, site, element, specs[..|specs| - 1], i, next, before);
    }
  }

  lemma {:induction false} MemberFailureStays(resolver: Resolver, site: Site, bindings: Bindings, root: Root, members: seq<string>, i: nat)
    requires i <= |members| && LowerValue(resolver, site, bindings, root, members[..i]).Failure?
    ensures LowerValue(resolver, site, bindings, root, members) == LowerValue(resolver, site, bindings, root, members[..i])
    ensures ValueMark(resolver, site, bindings, root, members) == ValueMark(resolver, site, bindings, root, members[..i])
    decreases |members|
  {
    hide LowerNavigation, LowerRelationColumn, NavigationMark, RelationColumnMark, RootMark, Lookup, LowerBinary, LiteralScalar;
    if i == |members| {
      assert members[..i] == members;
    } else {
      assert members[..|members| - 1][..i] == members[..i];
      MemberFailureStays(resolver, site, bindings, root, members[..|members| - 1], i);
    }
  }

  lemma {:induction false} StepFailureStays(resolver: Resolver, site: Site, path: string, steps: seq<Step>, i: nat, next: u32)
    requires i <= |steps| && LowerSteps(resolver, site, path, steps[..i], next).Failure?
    ensures LowerSteps(resolver, site, path, steps, next) == LowerSteps(resolver, site, path, steps[..i], next)
    ensures MarkAfterSteps(resolver, site, path, steps, next) == MarkAfterSteps(resolver, site, path, steps[..i], next)
    decreases |steps|
  {
    hide LowerStep, LowerAll, MarkAfterStep;
    if i == |steps| {
      assert steps[..i] == steps;
    } else {
      assert steps[..|steps| - 1][..i] == steps[..i];
      StepFailureStays(resolver, site, path, steps[..|steps| - 1], i, next);
    }
  }

  class QueryLowerer {
    const resolver: Resolver
    var nextColumn: u32
    var failureOrigin: IrOrigin

    constructor (resolver: Resolver, site: Site)
      ensures this.resolver == resolver && nextColumn == 0 && failureOrigin == Unmerged(site.Span())
    {
      this.resolver := resolver;
      nextColumn := 0;
      failureOrigin := Unmerged(site.Span());
    }

    /** `mark_failure_with_origins`. */
    method Mark(span: SourceSpan, origins: seq<IrOrigin>, extra: seq<ModelOrigin>)
      modifies `failureOrigin
      ensures failureOrigin == Merged(span, origins, extra)
    {
      failureOrigin := MergeOrigins(span, origins, extra);
    }

    /** The counter has advanced as the specified lowering says; after a refusal it no longer matters. */
    ghost predicate Agrees(r: Lowering<RelationState>, spec: Lowering<Allocated>)
      reads this
    {
      match spec
      case Failure(reason) => r == Failure(reason)
      case Success(a) => r == Success(a.state) && nextColumn == a.next
    }

    method NextColumn() returns (r: Lowering<u32>)
      modifies `nextColumn
      ensures CanAllocate(old(nextColumn)) ==> r == Success(old(nextColumn)) && nextColumn == old(nextColumn) + 1
      ensures !CanAllocate(old(nextColumn)) ==> r == Failure(IndUnmodeledOp) && nextColumn == old(nextColumn)
    {
      var id := nextColumn;
      if id + 1 >= U32_LIMIT {
        return Failure(IndUnmodeledOp);
      }
      nextColumn := id + 1;
      return Success(id);
    }

    /** `RelationExpression::new`, with the reason this caller gives for its refusal. */
    method Build(operator: RelationOperator, schema: Schema, facts: Facts, origin: IrOrigin, reason: ReasonCode)
      returns (r: Lowering<Relation>)
      ensures r == Construct(operator, schema, facts, origin, reason)
    {
      var built := NewRelation(operator, schema, facts, origin);
      match built {
        case Success(e) => return Success(e);
        case Failure(_) => return Failure(reason);
      }
    }

    // ---------- scalars ----------

    method NavigateFrom(span: SourceSpan, input: LoweredScalar, name: string) returns (r: Lowering<LoweredScalar>)
      modifies `failureOrigin
      ensures r == LowerNavigation(resolver, span, input, name)
      ensures failureOrigin == NavigationMark(resolver, span, input, name)
    {
      hide Merged, ComposeNavigationMultiplicity;
      Mark(span, [input.expression.origin], []);
      if name in RESERVED {
        return Failure(IndUnmodeledOp);
      }
      var receiver := LocalValue(input.local.kind, input.expression.multiplicity);
      var outcome := Navigate(resolver, receiver, name);
      if !outcome.Hop? {
        return Failure(NavigationReason(outcome));
      }
      if outcome.target.ColumnTarget? {
        return Failure(IndUnmodeledOp);
      }
      var m := outcome.target.member;
      Mark(span, [input.expression.origin], [OriginOfMember(m)]);
      if !IsNavigable(m) {
        return Failure(IndUnmodeledOp);
      }
      var multiplicity := ComposeNavigationMultiplicity(input.expression.multiplicity, m.multiplicity);
      if multiplicity.None? {
        return Failure(IndUnmodeledOp);
      }
      var models := [OriginOfMember(m)] + if outcome.value.kind.ClassLocal? then [OriginOfClass(outcome.value.kind.cls)] else [];
      var origin := MergeOrigins(span, [input.expression.origin], models);
      return Success(LoweredScalar(
        Scalar(Navigation(input.expression, ResolvedNavigation(receiver, m)), m.target, multiplicity.value, NullabilityUnknown, Unknown, origin),
        LocalValue(outcome.value.kind, multiplicity.value)));
    }

    method ReadRelationColumn(span: SourceSpan, local: LocalValue, columns: seq<BoundColumn>, name: string) returns (r: Lowering<LoweredScalar>)
      requires failureOrigin == Unmerged(span)
      modifies `failureOrigin
      ensures r == LowerRelationColumn(resolver, span, local, columns, name)
      ensures failureOrigin == RelationColumnMark(resolver, span, local, columns, name)
    {
      hide Merged;
      if name in RESERVED {
        return Failure(IndOpaquePredicate);
      }
      var outcome := Navigate(resolver, local, name);
      if !outcome.Hop? {
        return Failure(NavigationReason(outcome));
      }
      if !outcome.target.ColumnTarget? {
        return Failure(IndUnresolvedSchema);
      }
      var index := outcome.target.column.id;
      if index >= |columns| || columns[index].column.name != name {
        return Failure(IndUnresolvedSchema);
      }
      Mark(span, [columns[index].column.origin], []);
      var origin := MergeOrigins(span, [columns[index].column.origin], []);
      return Success(ReadColumn(columns[index], origin));
    }

    method CompareValues(node: Site, bindings: Bindings, left: Expr, right: Expr, negated: bool, ghost root: Root) returns (r: Lowering<LoweredValue>)
      requires left.root < root && right.root < root
      modifies `failureOrigin
      ensures r == LowerBinary(node.Span(), LowerValue(resolver, node.Child(0), bindings, left.root, left.members),
                               LowerValue(resolver, node.Child(1), bindings, right.root, right.members), negated)
      ensures failureOrigin == BinaryMark(node.Span(), LowerValue(resolver, node.Child(0), bindings, left.root, left.members),
                                          ValueMark(resolver, node.Child(0), bindings, left.root, left.members),
                                          LowerValue(resolver, node.Child(1), bindings, right.root, right.members),
                                          ValueMark(resolver, node.Child(1), bindings, right.root, right.members), negated)
      decreases root, 0
    {
      hide Merged, LowerValue, ValueMark;
      failureOrigin := Unmerged(node.Span());
      var x := LowerValueNodes(node.Child(0), bindings, left.root, left.members);
      var l := AsScalar(x);
      if l.Failure? {
        return Failure(l.error);
      }
      var y := LowerValueNodes(node.Child(1), bindings, right.root, right.members);
      var s := AsScalar(y);
      if s.Failure? {
        return Failure(s.error);
      }
      var a, b := l.value.expression, s.value.expression;
      if a.typeRef != b.typeRef || a.multiplicity != EXACTLY_ONE || b.multiplicity != EXACTLY_ONE {
        Mark(node.Span(), [a.origin, b.origin], []);
        return Failure(IndOpaquePredicate);
      }
      var t := TypeRef(BOOLEAN_TYPE, []);
      var origin := MergeOrigins(node.Span(), [a.origin, b.origin], []);
      var equal := Scalar(Equal(a, b), t, EXACTLY_ONE, NonNullable, Unknown, origin);
      var e := if negated then Scalar(Not(equal), t, EXACTLY_ONE, NonNullable, Unknown, origin) else equal;
      return Success(ScalarValue(LoweredScalar(e, LocalValue(ScalarLocal(t), EXACTLY_ONE))));
    }

    method LowerRoot(site: Site, bindings: Bindings, root: Root) returns (r: Lowering<LoweredValue>)
      modifies `failureOrigin
      ensures r == LowerValue(resolver, site, bindings, root, [])
      ensures failureOrigin == RootMark(resolver, site.Child(0), bindings, root)
      decreases root, 1
    {
      hide Merged, LowerBinary, BinaryMark, ValueMark;
      var node := site.Child(0);
      failureOrigin := Unmerged(node.Span());
      match root {
        case Variable(name) =>
          var element := Lookup(bindings, name);
          match element {
            case None => return Failure(IndUnresolvedSchema);
            case Some(ColumnElement(b)) =>
              Mark(node.Span(), [b.column.origin], []);
              var origin := MergeOrigins(node.Span(), [b.column.origin], []);
              return Success(ScalarValue(ReadColumn(b, origin)));
            case Some(RowElement(local, columns)) => return Success(RowValue(local, columns));
          }
        case BooleanRoot(b) => return Success(ScalarValue(LiteralScalar(node.Span(), BooleanLiteral(b), BOOLEAN_TYPE)));
        case IntegerRoot(i) =>
          if i < 0 {
            return Failure(IndOpaquePredicate);
          }
          return Success(ScalarValue(LiteralScalar(node.Span(), IntegerLiteral(i), INTEGER_TYPE)));
        case StringRoot(text) => return Success(ScalarValue(LiteralScalar(node.Span(), StringLiteral(text), STRING_TYPE)));
        case EqualRoot(left, right) => r := CompareValues(node, bindings, left, right, false, root);
        case NotEqualRoot(left, right) => r := CompareValues(node, bindings, left, right, true, root);
      }
    }

    /** `lower_value_nodes`: the root, then one property node after another. */
    method LowerValueNodes(site: Site, bindings: Bindings, root: Root, members: seq<string>) returns (r: Lowering<LoweredValue>)
      modifies `failureOrigin
      ensures r == LowerValue(resolver, site, bindings, root, members)
      ensures failureOrigin == ValueMark(resolver, site, bindings, root, members)
      decreases root, 2
    {
      hide LowerNavigation, LowerRelationColumn, NavigationMark, RelationColumnMark, Lookup, LowerBinary, LiteralScalar, RootMark, Merged, ReadColumn;
      r := LowerRoot(site, bindings, root);
      if r.Failure? {
        MemberFailureStays(resolver, site, bindings, root, members, 0);
        return;
      }
      for i := 0 to |members|
        invariant r.Success? && LowerValue(resolver, site, bindings, root, members[..i]) == r
        invariant failureOrigin == ValueMark(resolver, site, bindings, root, members[..i])
      {
        assert members[..i + 1][..i] == members[..i];
        var span := site.Child(i + 1).Span();
        failureOrigin := Unmerged(span);
        var scalar;
        match r.value {
          case ScalarValue(input) => scalar := NavigateFrom(span, input, members[i]);
          case RowValue(local, columns) => scalar := ReadRelationColumn(span, local, columns, members[i]);
        }
        r := AsValue(scalar);
        if r.Failure? {
          MemberFailureStays(resolver, site, bindings, root, members, i + 1);
          return;
        }
      }
      assert members[..|members|] == members;
    }

    /** `lower_scalar_query`: marked at the query before its nodes. */
    method LowerScalarQuery(site: Site, bindings: Bindings, x: Expr) returns (r: Lowering<LoweredScalar>)
      modifies `failureOrigin
      ensures r == LowerScalar(resolver, site, bindings, x)
      ensures failureOrigin == ScalarMark(resolver, site, bindings, x)
    {
      hide LowerValue, ValueMark;
      failureOrigin := Unmerged(site.Span());
      var value := LowerValueNodes(site, bindings, x.root, x.members);
      r := AsScalar(value);
    }

    // ---------- relations ----------

    method LowerExtent(span: SourceSpan, path: string) returns (r: Lowering<RelationState>)
      modifies this
      ensures Agrees(r, LowerAll(resolver, span, path, old(nextColumn)))
      ensures failureOrigin == Unmerged(span)
    {
      failureOrigin := Unmerged(span);
      match resolver.classAt(path) {
        case NotFound => return Failure(IndUnresolvedSchema);
        case Undecided => return Failure(ModelIncomplete);
        case Found(c) =>
          var id := NextColumn();
          if id.Failure? {
            return Failure(id.error);
          }
          var column := ExtentColumn(span, c, id.value);
          var expression := Build(Scan(c), [column], UNKNOWN_FACTS, column.origin, IndUnmodeledOp);
          if expression.Failure? {
            return Failure(expression.error);
          }
          return Success(RelationState(expression.value, Some(ColumnElement(BoundColumn(column, LocalValue(ClassLocal(c), EXACTLY_ONE))))));
      }
    }

    method LowerFilterStep(site: Site, s: RelationState, parameter: string, body: Expr) returns (r: Lowering<RelationState>)
      modifies `failureOrigin
      ensures r == LowerFilter(resolver, site, s, parameter, body)
      ensures failureOrigin == FilterMark(resolver, site, s, parameter, body)
    {
      hide LowerScalar, ScalarMark, Merged, OperatorOk;
      Mark(site.Span(), [s.expression.origin], []);
      if s.element.None? {
        return Failure(IndUnmodeledOp);
      }
      var condition := LowerScalarQuery(site.Child(0), [(parameter, s.element.value)], body);
      if condition.Failure? {
        return Failure(PredicateReason(condition.error));
      }
      var input, e := s.expression, condition.value.expression;
      var origin := MergeOrigins(site.Span(), [input.origin, e.origin], []);
      var expression := Build(Filter(input, e), input.schema, input.facts, origin, IndOpaquePredicate);
      if expression.Failure? {
        return Failure(expression.error);
      }
      return Success(RelationState(expression.value, s.element));
    }

    method ProjectScalar(span: SourceSpan, s: RelationState, name: string, scalar: LoweredScalar) returns (r: Lowering<RelationState>)
      modifies this
      ensures Agrees(r, LowerScalarProject(span, s, name, scalar, old(nextColumn)))
      ensures failureOrigin == ScalarProjectMark(span, s, scalar)
    {
      hide Merged, OperatorOk;
      var e := scalar.expression;
      Mark(span, [s.expression.origin, e.origin], []);
      var id := NextColumn();
      if id.Failure? {
        return Failure(id.error);
      }
      var column := Column(id.value, name, e.typeRef, e.multiplicity, e.nullability, e.origin);
      var origin := MergeOrigins(span, [s.expression.origin, e.origin], []);
      var expression := Build(Project(s.expression, [Projection(id.value, e)], ScalarProjection), [column], UNKNOWN_FACTS, origin, IndUnmodeledOp);
      if expression.Failure? {
        return Failure(expression.error);
      }
      return Success(RelationState(expression.value, Some(ColumnElement(BoundColumn(column, scalar.local)))));
    }

    method LowerMapStep(site: Site, s: RelationState, parameter: string, body: Expr) returns (r: Lowering<RelationState>)
      modifies this
      ensures Agrees(r, LowerMap(resolver, site, s, parameter, body, old(nextColumn)))
      ensures failureOrigin == MapMark(resolver, site, s, parameter, body)
    {
      hide LowerScalar, ScalarMark, Merged, LowerScalarProject;
      Mark(site.Span(), [s.expression.origin], []);
      if s.element.None? {
        return Failure(IndUnmodeledOp);
      }
      var scalar := LowerScalarQuery(site.Child(0), [(parameter, s.element.value)], body);
      if scalar.Failure? {
        return Failure(OperatorReason(scalar.error));
      }
      r := ProjectScalar(site.Span(), s, MAP_VALUE_COLUMN_NAME, scalar.value);
    }

    method ProjectNavigation(span: SourceSpan, s: RelationState, name: string) returns (r: Lowering<RelationState>)
      modifies this
      ensures Agrees(r, LowerProperty(resolver, span, s, name, old(nextColumn)))
      ensures failureOrigin == PropertyMark(resolver, span, s, name)
    {
      hide LowerNavigation, NavigationMark, Merged, LowerScalarProject;
      Mark(span, [s.expression.origin], []);
      if !BindsColumn(s) {
        return Failure(IndUnmodeledOp);
      }
      var b := s.element.value.bound;
      var scalar := NavigateFrom(span, ReadColumn(b, b.column.origin), name);
      if scalar.Failure? {
        return Failure(scalar.error);
      }
      r := ProjectScalar(span, s, name, scalar.value);
    }

    method LowerColumns(site: Site, element: BoundElement, specs: seq<ColumnSpec>)
      returns (r: Lowering<(seq<BoundColumn>, seq<Projection>)>)
      modifies this
      ensures match LowerSpecs(resolver, site, element, specs, old(nextColumn))
              case Failure(reason) => r == Failure(reason)
              case Success(lowered) => r == Success((lowered.columns, lowered.projections)) && nextColumn == lowered.next
      ensures failureOrigin == SpecsMark(resolver, site, element, specs, old(nextColumn), old(failureOrigin))
    {
      hide LowerScalar, Merged, ScalarMark;
      var columns: seq<BoundColumn> := [];
      var projections: seq<Projection> := [];
      ghost var start := nextColumn;
      ghost var before := failureOrigin;
      for i := 0 to |specs|
        invariant LowerSpecs(resolver, site, element, specs[..i], start) == Success(LoweredSpecs(columns, projections, nextColumn))
        invariant failureOrigin == SpecsMark(resolver, site, element, specs[..i], start, before)
      {
        assert specs[..i + 1][..i] == specs[..i];
        var node := site.Child(i);
        var scalar := LowerScalarQuery(node.Child(0), [(specs[i].parameter, element)], specs[i].body);
        assert failureOrigin == SpecsMark(resolver, site, element, specs[..i + 1], start, before);
        if scalar.Failure? {
          SpecFailureStays(resolver, site, element, specs, i + 1, start, before);
          return Failure(OperatorReason(scalar.error));
        }
        var e := scalar.value.expression;
        var id := NextColumn();
        if id.Failure? {
          SpecFailureStays(resolver, site, element, specs, i + 1, start, before);
          return Failure(id.error);
        }
        var origin := MergeOrigins(node.Span(), [e.origin], []);
        columns := columns + [BoundColumn(Column(id.value, specs[i].alias, e.typeRef, e.multiplicity, e.nullability, origin), scalar.value.local)];
        projections := projections + [Projection(id.value, e)];
      }
      assert specs[..|specs|] == specs;
      return Success((columns, projections));
    }

    /** `BTreeSet::insert` over the aliases, in order. */
    method CheckAliases(specs: seq<ColumnSpec>) returns (unique: bool)
      ensures unique <==> AliasesAreUnique(specs)
    {
      var aliases: set<string> := {};
      for i := 0 to |specs|
        invariant aliases == set k | 0 <= k < i :: specs[k].alias
        invariant AliasesAreUnique(specs[..i])
      {
        if specs[i].alias in aliases {
          return false;
        }
        aliases := aliases + {specs[i].alias};
      }
      assert specs[..|specs|] == specs;
      return true;
    }

    method LowerProjectStep(site: Site, s: RelationState, specs: seq<ColumnSpec>) returns (r: Lowering<RelationState>)
      modifies this
      ensures Agrees(r, LowerRelationProject(resolver, site, s, specs, old(nextColumn)))
      ensures failureOrigin == RelationProjectMark(resolver, site, s, specs, old(nextColumn))
    {
      hide LowerSpecs, SpecsMark, Merged, OperatorOk;
      Mark(site.Span(), [s.expression.origin], []);
      var unique := CheckAliases(specs);
      if !BindsColumn(s) || specs == [] || !unique {
        return Failure(IndUnmodeledOp);
      }
      var lowered := LowerColumns(site, s.element.value, specs);
      if lowered.Failure? {
        return Failure(lowered.error);
      }
      var columns, projections := lowered.value.0, lowered.value.1;
      var schema := NewSchema(ColumnsOf(columns));
      if schema.Failure? {
        return Failure(IndUnmodeledOp);
      }
      var row := BindRow(columns);
      if row.Failure? {
        return Failure(row.error);
      }
      var origin := MergeOrigins(site.Span(), [s.expression.origin] + ProjectionOrigins(projections), []);
      var expression := Build(Project(s.expression, projections, RelationProjection), schema.value, UNKNOWN_FACTS, origin, IndUnmodeledOp);
      if expression.Failure? {
        return Failure(expression.error);
      }
      return Success(RelationState(expression.value, Some(row.value)));
    }

    method LowerDistinctStep(span: SourceSpan, s: RelationState) returns (r: Lowering<RelationState>)
      modifies `failureOrigin
      ensures r == LowerDistinct(span, s)
      ensures failureOrigin == StepMark(span, s)
    {
      hide Merged, OperatorOk;
      Mark(span, [s.expression.origin], []);
      if s.element.None? {
        return Failure(IndUnmodeledOp);
      }
      var origin := MergeOrigins(span, [s.expression.origin], []);
      var expression := Build(Distinct(s.expression), s.expression.schema, NewFacts(Unknown, Proven(SetRows, origin)), origin, IndUnmodeledOp);
      if expression.Failure? {
        return Failure(expression.error);
      }
      return Success(RelationState(expression.value, s.element));
    }

    method LowerDistinctOnStep(site: Site, s: RelationState, names: seq<string>) returns (r: Lowering<RelationState>)
      modifies `failureOrigin
      ensures r == LowerDistinctOn(site.Span(), s, names)
      ensures failureOrigin == DistinctOnMark(site, s, names)
    {
      hide ResolveSelectors, SelectorFault, Merged, OperatorOk;
      var input := s.expression;
      Mark(site.Span(), [input.origin], []);
      if names == [] {
        Mark(site.Child(0).Span(), [input.origin], []);
        return Failure(IndUnmodeledOp);
      }
      var ids, fault := ResolveColumnSelectors(site.Child(0), names, input.schema);
      if ids.Failure? {
        Mark(fault.value, [input.origin], []);
        return Failure(ids.error);
      }
      var schema := NewSchema(Selected(ids.value, input.schema));
      if schema.Failure? {
        return Failure(IndUnmodeledOp);
      }
      var element := SelectedElement(s.element, ids.value);
      if element.Failure? {
        return Failure(element.error);
      }
      var origin := MergeOrigins(site.Span(), [input.origin], []);
      var expression := Build(DistinctOn(input, ids.value), schema.value, UNKNOWN_FACTS, origin, IndUnmodeledOp);
      if expression.Failure? {
        return Failure(expression.error);
      }
      return Success(RelationState(expression.value, element.value));
    }

    method LowerSortStep(site: Site, s: RelationState, specs: seq<KeySpec>) returns (r: Lowering<RelationState>)
      modifies `failureOrigin
      ensures r == LowerSort(site, s, specs)
      ensures failureOrigin == SortMark(site, s, specs)
    {
      hide ColumnsNamed, Merged, OperatorOk;
      var input := s.expression;
      Mark(site.Span(), [input.origin], []);
      ghost var before := failureOrigin;
      var keys: seq<SortKey> := [];
      for i := 0 to |specs|
        invariant LowerKeys(site, specs[..i], input.schema, input.origin) == Success(keys)
        invariant failureOrigin == KeysMark(site, specs[..i], input.schema, input.origin, before)
      {
        assert specs[..i + 1][..i] == specs[..i];
        var node := site.Child(i);
        Mark(node.Span(), [input.origin], []);
        var matches := FindColumns(input.schema, specs[i].column);
        if |matches| != 1 {
          Mark(node.Child(0).Span(), [input.origin], []);
          KeyFailureStays(site, specs, i + 1, input.schema, input.origin, before);
          return Failure(IndUnresolvedSchema);
        }
        var origin := MergeOrigins(node.Span(), [input.origin, matches[0].origin], []);
        keys := keys + [SortKey(matches[0].id, specs[i].direction, origin)];
      }
      assert specs[..|specs|] == specs;
      var origin := MergeOrigins(site.Span(), [input.origin] + KeyOrigins(keys), []);
      var expression := Build(Sort(input, keys), input.schema, input.facts, origin, IndUnmodeledOp);
      if expression.Failure? {
        return Failure(expression.error);
      }
      return Success(RelationState(expression.value, s.element));
    }

    method LowerJoinSides(site: Site, left: RelationState, right: RelationState, l: string, r: string, body: Expr) returns (joined: Lowering<RelationState>)
      requires BindsColumn(left)
      modifies `failureOrigin
      ensures joined == LowerJoined(resolver, site, left, right, l, r, body)
      ensures failureOrigin == JoinedMark(resolver, site, left, right, l, r, body, old(failureOrigin))
    {
      hide LowerScalar, ScalarMark, Merged, OperatorOk;
      if !BindsColumn(right) {
        return Failure(IndUnmodeledOp);
      }
      var condition := LowerScalarQuery(site.Child(0), [(l, left.element.value), (r, right.element.value)], body);
      if condition.Failure? {
        return Failure(PredicateReason(condition.error));
      }
      var c := condition.value.expression;
      if !ReferencesColumn(c, left.element.value.bound.column.id) || !ReferencesColumn(c, right.element.value.bound.column.id) {
        Mark(site.Span(), [left.expression.origin, right.expression.origin, c.origin], []);
        return Failure(IndOpaquePredicate);
      }
      var schema := NewSchema(left.expression.schema + right.expression.schema);
      if schema.Failure? {
        return Failure(IndUnmodeledOp);
      }
      var origin := MergeOrigins(site.Span(), [left.expression.origin, right.expression.origin, c.origin], []);
      var expression := Build(Join(Inner, left.expression, right.expression, c), schema.value, UNKNOWN_FACTS, origin, IndOpaquePredicate);
      if expression.Failure? {
        return Failure(expression.error);
      }
      return Success(RelationState(expression.value, None));
    }

    method LowerOneStep(site: Site, s: RelationState, step: Step) returns (r: Lowering<RelationState>)
      modifies this
      ensures Agrees(r, LowerStep(resolver, site, Allocated(s, old(nextColumn)), step))
      ensures failureOrigin == MarkAfterStep(resolver, site, Allocated(s, old(nextColumn)), step)
      decreases step, 0
    {
      hide LowerAll, LowerFilter, LowerProperty, LowerMap, LowerRelationProject, LowerDistinct, LowerDistinctOn, LowerSort, LowerJoined, LowerQuery,
           FilterMark, MapMark, PropertyMark, RelationProjectMark, DistinctOnMark, SortMark, JoinedMark, MarkAfterQuery, Merged;
      match step {
        case PropertyStep(name) => r := ProjectNavigation(site.Span(), s, name);
        case FilterStep(parameter, body) => r := LowerFilterStep(site, s, parameter, body);
        case MapStep(parameter, body) => r := LowerMapStep(site, s, parameter, body);
        case ProjectStep(specs) => r := LowerProjectStep(site, s, specs);
        case JoinStep(right, grouped, left, other, condition) =>
          Mark(site.Span(), [s.expression.origin], []);
          if !BindsColumn(s) || !IsOneNode(right, grouped) {
            return Failure(IndUnmodeledOp);
          }
          if left == other {
            return Failure(IndOpaquePredicate);
          }
          var operand := LowerPipeline(site.Child(1), right);
          if operand.Failure? {
            return operand;
          }
          r := LowerJoinSides(site, s, operand.value, left, other, condition);
        case DistinctStep => r := LowerDistinctStep(site.Span(), s);
        case DistinctOnStep(names) => r := LowerDistinctOnStep(site, s, names);
        case SortStep(keys) => r := LowerSortStep(site, s, keys);
      }
    }

    /** `lower_relation_nodes`. */
    method LowerPipeline(site: Site, q: Query) returns (r: Lowering<RelationState>)
      modifies this
      ensures Agrees(r, LowerQuery(resolver, site, q, old(nextColumn)))
      ensures failureOrigin == MarkAfterQuery(resolver, site, q, old(nextColumn))
      decreases q, 1
    {
      hide LowerAll, LowerStep, MarkAfterStep;
      ghost var start := nextColumn;
      r := LowerExtent(site.Child(0).Span(), q.path);
      if r.Failure? {
        StepFailureStays(resolver, site, q.path, q.steps, 0, start);
        return;
      }
      var state := r.value;
      for i := 0 to |q.steps|
        invariant LowerSteps(resolver, site, q.path, q.steps[..i], start) == Success(Allocated(state, nextColumn))
        invariant failureOrigin == MarkAfterSteps(resolver, site, q.path, q.steps[..i], start)
      {
        assert q.steps[..i + 1][..i] == q.steps[..i];
        failureOrigin := Unmerged(site.Child(i + 1).Span());
        r := LowerOneStep(site.Child(i + 1), state, q.steps[i]);
        if r.Failure? {
          StepFailureStays(resolver, site, q.path, q.steps, i + 1, start);
          return;
        }
        state := r.value;
      }
      assert q.steps[..|q.steps|] == q.steps;
      return Success(state);
    }
  }

  /** `lower_m3_query`, from one parsed query onwards: the relation, or the reason
      and the origin marked when it was refused. */
  method LowerM3Query(resolver: Resolver, site: Site, q: Query) returns (r: Result<Relation, Refusal>)
    ensures match LowerQuery(resolver, site, q, 0)
            case Failure(reason) => r == Failure(Refusal(reason, MarkAfterQuery(resolver, site, q, 0)))
            case Success(a) => r == Success(a.state.expression) && Accepted(a.state, 0, a.next)
    ensures r.Failure? ==> PointsInto(site, r.error.origin.source)
  {
    hide LowerQuery, Accepted, MarkAfterQuery, PointsInto;
    var lowerer := new QueryLowerer(resolver, site);
    lowerer.failureOrigin := Unmerged(site.Span());
    var state := lowerer.LowerPipeline(site, q);
    match state {
      case Failure(reason) =>
        FailurePointsIntoQuery(resolver, site, q, 0);
        return Failure(Refusal(reason, lowerer.failureOrigin));
      case Success(s) =>
        LoweringKeepsInvariant(resolver, site, q, 0);
        return Success(s.expression);
    }
  }
}
