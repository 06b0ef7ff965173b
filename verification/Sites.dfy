/** One query lowered where it stands in two texts: what it lowers to differs in
    source spans only, and how the two compare. */
module Sites {
  import opened Basics
  import opened Relational
  import opened Semantics
  import opened Normalization
  import opened Keys
  import opened Surface
  import opened Canonical
  import opened Lowering
  import opened LoweringInvariant
  import opened Origins
  import RoundTrip
  import Comparison

  const BLANK_SPAN := SourceSpan(0, TextRange(0, 0))

  /** An origin without its place in the text. */
  function Unspan(origin: IrOrigin): IrOrigin {
    IrOrigin(BLANK_SPAN, origin.modelOrigins)
  }

  // ---------- merged origins ----------

  ghost predicate OriginTwins(a: seq<IrOrigin>, b: seq<IrOrigin>) {
    |a| == |b| && forall i :: 0 <= i < |a| ==> a[i].modelOrigins == b[i].modelOrigins
  }

  lemma {:induction false} AllOriginsTwins(a: seq<IrOrigin>, b: seq<IrOrigin>)
    requires OriginTwins(a, b)
    ensures AllOrigins(a) == AllOrigins(b)
  {
    if a != [] {
      AllOriginsTwins(a[..|a| - 1], b[..|b| - 1]);
    }
  }

  lemma MergedTwins(s: SourceSpan, t: SourceSpan, a: seq<IrOrigin>, b: seq<IrOrigin>, extra: seq<ModelOrigin>)
    requires OriginTwins(a, b)
    ensures Unspan(Merged(s, a, extra)) == Unspan(Merged(t, b, extra))
  {
    AllOriginsTwins(a, b);
  }

  // ---------- validity does not see spans ----------

  lemma {:induction false} FindsTwin(schema: Schema, id: ColumnId)
    ensures FindColumn(schema, id).Some? <==> FindColumn(RelabelSchema(Unspan, schema), id).Some?
    ensures FindColumn(schema, id).Some? ==>
              FindColumn(RelabelSchema(Unspan, schema), id) == Some(RelabelColumn(Unspan, FindColumn(schema, id).value))
  {
    if schema != [] {
      FindsTwin(schema[1..], id);
      assert RelabelSchema(Unspan, schema)[1..] == RelabelSchema(Unspan, schema[1..]);
    }
  }

  lemma {:induction false} UnspannedScalarOk(e: Scalar, schema: Schema)
    ensures ScalarOk(RelabelScalar(Unspan, e), RelabelSchema(Unspan, schema)) <==> ScalarOk(e, schema)
    decreases e
  {
    hide FindColumn, ComposeNavigationMultiplicity, OriginOfClass, OriginOfMember, RelabelSchema;
    match e.operator
    case ColumnRead(id) => FindsTwin(schema, id);
    case Literal(_) =>
    case Navigation(input, _) => UnspannedScalarOk(input, schema);
    case Equal(left, right) =>
      UnspannedScalarOk(left, schema);
      UnspannedScalarOk(right, schema);
    case Not(input) => UnspannedScalarOk(input, schema);
  }

  lemma {:induction false} UnspannedReads(e: Scalar, id: ColumnId)
    ensures ReferencesColumn(RelabelScalar(Unspan, e), id) <==> ReferencesColumn(e, id)
    decreases e
  {
    match e.operator
    case ColumnRead(_) =>
    case Literal(_) =>
    case Navigation(input, _) => UnspannedReads(input, id);
    case Equal(left, right) =>
      UnspannedReads(left, id);
      UnspannedReads(right, id);
    case Not(input) => UnspannedReads(input, id);
  }

  lemma SchemaTwins(a: Schema, b: Schema)
    requires RelabelSchema(Unspan, a) == RelabelSchema(Unspan, b)
    ensures |a| == |b| && Ids(a) == Ids(b)
    ensures forall i :: 0 <= i < |a| ==> RelabelColumn(Unspan, a[i]) == RelabelColumn(Unspan, b[i])
    ensures forall i :: 0 <= i < |a| ==> a[i] == b[i].(origin := a[i].origin) && a[i].origin.modelOrigins == b[i].origin.modelOrigins
  {
    var x, y := RelabelSchema(Unspan, a), RelabelSchema(Unspan, b);
    assert |x| == |a| && |y| == |b|;
    forall i | 0 <= i < |a|
      ensures RelabelColumn(Unspan, a[i]) == RelabelColumn(Unspan, b[i])
      ensures a[i] == b[i].(origin := a[i].origin) && a[i].origin.modelOrigins == b[i].origin.modelOrigins {
      assert x[i] == y[i];
      assert RelabelColumn(Unspan, a[i]).origin == Unspan(a[i].origin) && RelabelColumn(Unspan, b[i]).origin == Unspan(b[i].origin);
    }
  }

  lemma DistinctTwins(a: Schema, b: Schema)
    requires RelabelSchema(Unspan, a) == RelabelSchema(Unspan, b)
    ensures DistinctIds(a) <==> DistinctIds(b)
  {
    SchemaTwins(a, b);
    assert forall i :: 0 <= i < |a| ==> a[i].id == b[i].id;
  }

  lemma ScopeTwins(f: Facts, g: Facts, a: Schema, b: Schema)
    requires RelabelFacts(Unspan, f) == RelabelFacts(Unspan, g) && RelabelSchema(Unspan, a) == RelabelSchema(Unspan, b) && KeysInScope(f, a)
    ensures KeysInScope(g, b)
  {
    hide RelabelSchema, FindColumn;
    forall id ensures FindColumn(a, id).Some? <==> FindColumn(b, id).Some? {
      FindsTwin(a, id);
      FindsTwin(b, id);
    }
  }

  lemma ScalarOkTwins(e: Scalar, a: Schema, d: Scalar, b: Schema)
    requires RelabelScalar(Unspan, e) == RelabelScalar(Unspan, d) && RelabelSchema(Unspan, a) == RelabelSchema(Unspan, b)
    ensures ScalarOk(e, a) <==> ScalarOk(d, b)
    ensures e.typeRef == d.typeRef && e.multiplicity == d.multiplicity && e.nullability == d.nullability
    ensures e.origin.modelOrigins == d.origin.modelOrigins
    ensures forall id :: ReferencesColumn(e, id) <==> ReferencesColumn(d, id)
  {
    hide ScalarOk, RelabelSchema;
    UnspannedScalarOk(e, a);
    UnspannedScalarOk(d, b);
    assert Unspan(e.origin) == RelabelScalar(Unspan, e).origin == RelabelScalar(Unspan, d).origin == Unspan(d.origin);
    forall id ensures ReferencesColumn(e, id) <==> ReferencesColumn(d, id) {
      UnspannedReads(e, id);
      UnspannedReads(d, id);
    }
  }

  // ---------- scalars ----------

  ghost predicate BoundTwins(a: BoundColumn, b: BoundColumn) {
    RelabelColumn(Unspan, a.column) == RelabelColumn(Unspan, b.column) && a.local == b.local
  }

  ghost predicate RowTwins(a: seq<BoundColumn>, b: seq<BoundColumn>) {
    |a| == |b| && forall i :: 0 <= i < |a| ==> BoundTwins(a[i], b[i])
  }

  ghost predicate ElementTwins(a: BoundElement, b: BoundElement) {
    match (a, b)
    case (ColumnElement(x), ColumnElement(y)) => BoundTwins(x, y)
    case (RowElement(l, x), RowElement(m, y)) => l == m && RowTwins(x, y)
    case _ => false
  }

  ghost predicate BindingTwins(a: Bindings, b: Bindings) {
    |a| == |b| && forall i :: 0 <= i < |a| ==> a[i].0 == b[i].0 && ElementTwins(a[i].1, b[i].1)
  }

  ghost predicate ScalarTwins(a: LoweredScalar, b: LoweredScalar) {
    RelabelScalar(Unspan, a.expression) == RelabelScalar(Unspan, b.expression) && a.local == b.local
  }

  ghost predicate ValueTwins(a: LoweredValue, b: LoweredValue) {
    match (a, b)
    case (ScalarValue(x), ScalarValue(y)) => ScalarTwins(x, y)
    case (RowValue(l, x), RowValue(m, y)) => l == m && RowTwins(x, y)
    case _ => false
  }

  lemma {:induction false} LookupTwins(a: Bindings, b: Bindings, name: string)
    requires BindingTwins(a, b)
    ensures Lookup(a, name).Some? <==> Lookup(b, name).Some?
    ensures Lookup(a, name).Some? ==> ElementTwins(Lookup(a, name).value, Lookup(b, name).value)
  {
    hide ElementTwins;
    if a != [] {
      LookupTwins(a[1..], b[1..], name);
    }
  }

  lemma ReadTwins(s: SourceSpan, t: SourceSpan, a: BoundColumn, b: BoundColumn)
    requires BoundTwins(a, b)
    ensures ScalarTwins(ReadColumn(a, Merged(s, [a.column.origin], [])), ReadColumn(b, Merged(t, [b.column.origin], [])))
  {
    hide Merged;
    ColumnOrigins(a.column, b.column);
    MergedTwins(s, t, [a.column.origin], [b.column.origin], []);
  }

  lemma ColumnOrigins(a: Column, b: Column)
    requires RelabelColumn(Unspan, a) == RelabelColumn(Unspan, b)
    ensures a.origin.modelOrigins == b.origin.modelOrigins && a == b.(origin := a.origin)
  {
    assert RelabelColumn(Unspan, a).origin == Unspan(a.origin) && RelabelColumn(Unspan, b).origin == Unspan(b.origin);
  }

  lemma ScalarOrigins(a: Scalar, b: Scalar)
    requires RelabelScalar(Unspan, a) == RelabelScalar(Unspan, b)
    ensures a.origin.modelOrigins == b.origin.modelOrigins
    ensures a.typeRef == b.typeRef && a.multiplicity == b.multiplicity && a.nullability == b.nullability
  {
    assert RelabelScalar(Unspan, a).origin == Unspan(a.origin) && RelabelScalar(Unspan, b).origin == Unspan(b.origin);
  }

  lemma NavigationTwins(resolver: Resolver, s: SourceSpan, t: SourceSpan, a: LoweredScalar, b: LoweredScalar, name: string)
    requires ScalarTwins(a, b) && LowerNavigation(resolver, s, a, name).Success?
    ensures LowerNavigation(resolver, t, b, name).Success?
    ensures ScalarTwins(LowerNavigation(resolver, s, a, name).value, LowerNavigation(resolver, t, b, name).value)
  {
    hide Merged, ComposeNavigationMultiplicity, Navigate;
    ScalarOrigins(a.expression, b.expression);
    var outcome := Navigate(resolver, LocalValue(a.local.kind, a.expression.multiplicity), name);
    var m := outcome.target.member;
    var models := [OriginOfMember(m)] + if outcome.value.kind.ClassLocal? then [OriginOfClass(outcome.value.kind.cls)] else [];
    MergedTwins(s, t, [a.expression.origin], [b.expression.origin], models);
  }

  lemma RelationColumnTwins(resolver: Resolver, s: SourceSpan, t: SourceSpan, local: LocalValue, a: seq<BoundColumn>, b: seq<BoundColumn>, name: string)
    requires RowTwins(a, b) && LowerRelationColumn(resolver, s, local, a, name).Success?
    ensures LowerRelationColumn(resolver, t, local, b, name).Success?
    ensures ScalarTwins(LowerRelationColumn(resolver, s, local, a, name).value, LowerRelationColumn(resolver, t, local, b, name).value)
  {
    hide Merged, Navigate, ScalarTwins;
    var index := Navigate(resolver, local, name).target.column.id;
    assert BoundTwins(a[index], b[index]);
    ColumnOrigins(a[index].column, b[index].column);
    ReadTwins(s, t, a[index], b[index]);
  }

  lemma ComparisonTwins(s: SourceSpan, t: SourceSpan, a: LoweredScalar, b: LoweredScalar, c: LoweredScalar, d: LoweredScalar, negated: bool)
    requires ScalarTwins(a, c) && ScalarTwins(b, d) && LowerComparison(s, a, b, negated).Success?
    ensures LowerComparison(t, c, d, negated).Success?
    ensures ScalarTwins(LowerComparison(s, a, b, negated).value, LowerComparison(t, c, d, negated).value)
  {
    hide Merged;
    ScalarOrigins(a.expression, c.expression);
    ScalarOrigins(b.expression, d.expression);
    MergedTwins(s, t, [a.expression.origin, b.expression.origin], [c.expression.origin, d.expression.origin], []);
    var x, y := LowerComparison(s, a, b, negated).value.expression, LowerComparison(t, c, d, negated).value.expression;
    var e, f := if negated then x.operator.input else x, if negated then y.operator.input else y;
    assert RelabelScalar(Unspan, e) == RelabelScalar(Unspan, f);
  }

  lemma LiteralTwins(s: SourceSpan, t: SourceSpan, literal: ScalarLiteral, typeName: string)
    ensures ScalarTwins(LiteralScalar(s, literal, typeName), LiteralScalar(t, literal, typeName))
  {
  }

  lemma BinaryTwins(s: SourceSpan, t: SourceSpan, a: Lowering<LoweredValue>, b: Lowering<LoweredValue>, c: Lowering<LoweredValue>, d: Lowering<LoweredValue>,
                    negated: bool)
    requires LowerBinary(s, a, b, negated).Success?
    requires a.Success? ==> c.Success? && ValueTwins(a.value, c.value)
    requires b.Success? ==> d.Success? && ValueTwins(b.value, d.value)
    ensures LowerBinary(t, c, d, negated).Success? && ValueTwins(LowerBinary(s, a, b, negated).value, LowerBinary(t, c, d, negated).value)
  {
    hide LowerComparison, ScalarTwins;
    ComparisonTwins(s, t, a.value.scalar, b.value.scalar, c.value.scalar, d.value.scalar, negated);
  }

  lemma {:induction false} ValuesLowerAlike(resolver: Resolver, p: Site, q: Site, a: Bindings, b: Bindings, root: Root, members: seq<string>)
    requires BindingTwins(a, b) && LowerValue(resolver, p, a, root, members).Success?
    ensures LowerValue(resolver, q, b, root, members).Success?
    ensures ValueTwins(LowerValue(resolver, p, a, root, members).value, LowerValue(resolver, q, b, root, members).value)
    decreases root, |members|, 1
  {
    hide Merged, LowerNavigation, LowerRelationColumn, LowerBinary, Lookup, ScalarTwins, BindingTwins, ReadColumn, LiteralScalar;
    if members == [] {
      var m, n := p.Child(0), q.Child(0);
      match root
      case Variable(name) =>
        LookupTwins(a, b, name);
        var x, y := Lookup(a, name).value, Lookup(b, name).value;
        if x.ColumnElement? {
          ReadTwins(m.Span(), n.Span(), x.bound, y.bound);
        }
      case BooleanRoot(v) => LiteralTwins(m.Span(), n.Span(), BooleanLiteral(v), BOOLEAN_TYPE);
      case IntegerRoot(v) => LiteralTwins(m.Span(), n.Span(), IntegerLiteral(v), INTEGER_TYPE);
      case StringRoot(v) => LiteralTwins(m.Span(), n.Span(), StringLiteral(v), STRING_TYPE);
      case EqualRoot(left, right) => OperandsLowerAlike(resolver, m, n, a, b, left, right, false, root);
      case NotEqualRoot(left, right) => OperandsLowerAlike(resolver, m, n, a, b, left, right, true, root);
    } else {
      var earlier, name := members[..|members| - 1], members[|members| - 1];
      var s, t := p.Child(|members|).Span(), q.Child(|members|).Span();
      ValuesLowerAlike(resolver, p, q, a, b, root, earlier);
      var x, y := LowerValue(resolver, p, a, root, earlier).value, LowerValue(resolver, q, b, root, earlier).value;
      if x.ScalarValue? {
        NavigationTwins(resolver, s, t, x.scalar, y.scalar, name);
      } else {
        RelationColumnTwins(resolver, s, t, x.local, x.columns, y.columns, name);
      }
    }
  }

  lemma {:induction false} OperandsLowerAlike(resolver: Resolver, m: Site, n: Site, a: Bindings, b: Bindings, left: Expr, right: Expr, negated: bool, root: Root)
    requires left.root < root && right.root < root && BindingTwins(a, b)
    requires LowerBinary(m.Span(), LowerValue(resolver, m.Child(0), a, left.root, left.members),
                         LowerValue(resolver, m.Child(1), a, right.root, right.members), negated).Success?
    ensures var x := LowerBinary(m.Span(), LowerValue(resolver, m.Child(0), a, left.root, left.members),
                                 LowerValue(resolver, m.Child(1), a, right.root, right.members), negated);
            var y := LowerBinary(n.Span(), LowerValue(resolver, n.Child(0), b, left.root, left.members),
                                 LowerValue(resolver, n.Child(1), b, right.root, right.members), negated);
            y.Success? && ValueTwins(x.value, y.value)
    decreases root, 0, 0
  {
    hide LowerValue, LowerComparison, ScalarTwins, BindingTwins, ValueTwins;
    var x, y := LowerValue(resolver, m.Child(0), a, left.root, left.members), LowerValue(resolver, m.Child(1), a, right.root, right.members);
    if x.Success? {
      ValuesLowerAlike(resolver, m.Child(0), n.Child(0), a, b, left.root, left.members);
    }
    if y.Success? {
      ValuesLowerAlike(resolver, m.Child(1), n.Child(1), a, b, right.root, right.members);
    }
    BinaryTwins(m.Span(), n.Span(), x, y, LowerValue(resolver, n.Child(0), b, left.root, left.members),
                LowerValue(resolver, n.Child(1), b, right.root, right.members), negated);
  }

  lemma ScalarsLowerAlike(resolver: Resolver, p: Site, q: Site, a: Bindings, b: Bindings, x: Expr)
    requires BindingTwins(a, b) && LowerScalar(resolver, p, a, x).Success?
    ensures LowerScalar(resolver, q, b, x).Success?
    ensures ScalarTwins(LowerScalar(resolver, p, a, x).value, LowerScalar(resolver, q, b, x).value)
  {
    hide LowerValue, ScalarTwins, BindingTwins;
    ValuesLowerAlike(resolver, p, q, a, b, x.root, x.members);
  }

  // ---------- relations ----------

  ghost predicate StateTwins(a: RelationState, b: RelationState) {
    && Relabel(Unspan, a.expression) == Relabel(Unspan, b.expression)
    && (a.element.Some? <==> b.element.Some?)
    && (a.element.Some? ==> ElementTwins(a.element.value, b.element.value))
  }

  lemma RelationTwins(a: Relation, b: Relation)
    requires Relabel(Unspan, a) == Relabel(Unspan, b)
    ensures RelabelSchema(Unspan, a.schema) == RelabelSchema(Unspan, b.schema) && RelabelFacts(Unspan, a.facts) == RelabelFacts(Unspan, b.facts)
    ensures a.origin.modelOrigins == b.origin.modelOrigins
  {
    hide RelabelSchema, RelabelFacts;
    assert Relabel(Unspan, a).origin == Unspan(a.origin) && Relabel(Unspan, b).origin == Unspan(b.origin);
  }

  lemma OneBinding(name: string, a: BoundElement, b: BoundElement)
    requires ElementTwins(a, b)
    ensures BindingTwins([(name, a)], [(name, b)])
  {
  }

  lemma ExtentTwins(resolver: Resolver, s: SourceSpan, t: SourceSpan, path: string, next: u32)
    requires LowerAll(resolver, s, path, next).Success?
    ensures LowerAll(resolver, t, path, next).Success?
    ensures var a, b := LowerAll(resolver, s, path, next).value, LowerAll(resolver, t, path, next).value;
            StateTwins(a.state, b.state) && a.next == b.next
  {
    var a, b := LowerAll(resolver, s, path, next).value.state, LowerAll(resolver, t, path, next).value.state;
    var x, y := a.expression.schema, b.expression.schema;
    assert RelabelSchema(Unspan, x)[0] == RelabelSchema(Unspan, y)[0];
    assert RelabelSchema(Unspan, x) == RelabelSchema(Unspan, y);
  }

  lemma PredicateTwins(e: Scalar, a: Schema, d: Scalar, b: Schema)
    requires RelabelScalar(Unspan, e) == RelabelScalar(Unspan, d) && RelabelSchema(Unspan, a) == RelabelSchema(Unspan, b)
    ensures PredicateOk(e, a) <==> PredicateOk(d, b)
  {
    hide ScalarOk, RelabelSchema, RelabelScalar;
    ScalarOkTwins(e, a, d, b);
  }

  lemma FilterTwins(resolver: Resolver, p: Site, q: Site, a: RelationState, b: RelationState, parameter: string, body: Expr)
    requires StateTwins(a, b) && LowerFilter(resolver, p, a, parameter, body).Success?
    ensures LowerFilter(resolver, q, b, parameter, body).Success?
    ensures StateTwins(LowerFilter(resolver, p, a, parameter, body).value, LowerFilter(resolver, q, b, parameter, body).value)
  {
    hide Merged, LowerScalar, RelabelScalar, RelabelSchema, RelabelFacts, PredicateOk, KeysInScope, ElementTwins;
    OneBinding(parameter, a.element.value, b.element.value);
    var m, n := [(parameter, a.element.value)], [(parameter, b.element.value)];
    ScalarsLowerAlike(resolver, p.Child(0), q.Child(0), m, n, body);
    var e, d := LowerScalar(resolver, p.Child(0), m, body).value.expression, LowerScalar(resolver, q.Child(0), n, body).value.expression;
    RelationTwins(a.expression, b.expression);
    PredicateTwins(e, a.expression.schema, d, b.expression.schema);
    ScalarOrigins(e, d);
    ScopeTwins(a.expression.facts, b.expression.facts, a.expression.schema, b.expression.schema);
    MergedTwins(p.Span(), q.Span(), [a.expression.origin, e.origin], [b.expression.origin, d.origin], []);
  }

  lemma ScalarProjectTwins(s: SourceSpan, t: SourceSpan, a: RelationState, b: RelationState, name: string, x: LoweredScalar, y: LoweredScalar, next: u32)
    requires StateTwins(a, b) && ScalarTwins(x, y) && LowerScalarProject(s, a, name, x, next).Success?
    ensures LowerScalarProject(t, b, name, y, next).Success?
    ensures var c, d := LowerScalarProject(s, a, name, x, next).value, LowerScalarProject(t, b, name, y, next).value;
            StateTwins(c.state, d.state) && c.next == d.next
  {
    hide Merged, RelabelScalar, RelabelSchema, RelabelFacts, ScalarOk;
    var e, d := x.expression, y.expression;
    RelationTwins(a.expression, b.expression);
    ScalarOkTwins(e, a.expression.schema, d, b.expression.schema);
    MergedTwins(s, t, [a.expression.origin, e.origin], [b.expression.origin, d.origin], []);
    var l := LowerScalarProject(s, a, name, x, next).value.state.expression;
    assert l.operator.projections[0].expression == e && ScalarOk(e, a.expression.schema);
    assert ScalarOk(d, b.expression.schema);
    var r := LowerScalarProject(t, b, name, y, next);
    assert r.Success?;
    OneColumnTwins(l.schema, r.value.state.expression.schema);
    OneProjectionTwins(l.operator.projections, r.value.state.expression.operator.projections);
  }

  lemma OneColumnTwins(a: Schema, b: Schema)
    requires |a| == |b| == 1 && RelabelColumn(Unspan, a[0]) == RelabelColumn(Unspan, b[0])
    ensures RelabelSchema(Unspan, a) == RelabelSchema(Unspan, b)
  {
    assert RelabelSchema(Unspan, a)[0] == RelabelSchema(Unspan, b)[0];
  }

  lemma OneProjectionTwins(a: seq<Projection>, b: seq<Projection>)
    requires |a| == |b| == 1 && a[0].column == b[0].column && RelabelScalar(Unspan, a[0].expression) == RelabelScalar(Unspan, b[0].expression)
    ensures RelabelProjections(Unspan, a) == RelabelProjections(Unspan, b)
  {
    hide RelabelScalar;
    assert RelabelProjections(Unspan, a)[0] == RelabelProjections(Unspan, b)[0];
  }

  lemma MapTwins(resolver: Resolver, p: Site, q: Site, a: RelationState, b: RelationState, parameter: string, body: Expr, next: u32)
    requires StateTwins(a, b) && LowerMap(resolver, p, a, parameter, body, next).Success?
    ensures LowerMap(resolver, q, b, parameter, body, next).Success?
    ensures var c, d := LowerMap(resolver, p, a, parameter, body, next).value, LowerMap(resolver, q, b, parameter, body, next).value;
            StateTwins(c.state, d.state) && c.next == d.next
  {
    hide LowerScalar, LowerScalarProject, StateTwins, ScalarTwins;
    StateParts(a, b);
    OneBinding(parameter, a.element.value, b.element.value);
    var m, n := [(parameter, a.element.value)], [(parameter, b.element.value)];
    ScalarsLowerAlike(resolver, p.Child(0), q.Child(0), m, n, body);
    ScalarProjectTwins(p.Span(), q.Span(), a, b, MAP_VALUE_COLUMN_NAME, LowerScalar(resolver, p.Child(0), m, body).value,
                       LowerScalar(resolver, q.Child(0), n, body).value, next);
  }

  lemma StateParts(a: RelationState, b: RelationState)
    requires StateTwins(a, b)
    ensures Relabel(Unspan, a.expression) == Relabel(Unspan, b.expression) && (a.element.Some? <==> b.element.Some?)
    ensures a.element.Some? ==> ElementTwins(a.element.value, b.element.value)
    ensures BindsColumn(a) <==> BindsColumn(b)
    ensures BindsColumn(a) ==> BoundTwins(a.element.value.bound, b.element.value.bound)
  {
  }

  lemma BareReadTwins(a: BoundColumn, b: BoundColumn)
    requires BoundTwins(a, b)
    ensures ScalarTwins(ReadColumn(a, a.column.origin), ReadColumn(b, b.column.origin))
  {
    ColumnOrigins(a.column, b.column);
  }

  lemma PropertyTwins(resolver: Resolver, s: SourceSpan, t: SourceSpan, a: RelationState, b: RelationState, name: string, next: u32)
    requires StateTwins(a, b) && LowerProperty(resolver, s, a, name, next).Success?
    ensures LowerProperty(resolver, t, b, name, next).Success?
    ensures var c, d := LowerProperty(resolver, s, a, name, next).value, LowerProperty(resolver, t, b, name, next).value;
            StateTwins(c.state, d.state) && c.next == d.next
  {
    hide LowerNavigation, LowerScalarProject, StateTwins, ScalarTwins, ReadColumn;
    StateParts(a, b);
    var x, y := a.element.value.bound, b.element.value.bound;
    BareReadTwins(x, y);
    NavigationTwins(resolver, s, t, ReadColumn(x, x.column.origin), ReadColumn(y, y.column.origin), name);
    ScalarProjectTwins(s, t, a, b, name, LowerNavigation(resolver, s, ReadColumn(x, x.column.origin), name).value,
                       LowerNavigation(resolver, t, ReadColumn(y, y.column.origin), name).value, next);
  }

  ghost predicate SpecTwins(a: LoweredSpecs, b: LoweredSpecs) {
    && RowTwins(a.columns, b.columns) && a.next == b.next && |a.projections| == |b.projections| == |a.columns|
    && forall i :: 0 <= i < |a.projections| ==>
         a.projections[i].column == b.projections[i].column
         && RelabelScalar(Unspan, a.projections[i].expression) == RelabelScalar(Unspan, b.projections[i].expression)
  }

  lemma {:induction false} SpecsLowerAlike(resolver: Resolver, p: Site, q: Site, a: BoundElement, b: BoundElement, specs: seq<ColumnSpec>, next: u32)
    requires ElementTwins(a, b) && LowerSpecs(resolver, p, a, specs, next).Success?
    ensures LowerSpecs(resolver, q, b, specs, next).Success?
    ensures SpecTwins(LowerSpecs(resolver, p, a, specs, next).value, LowerSpecs(resolver, q, b, specs, next).value)
  {
    hide LowerScalar, Merged, RelabelScalar, ElementTwins;
    if specs != [] {
      var n := |specs| - 1;
      var spec := specs[n];
      SpecsLowerAlike(resolver, p, q, a, b, specs[..n], next);
      OneBinding(spec.parameter, a, b);
      ScalarsLowerAlike(resolver, p.Child(n).Child(0), q.Child(n).Child(0), [(spec.parameter, a)], [(spec.parameter, b)], spec.body);
      var x := LowerScalar(resolver, p.Child(n).Child(0), [(spec.parameter, a)], spec.body).value.expression;
      var y := LowerScalar(resolver, q.Child(n).Child(0), [(spec.parameter, b)], spec.body).value.expression;
      ScalarOrigins(x, y);
      MergedTwins(p.Child(n).Span(), q.Child(n).Span(), [x.origin], [y.origin], []);
    }
  }

  lemma RowSchemaTwins(a: seq<BoundColumn>, b: seq<BoundColumn>)
    requires RowTwins(a, b)
    ensures RelabelSchema(Unspan, ColumnsOf(a)) == RelabelSchema(Unspan, ColumnsOf(b))
    ensures |a| <= U32_LIMIT ==> RowColumnsOf(a) == RowColumnsOf(b)
    ensures NamesAreUnique(ColumnsOf(a)) <==> NamesAreUnique(ColumnsOf(b))
  {
    forall i | 0 <= i < |a|
      ensures RelabelColumn(Unspan, ColumnsOf(a)[i]) == RelabelColumn(Unspan, ColumnsOf(b)[i])
      ensures a[i].column == b[i].column.(origin := a[i].column.origin) {
      assert BoundTwins(a[i], b[i]);
      ColumnOrigins(a[i].column, b[i].column);
    }
    assert forall i :: 0 <= i < |a| ==> ColumnsOf(a)[i].name == ColumnsOf(b)[i].name;
    if |a| <= U32_LIMIT {
      forall i | 0 <= i < |a| ensures RowColumnsOf(a)[i] == RowColumnsOf(b)[i] {
      }
    }
  }

  lemma ProjectionTwins(a: seq<Projection>, b: seq<Projection>, s: Schema, t: Schema, x: Schema, y: Schema)
    requires |a| == |b| == |s| == |t| && RelabelSchema(Unspan, s) == RelabelSchema(Unspan, t) && RelabelSchema(Unspan, x) == RelabelSchema(Unspan, y)
    requires forall i :: 0 <= i < |a| ==> a[i].column == b[i].column && RelabelScalar(Unspan, a[i].expression) == RelabelScalar(Unspan, b[i].expression)
    requires ProjectionColumnsFit(a, s)
    requires forall i :: 0 <= i < |s| ==> ScalarOk(a[i].expression, x) && SameColumnMetadata(a[i].expression, s[i])
    ensures ProjectionColumnsFit(b, t)
    ensures forall i :: 0 <= i < |t| ==> ScalarOk(b[i].expression, y) && SameColumnMetadata(b[i].expression, t[i])
    ensures RelabelProjections(Unspan, a) == RelabelProjections(Unspan, b)
    ensures OriginTwins(ProjectionOrigins(a), ProjectionOrigins(b))
  {
    hide RelabelScalar, RelabelSchema, ScalarOk;
    SchemaTwins(s, t);
    forall i | 0 <= i < |a|
      ensures ScalarOk(b[i].expression, y) && SameColumnMetadata(b[i].expression, t[i])
      ensures ProjectionOrigins(a)[i].modelOrigins == ProjectionOrigins(b)[i].modelOrigins
      ensures RelabelProjections(Unspan, a)[i] == RelabelProjections(Unspan, b)[i] {
      ScalarOkTwins(a[i].expression, x, b[i].expression, y);
    }
  }

  lemma RelationProjectTwins(resolver: Resolver, p: Site, q: Site, a: RelationState, b: RelationState, specs: seq<ColumnSpec>, next: u32)
    requires StateTwins(a, b) && LowerRelationProject(resolver, p, a, specs, next).Success?
    ensures LowerRelationProject(resolver, q, b, specs, next).Success?
    ensures var c, d := LowerRelationProject(resolver, p, a, specs, next).value, LowerRelationProject(resolver, q, b, specs, next).value;
            StateTwins(c.state, d.state) && c.next == d.next
  {
    hide Merged, LowerSpecs, RelabelScalar, RelabelSchema, RelabelProjections, RelabelFacts, ScalarOk, AliasesAreUnique, ProjectionColumnsFit, NamesAreUnique, RowColumnsOf,
         BoundTwins, DistinctIds, ColumnsOf, ProjectionOrigins, SameColumnMetadata;
    StateParts(a, b);
    RelationTwins(a.expression, b.expression);
    SpecsLowerAlike(resolver, p, q, a.element.value, b.element.value, specs, next);
    var x, y := LowerSpecs(resolver, p, a.element.value, specs, next).value, LowerSpecs(resolver, q, b.element.value, specs, next).value;
    RowSchemaTwins(x.columns, y.columns);
    var s, t := ColumnsOf(x.columns), ColumnsOf(y.columns);
    SchemaTwins(s, t);
    DistinctTwins(s, t);
    ProjectionsFitOne(x.projections, s);
    ProjectionTwins(x.projections, y.projections, s, t, a.expression.schema, b.expression.schema);
    var o, u := [a.expression.origin] + ProjectionOrigins(x.projections), [b.expression.origin] + ProjectionOrigins(y.projections);
    assert OriginTwins(o, u);
    MergedTwins(p.Span(), q.Span(), o, u, []);
  }

  lemma ProjectionsFitOne(ps: seq<Projection>, schema: Schema)
    ensures ProjectionColumnsFit(ps, schema) ==> |ps| == |schema|
  {
  }

  lemma DistinctStepTwins(s: SourceSpan, t: SourceSpan, a: RelationState, b: RelationState)
    requires StateTwins(a, b) && LowerDistinct(s, a).Success?
    ensures LowerDistinct(t, b).Success? && StateTwins(LowerDistinct(s, a).value, LowerDistinct(t, b).value)
  {
    hide Merged, RelabelSchema, ElementTwins;
    RelationTwins(a.expression, b.expression);
    MergedTwins(s, t, [a.expression.origin], [b.expression.origin], []);
  }

  lemma {:induction false} NamedTwins(a: Schema, b: Schema, name: string)
    requires RelabelSchema(Unspan, a) == RelabelSchema(Unspan, b)
    ensures |ColumnsNamed(a, name)| == |ColumnsNamed(b, name)|
    ensures RelabelSchema(Unspan, ColumnsNamed(a, name)) == RelabelSchema(Unspan, ColumnsNamed(b, name))
  {
    SchemaTwins(a, b);
    if a != [] {
      assert RelabelSchema(Unspan, a)[1..] == RelabelSchema(Unspan, a[1..]);
      assert RelabelSchema(Unspan, b)[1..] == RelabelSchema(Unspan, b[1..]);
      NamedTwins(a[1..], b[1..], name);
      var x, y := ColumnsNamed(a[1..], name), ColumnsNamed(b[1..], name);
      SchemaTwins(x, y);
      forall i | 0 <= i < |ColumnsNamed(a, name)|
        ensures RelabelColumn(Unspan, ColumnsNamed(a, name)[i]) == RelabelColumn(Unspan, ColumnsNamed(b, name)[i]) {
      }
    }
  }

  lemma {:induction false} SelectorsTwins(names: seq<string>, a: Schema, b: Schema)
    requires RelabelSchema(Unspan, a) == RelabelSchema(Unspan, b)
    ensures ResolveSelectors(names, a) == ResolveSelectors(names, b)
    decreases |names|
  {
    hide RelabelSchema, ColumnsNamed;
    if names != [] {
      SelectorsTwins(names[..|names| - 1], a, b);
      var name := names[|names| - 1];
      NamedTwins(a, b, name);
      SchemaTwins(ColumnsNamed(a, name), ColumnsNamed(b, name));
    }
  }

  lemma {:induction false} SelectedTwins(ids: seq<ColumnId>, a: Schema, b: Schema)
    requires RelabelSchema(Unspan, a) == RelabelSchema(Unspan, b)
    ensures RelabelSchema(Unspan, Selected(ids, a)) == RelabelSchema(Unspan, Selected(ids, b))
    decreases |ids|
  {
    hide FindColumn;
    if ids != [] {
      var n := |ids| - 1;
      FindsTwin(a, ids[n]);
      FindsTwin(b, ids[n]);
      SelectedTwins(ids[..n], a, b);
      var x, y := Selected(ids, a), Selected(ids, b);
      SchemaTwins(Selected(ids[..n], a), Selected(ids[..n], b));
      assert |x| == |y|;
      forall i | 0 <= i < |x| ensures RelabelColumn(Unspan, x[i]) == RelabelColumn(Unspan, y[i]) {
      }
    }
  }

  lemma {:induction false} BoundIdTwins(a: seq<BoundColumn>, b: seq<BoundColumn>, id: ColumnId)
    requires RowTwins(a, b)
    ensures BoundWithId(a, id).Some? <==> BoundWithId(b, id).Some?
    ensures BoundWithId(a, id).Some? ==> BoundTwins(BoundWithId(a, id).value, BoundWithId(b, id).value)
  {
    if a != [] {
      ColumnOrigins(a[0].column, b[0].column);
      BoundIdTwins(a[1..], b[1..], id);
    }
  }

  lemma {:induction false} BoundSelectionTwins(a: seq<BoundColumn>, b: seq<BoundColumn>, ids: seq<ColumnId>)
    requires RowTwins(a, b)
    ensures BoundSelection(a, ids).Some? <==> BoundSelection(b, ids).Some?
    ensures BoundSelection(a, ids).Some? ==> RowTwins(BoundSelection(a, ids).value, BoundSelection(b, ids).value)
    decreases |ids|
  {
    hide BoundTwins, BoundWithId;
    if ids != [] {
      BoundIdTwins(a, b, ids[0]);
      BoundSelectionTwins(a, b, ids[1..]);
    }
  }

  lemma SelectedElementTwins(a: Option<BoundElement>, b: Option<BoundElement>, ids: seq<ColumnId>)
    requires (a.Some? <==> b.Some?) && (a.Some? ==> ElementTwins(a.value, b.value)) && SelectedElement(a, ids).Success?
    ensures SelectedElement(b, ids).Success?
    ensures var x, y := SelectedElement(a, ids).value, SelectedElement(b, ids).value;
            (x.Some? <==> y.Some?) && (x.Some? ==> ElementTwins(x.value, y.value))
  {
    hide BoundSelection, NamesAreUnique, RowColumnsOf;
    if a.Some? && a.value.ColumnElement? {
      ColumnOrigins(a.value.bound.column, b.value.bound.column);
    }
    if a.Some? && a.value.RowElement? {
      BoundSelectionTwins(a.value.columns, b.value.columns, ids);
      RowSchemaTwins(BoundSelection(a.value.columns, ids).value, BoundSelection(b.value.columns, ids).value);
    }
  }

  lemma DistinctOnTwins(s: SourceSpan, t: SourceSpan, a: RelationState, b: RelationState, names: seq<string>)
    requires StateTwins(a, b) && LowerDistinctOn(s, a, names).Success?
    ensures LowerDistinctOn(t, b, names).Success? && StateTwins(LowerDistinctOn(s, a, names).value, LowerDistinctOn(t, b, names).value)
  {
    hide Merged, RelabelSchema, ResolveSelectors, Selected, SelectedElement, DistinctIds, ElementTwins, FindColumn;
    RelationTwins(a.expression, b.expression);
    var x, y := a.expression.schema, b.expression.schema;
    SelectorsTwins(names, x, y);
    var ids := ResolveSelectors(names, x).value;
    SelectedTwins(ids, x, y);
    DistinctTwins(Selected(ids, x), Selected(ids, y));
    SelectedElementTwins(a.element, b.element, ids);
    MergedTwins(s, t, [a.expression.origin], [b.expression.origin], []);
    forall i | 0 <= i < |ids| ensures FindColumn(x, ids[i]).Some? <==> FindColumn(y, ids[i]).Some? {
      FindsTwin(x, ids[i]);
      FindsTwin(y, ids[i]);
    }
  }

  lemma {:induction false} KeysLowerAlike(p: Site, q: Site, keys: seq<KeySpec>, a: Schema, b: Schema, x: IrOrigin, y: IrOrigin)
    requires RelabelSchema(Unspan, a) == RelabelSchema(Unspan, b) && x.modelOrigins == y.modelOrigins && LowerKeys(p, keys, a, x).Success?
    ensures LowerKeys(q, keys, b, y).Success?
    ensures var k, l := LowerKeys(p, keys, a, x).value, LowerKeys(q, keys, b, y).value;
            |k| == |l| && forall i :: 0 <= i < |k| ==>
              k[i].column == l[i].column && k[i].direction == l[i].direction && k[i].origin.modelOrigins == l[i].origin.modelOrigins
    decreases |keys|
  {
    hide RelabelSchema, ColumnsNamed, Merged;
    if keys != [] {
      var n := |keys| - 1;
      KeysLowerAlike(p, q, keys[..n], a, b, x, y);
      NamedTwins(a, b, keys[n].column);
      var c, d := ColumnsNamed(a, keys[n].column), ColumnsNamed(b, keys[n].column);
      SchemaTwins(c, d);
      MergedTwins(p.Child(n).Span(), q.Child(n).Span(), [x, c[0].origin], [y, d[0].origin], []);
    }
  }

  lemma SortTwins(p: Site, q: Site, a: RelationState, b: RelationState, keys: seq<KeySpec>)
    requires StateTwins(a, b) && LowerSort(p, a, keys).Success?
    ensures LowerSort(q, b, keys).Success? && StateTwins(LowerSort(p, a, keys).value, LowerSort(q, b, keys).value)
  {
    hide Merged, RelabelSchema, RelabelFacts, LowerKeys, ElementTwins, FindColumn, KeysInScope;
    RelationTwins(a.expression, b.expression);
    var x, y := a.expression, b.expression;
    KeysLowerAlike(p, q, keys, x.schema, y.schema, x.origin, y.origin);
    var k, l := LowerKeys(p, keys, x.schema, x.origin).value, LowerKeys(q, keys, y.schema, y.origin).value;
    ScopeTwins(x.facts, y.facts, x.schema, y.schema);
    forall i | 0 <= i < |k| ensures FindColumn(x.schema, k[i].column).Some? <==> FindColumn(y.schema, l[i].column).Some? {
      FindsTwin(x.schema, k[i].column);
      FindsTwin(y.schema, l[i].column);
    }
    MergedTwins(p.Span(), q.Span(), [x.origin] + KeyOrigins(k), [y.origin] + KeyOrigins(l), []);
    assert RelabelKeys(Unspan, k) == RelabelKeys(Unspan, l);
  }

  lemma JoinedTwins(resolver: Resolver, p: Site, q: Site, a: RelationState, b: RelationState, c: RelationState, d: RelationState, l: string, r: string, body: Expr)
    requires StateTwins(a, c) && StateTwins(b, d) && BindsColumn(a) && BindsColumn(c) && LowerJoined(resolver, p, a, b, l, r, body).Success?
    ensures LowerJoined(resolver, q, c, d, l, r, body).Success?
    ensures StateTwins(LowerJoined(resolver, p, a, b, l, r, body).value, LowerJoined(resolver, q, c, d, l, r, body).value)
  {
    hide Merged, LowerScalar, RelabelScalar, RelabelSchema, RelabelFacts, PredicateOk, DistinctIds, ReferencesColumn, BoundTwins, StateTwins;
    StateParts(a, c);
    StateParts(b, d);
    RelationTwins(a.expression, c.expression);
    RelationTwins(b.expression, d.expression);
    var m, n := [(l, a.element.value), (r, b.element.value)], [(l, c.element.value), (r, d.element.value)];
    ScalarsLowerAlike(resolver, p.Child(0), q.Child(0), m, n, body);
    var e, f := LowerScalar(resolver, p.Child(0), m, body).value.expression, LowerScalar(resolver, q.Child(0), n, body).value.expression;
    BoundIds(a.element.value.bound, c.element.value.bound);
    BoundIds(b.element.value.bound, d.element.value.bound);
    var s, t := a.expression.schema + b.expression.schema, c.expression.schema + d.expression.schema;
    JoinedSchemaTwins(a.expression.schema, b.expression.schema, c.expression.schema, d.expression.schema);
    DistinctTwins(s, t);
    ScalarOkTwins(e, s, f, t);
    PredicateTwins(e, s, f, t);
    MergedTwins(p.Span(), q.Span(), [a.expression.origin, b.expression.origin, e.origin], [c.expression.origin, d.expression.origin, f.origin], []);
    var x := LowerJoined(resolver, p, a, b, l, r, body).value;
    var y := LowerJoined(resolver, q, c, d, l, r, body);
    assert y.Success?;
    assert Relabel(Unspan, x.expression) == Relabel(Unspan, y.value.expression);
    NoElements(x, y.value);
  }

  lemma NoElements(a: RelationState, b: RelationState)
    requires Relabel(Unspan, a.expression) == Relabel(Unspan, b.expression) && a.element.None? && b.element.None?
    ensures StateTwins(a, b)
  {
  }

  lemma BoundIds(a: BoundColumn, b: BoundColumn)
    requires BoundTwins(a, b)
    ensures a.column.id == b.column.id
  {
    ColumnOrigins(a.column, b.column);
  }

  lemma JoinedSchemaTwins(a: Schema, b: Schema, c: Schema, d: Schema)
    requires RelabelSchema(Unspan, a) == RelabelSchema(Unspan, c) && RelabelSchema(Unspan, b) == RelabelSchema(Unspan, d)
    ensures RelabelSchema(Unspan, a + b) == RelabelSchema(Unspan, c + d)
  {
    assert RelabelSchema(Unspan, a + b) == RelabelSchema(Unspan, a) + RelabelSchema(Unspan, b);
    assert RelabelSchema(Unspan, c + d) == RelabelSchema(Unspan, c) + RelabelSchema(Unspan, d);
  }

  // ---------- whole queries ----------

  ghost predicate AllocatedTwins(a: Allocated, b: Allocated) {
    StateTwins(a.state, b.state) && a.next == b.next
  }

  lemma {:induction false} StepsAlike(resolver: Resolver, p: Site, q: Site, a: Allocated, b: Allocated, step: Step)
    requires AllocatedTwins(a, b) && LowerStep(resolver, p, a, step).Success?
    ensures LowerStep(resolver, q, b, step).Success? && AllocatedTwins(LowerStep(resolver, p, a, step).value, LowerStep(resolver, q, b, step).value)
    decreases step, 0
  {
    hide LowerFilter, LowerProperty, LowerMap, LowerRelationProject, LowerDistinct, LowerDistinctOn, LowerSort, LowerJoined, LowerQuery, StateTwins;
    match step
    case PropertyStep(name) => PropertyTwins(resolver, p.Span(), q.Span(), a.state, b.state, name, a.next);
    case FilterStep(parameter, body) => FilterTwins(resolver, p, q, a.state, b.state, parameter, body);
    case MapStep(parameter, body) => MapTwins(resolver, p, q, a.state, b.state, parameter, body, a.next);
    case ProjectStep(specs) => RelationProjectTwins(resolver, p, q, a.state, b.state, specs, a.next);
    case JoinStep(right, _, l, r, condition) =>
      StateParts(a.state, b.state);
      QueriesLowerAlike(resolver, p.Child(1), q.Child(1), right, a.next);
      JoinedTwins(resolver, p, q, a.state, LowerQuery(resolver, p.Child(1), right, a.next).value.state, b.state,
                  LowerQuery(resolver, q.Child(1), right, b.next).value.state, l, r, condition);
    case DistinctStep => DistinctStepTwins(p.Span(), q.Span(), a.state, b.state);
    case DistinctOnStep(names) => DistinctOnTwins(p.Span(), q.Span(), a.state, b.state, names);
    case SortStep(keys) => SortTwins(p, q, a.state, b.state, keys);
  }

  lemma {:induction false} PipelinesAlike(resolver: Resolver, p: Site, q: Site, path: string, steps: seq<Step>, next: u32)
    requires LowerSteps(resolver, p, path, steps, next).Success?
    ensures LowerSteps(resolver, q, path, steps, next).Success?
    ensures AllocatedTwins(LowerSteps(resolver, p, path, steps, next).value, LowerSteps(resolver, q, path, steps, next).value)
    decreases steps, 1
  {
    hide LowerStep, LowerAll, StateTwins;
    if steps == [] {
      ExtentTwins(resolver, p.Child(0).Span(), q.Child(0).Span(), path, next);
    } else {
      var earlier := steps[..|steps| - 1];
      PipelinesAlike(resolver, p, q, path, earlier, next);
      StepsAlike(resolver, p.Child(|steps|), q.Child(|steps|), LowerSteps(resolver, p, path, earlier, next).value,
                 LowerSteps(resolver, q, path, earlier, next).value, steps[|steps| - 1]);
    }
  }

  /** A query lowers wherever it stands or nowhere, and to the same relation but for source spans. */
  lemma {:induction false} QueriesLowerAlike(resolver: Resolver, p: Site, q: Site, query: Query, next: u32)
    requires LowerQuery(resolver, p, query, next).Success?
    ensures LowerQuery(resolver, q, query, next).Success?
    ensures AllocatedTwins(LowerQuery(resolver, p, query, next).value, LowerQuery(resolver, q, query, next).value)
    decreases query, 2
  {
    hide AllocatedTwins;
    PipelinesAlike(resolver, p, q, query.path, query.steps, next);
  }

  // ---------- comparing the two ----------

  lemma {:induction false} StripUnspanned(e: Scalar)
    ensures RelabelScalar(Blank, RelabelScalar(Unspan, e)) == RelabelScalar(Blank, e)
    decreases e
  {
    match e.operator
    case ColumnRead(_) =>
    case Literal(_) =>
    case Navigation(input, _) => StripUnspanned(input);
    case Equal(left, right) =>
      StripUnspanned(left);
      StripUnspanned(right);
    case Not(input) => StripUnspanned(input);
  }

  lemma KeysForget(keys: seq<SortKey>)
    ensures RelabelKeys(Blank, RelabelKeys(Unspan, keys)) == RelabelKeys(Blank, keys)
  {
    var x, y := RelabelKeys(Blank, RelabelKeys(Unspan, keys)), RelabelKeys(Blank, keys);
    forall i | 0 <= i < |keys| ensures x[i] == y[i] {
    }
  }

  /** Blanking every origin undoes whatever was done to them. */
  lemma {:induction false} StripForgets(r: Relation)
    ensures Strip(Relabel(Unspan, r)) == Strip(r)
    decreases r
  {
    hide RelabelScalar;
    var u := Relabel(Unspan, r);
    assert RelabelSchema(Blank, u.schema) == RelabelSchema(Blank, r.schema);
    match r.operator
    case Scan(_) =>
    case Filter(input, condition) =>
      StripForgets(input);
      StripUnspanned(condition);
    case Project(input, ps, _) =>
      StripForgets(input);
      forall i | 0 <= i < |ps|
        ensures RelabelScalar(Blank, RelabelScalar(Unspan, ps[i].expression)) == RelabelScalar(Blank, ps[i].expression) {
        StripUnspanned(ps[i].expression);
      }
      assert RelabelProjections(Blank, RelabelProjections(Unspan, ps)) == RelabelProjections(Blank, ps);
    case Join(_, left, right, condition) =>
      StripForgets(left);
      StripForgets(right);
      StripUnspanned(condition);
    case Distinct(input) => StripForgets(input);
    case DistinctOn(input, _) => StripForgets(input);
    case Sort(input, keys) =>
      StripForgets(input);
      KeysForget(keys);
  }

  lemma {:induction false} ErasureForgetsScalar(e: Scalar, ids: seq<ColumnId>, base: nat)
    ensures EraseScalar(RelabelScalar(Blank, e), ids, base) == EraseScalar(e, ids, base)
    decreases e
  {
    match e.operator
    case ColumnRead(_) =>
    case Literal(_) =>
    case Navigation(input, _) => ErasureForgetsScalar(input, ids, base);
    case Equal(left, right) =>
      ErasureForgetsScalar(left, ids, base);
      ErasureForgetsScalar(right, ids, base);
    case Not(input) => ErasureForgetsScalar(input, ids, base);
  }

  /** The equivalence key does not see origins. */
  lemma {:induction false} ErasureForgets(r: Relation, base: nat)
    ensures Erase(Strip(r), base) == Erase(r, base)
    decreases r
  {
    hide RelabelScalar, EraseScalar, ErasedId;
    var s := Strip(r);
    var ids := Ids(r.schema);
    assert Ids(s.schema) == ids;
    assert EraseColumns(s.schema, ids, base) == EraseColumns(r.schema, ids, base);
    match r.operator
    case Scan(_) =>
    case Filter(input, condition) =>
      ErasureForgets(input, base);
      SameIds(input);
      ErasureForgetsScalar(condition, Ids(input.schema), base);
    case Project(input, ps, _) =>
      ErasureForgets(input, base);
      SameIds(input);
      forall i | 0 <= i < |ps|
        ensures EraseScalar(RelabelScalar(Blank, ps[i].expression), Ids(input.schema), base) == EraseScalar(ps[i].expression, Ids(input.schema), base) {
        ErasureForgetsScalar(ps[i].expression, Ids(input.schema), base);
      }
      assert EraseProjections(RelabelProjections(Blank, ps), ids, Ids(input.schema), base) == EraseProjections(ps, ids, Ids(input.schema), base);
    case Join(_, left, right, condition) =>
      SameIds(left);
      SameIds(right);
      ErasureForgets(left, base);
      ErasureForgets(right, base + |left.schema|);
      ErasureForgetsScalar(condition, Ids(left.schema) + Ids(right.schema), base);
    case Distinct(input) => ErasureForgets(input, base);
    case DistinctOn(input, _) =>
      ErasureForgets(input, base);
      SameIds(input);
    case Sort(input, keys) =>
      ErasureForgets(input, base);
      SameIds(input);
      assert EraseSortKeys(RelabelKeys(Blank, keys), Ids(input.schema), base) == EraseSortKeys(keys, Ids(input.schema), base);
  }

  lemma SameIds(r: Relation)
    ensures Ids(Strip(r).schema) == Ids(r.schema) && |Strip(r).schema| == |r.schema|
  {
  }

  /** One query lowered at two places: where origins hold nothing back at either,
      comparison finds the two equivalent within the budgets; where they hold
      something back at one place only, it does not. */
  lemma OneQueryTwoSites(resolver: Resolver, p: Site, q: Site, query: Query, budget: nat)
    requires LowerQuery(resolver, p, query, 0).Success?
    ensures LowerQuery(resolver, q, query, 0).Success?
    ensures var a, b := LowerQuery(resolver, p, query, 0).value.state.expression, LowerQuery(resolver, q, query, 0).value.state.expression;
            && Strip(a) == Strip(b) && Count(a) == Count(b) && Height(a) == Height(b)
            && (!HeldByOrigins(a) && !HeldByOrigins(b) ==>
                  (Comparison.Compare(a, b, budget) == Comparison.Equivalent <==>
                   Count(a) <= budget && Height(a) <= MAX_RELATIONAL_RECURSION_DEPTH))
            && (HeldByOrigins(a) != HeldByOrigins(b) ==> Comparison.Compare(a, b, budget) != Comparison.Equivalent)
  {
    hide LowerQuery, Relabel, Erase, Normal, Count, Height, Operators, HeldByOrigins, Valid, Comparison.Compare, ElementFits, IdsWithin, BindingOf, Compares;
    QueriesLowerAlike(resolver, p, q, query, 0);
    LoweringKeepsInvariant(resolver, p, query, 0);
    LoweringKeepsInvariant(resolver, q, query, 0);
    var a, b := LowerQuery(resolver, p, query, 0).value.state.expression, LowerQuery(resolver, q, query, 0).value.state.expression;
    StripForgets(a);
    StripForgets(b);
    ErasureForgets(a, 0);
    ErasureForgets(b, 0);
    RoundTrip.SameShape(a, b);
    Comparison.EquivalentExactly(a, b, budget);
    NormalFormsAside(a, b);
  }

  /** Two valid relations that differ in origins only: how their normal forms stand to each other. */
  lemma NormalFormsAside(a: Relation, b: Relation)
    requires Valid(a) && Valid(b) && Strip(a) == Strip(b)
    ensures !HeldByOrigins(a) && !HeldByOrigins(b) ==> Erase(Normal(a), 0) == Erase(Normal(b), 0)
    ensures HeldByOrigins(a) != HeldByOrigins(b) ==> Erase(Normal(a), 0) != Erase(Normal(b), 0)
  {
    hide Relabel, Erase, Normal, Operators, HeldByOrigins, Valid;
    AllCompare(a);
    AllCompare(b);
    SameOperators(Blank, Normal(a));
    SameOperators(Blank, Normal(b));
    ErasureForgets(Normal(a), 0);
    ErasureForgets(Normal(b), 0);
    if Erase(Normal(a), 0) == Erase(Normal(b), 0) {
      RoundTrip.SameShape(Normal(a), Normal(b));
    }
  }
}
