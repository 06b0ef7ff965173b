/** Lowering preserves meaning: the lowered expression returns the rows of the
    surface query it was lowered from. */
module LoweringMeaning {
  import opened Basics
  import opened Relational
  import opened Semantics
  import opened Surface
  import opened SurfaceSemantics
  import opened Canonical
  import opened Emission
  import opened Lowering
  import opened LoweringInvariant

  /** The model a surface query is read against, as the resolver sees it. */
  function ModelOf(resolver: Resolver): Model {
    Model(
      path => match resolver.classAt(path) case Found(c) => Some(c) case _ => None,
      (t: TypeRef, name: string) =>
        if t.arguments != [] then None
        else match resolver.memberAt(t.rawType, name) case Found(m) => Some(m) case _ => None)
  }

  /** A class is found under its own path, and a member under its own name. */
  ghost predicate KeepsNames(resolver: Resolver) {
    && (forall path :: resolver.classAt(path).Found? ==> resolver.classAt(path).value.path == path)
    && (forall path, name :: resolver.memberAt(path, name).Found? ==> resolver.memberAt(path, name).value.name == name)
  }

  // ---------- scalars ----------

  /** The core expression computes the scalar on every row. */
  ghost predicate Computes(db: Database, core: Core, schema: Schema, e: Scalar) {
    forall row :: RunCore(db, row, core) == Eval(db, Ids(schema), row, e)
  }

  /** Each bound name stands in scope for the columns lowering bound it to. */
  ghost predicate BindingsRead(scope: Scope, bindings: Bindings, schema: Schema) {
    forall name :: Lookup(bindings, name).Some? ==> name in scope && ElementReads(scope[name], Lookup(bindings, name).value, schema)
  }

  ghost predicate ElementReads(place: (Shape, nat), element: BoundElement, schema: Schema) {
    match element
    case ColumnElement(b) => place.0 == ElementShape(b.column.typeRef) && Position(Ids(schema), b.column.id) == Some(place.1)
    case RowElement(local, columns) => IsRowOf(local, columns) && ColumnsOf(columns) == schema && place == (RowShape(NamedTypes(schema)), 0)
  }

  /** The surface expression resolves to a computation of the lowered scalar,
      whose members the model finds again. */
  ghost predicate Elaborates(db: Database, model: Model, scope: Scope, schema: Schema, root: Root, members: seq<string>, e: Scalar) {
    var r := Elaborate(model, scope, root, members);
    r.Some? && r.value.1 == e.typeRef && Computes(db, r.value.0, schema, e) && ScalarResolved(model, e)
  }

  lemma {:induction false} RowColumnFound(columns: seq<RowColumn>, name: string)
    ensures RowColumnNamed(columns, name).Some? ==> RowColumnNamed(columns, name).value in columns
  {
    if columns != [] {
      RowColumnFound(columns[1..], name);
    }
  }

  lemma VariableMeaning(db: Database, model: Model, bindings: Bindings, scope: Scope, schema: Schema, name: string, origin: IrOrigin)
    requires BindingsRead(scope, bindings, schema) && Lookup(bindings, name).Some? && Lookup(bindings, name).value.ColumnElement?
    ensures var b := Lookup(bindings, name).value.bound;
            Elaborates(db, model, scope, schema, Variable(name), [], ReadColumn(b, origin).expression)
  {
  }

  lemma NavigationMeaning(db: Database, resolver: Resolver, span: SourceSpan, scope: Scope, schema: Schema, root: Root, members: seq<string>,
                          input: LoweredScalar, name: string)
    requires KeepsNames(resolver) && LowerNavigation(resolver, span, input, name).Success?
    requires ScalarOk(LowerNavigation(resolver, span, input, name).value.expression, schema)
    requires Elaborates(db, ModelOf(resolver), scope, schema, root, members, input.expression)
    requires !(members == [] && root.Variable? && root.name in scope && scope[root.name].0.RowShape?)
    ensures Elaborates(db, ModelOf(resolver), scope, schema, root, members + [name], LowerNavigation(resolver, span, input, name).value.expression)
  {
    var e := LowerNavigation(resolver, span, input, name).value.expression;
    assert (members + [name])[..|members|] == members;
    assert ReceiverMatches(input.expression, e.operator.navigation.receiver);
  }

  lemma RelationColumnMeaning(db: Database, resolver: Resolver, span: SourceSpan, bindings: Bindings, scope: Scope, schema: Schema,
                              variable: string, name: string)
    requires BindingsRead(scope, bindings, schema) && DistinctIds(schema)
    requires Lookup(bindings, variable).Some? && Lookup(bindings, variable).value.RowElement?
    requires var b := Lookup(bindings, variable).value; LowerRelationColumn(resolver, span, b.local, b.columns, name).Success?
    ensures var b := Lookup(bindings, variable).value;
            Elaborates(db, ModelOf(resolver), scope, schema, Variable(variable), [name],
                       LowerRelationColumn(resolver, span, b.local, b.columns, name).value.expression)
  {
    hide NamesAreUnique, DistinctIds, PlaceOfName, Position;
    var b := Lookup(bindings, variable).value;
    RowColumnFound(b.local.kind.columns, name);
    var index := RowColumnNamed(b.local.kind.columns, name).value.id;
    assert b.columns[index].column == schema[index];
    UniqueNamePlace(schema, index);
    DistinctPosition(schema, index);
  }

  lemma DistinctPosition(schema: Schema, p: nat)
    requires DistinctIds(schema) && p < |schema|
    ensures Position(Ids(schema), schema[p].id) == Some(p)
  {
    assert NoRepeats(Ids(schema)) && Ids(schema)[p] == schema[p].id;
    PositionOf(Ids(schema), p);
  }

  lemma LiteralMeaning(db: Database, resolver: Resolver, site: Site, bindings: Bindings, scope: Scope, schema: Schema, root: Root)
    requires root.BooleanRoot? || root.IntegerRoot? || root.StringRoot?
    requires root.IntegerRoot? ==> root.i >= 0
    ensures LowerValue(resolver, site, bindings, root, []).Success? && LowerValue(resolver, site, bindings, root, []).value.ScalarValue?
    ensures Elaborates(db, ModelOf(resolver), scope, schema, root, [], LowerValue(resolver, site, bindings, root, []).value.scalar.expression)
  {
  }

  lemma EqualityComputes(db: Database, l: Core, r: Core, schema: Schema, left: Scalar, right: Scalar, equal: Scalar, e: Scalar)
    requires Computes(db, l, schema, left) && Computes(db, r, schema, right) && equal.operator == Equal(left, right)
    ensures Computes(db, Same(l, r), schema, equal)
    ensures e.operator == Not(equal) ==> Computes(db, Differ(l, r), schema, e)
  {
    forall row ensures RunCore(db, row, Same(l, r)) == Eval(db, Ids(schema), row, equal) {
      assert RunCore(db, row, l) == Eval(db, Ids(schema), row, left);
      assert RunCore(db, row, r) == Eval(db, Ids(schema), row, right);
    }
    forall row ensures e.operator == Not(equal) ==> RunCore(db, row, Differ(l, r)) == Eval(db, Ids(schema), row, e) {
      assert RunCore(db, row, Same(l, r)) == Eval(db, Ids(schema), row, equal);
    }
  }

  lemma ComparisonMeaning(db: Database, model: Model, span: SourceSpan, scope: Scope, schema: Schema, x: Expr, y: Expr,
                          left: LoweredScalar, right: LoweredScalar, negated: bool)
    requires LowerComparison(span, left, right, negated).Success?
    requires ScalarOk(left.expression, schema) ==> Elaborates(db, model, scope, schema, x.root, x.members, left.expression)
    requires ScalarOk(right.expression, schema) ==> Elaborates(db, model, scope, schema, y.root, y.members, right.expression)
    ensures var e := LowerComparison(span, left, right, negated).value.expression;
            ScalarOk(e, schema) ==>
              Elaborates(db, model, scope, schema, if negated then NotEqualRoot(x, y) else EqualRoot(x, y), [], e)
  {
    hide Elaborate, IsBoolean;
    var e := LowerComparison(span, left, right, negated).value.expression;
    if ScalarOk(e, schema) {
      var equal := if negated then e.operator.input else e;
      assert ScalarOk(equal, schema);
      assert ScalarOk(left.expression, schema) && ScalarOk(right.expression, schema);
      ComparisonElaborates(model, scope, x, y);
      var l, r := ElaborateExpr(model, scope, x).value.0, ElaborateExpr(model, scope, y).value.0;
      assert ScalarResolved(model, equal);
      EqualityComputes(db, l, r, schema, left.expression, right.expression, equal, e);
    }
  }

  lemma {:induction false} ValueMeaning(db: Database, resolver: Resolver, site: Site, bindings: Bindings, scope: Scope, schema: Schema,
                                        root: Root, members: seq<string>)
    requires KeepsNames(resolver) && BindingsRead(scope, bindings, schema) && DistinctIds(schema)
    requires LowerValue(resolver, site, bindings, root, members).Success?
    ensures var v := LowerValue(resolver, site, bindings, root, members).value;
            match v
            case ScalarValue(s) =>
              ScalarOk(s.expression, schema) ==> Elaborates(db, ModelOf(resolver), scope, schema, root, members, s.expression)
            case RowValue(local, columns) =>
              members == [] && root.Variable? && Lookup(bindings, root.name) == Some(RowElement(local, columns))
    decreases root, |members|
  {
    hide BindingsRead, DistinctIds, LowerNavigation, LowerRelationColumn, Lookup, LowerComparison, Elaborates, ScalarError, ReadColumn, Merged;
    if members == [] {
      match root
      case Variable(name) =>
        if Lookup(bindings, name).value.ColumnElement? {
          VariableMeaning(db, ModelOf(resolver), bindings, scope, schema, name,
            Merged(site.Child(0).Span(), [Lookup(bindings, name).value.bound.column.origin], []));
        }
      case BooleanRoot(_) => LiteralMeaning(db, resolver, site, bindings, scope, schema, root);
      case IntegerRoot(_) => LiteralMeaning(db, resolver, site, bindings, scope, schema, root);
      case StringRoot(_) => LiteralMeaning(db, resolver, site, bindings, scope, schema, root);
      case EqualRoot(left, right) =>
        ValueMeaning(db, resolver, site.Child(0).Child(0), bindings, scope, schema, left.root, left.members);
        ValueMeaning(db, resolver, site.Child(0).Child(1), bindings, scope, schema, right.root, right.members);
        ComparisonMeaning(db, ModelOf(resolver), site.Child(0).Span(), scope, schema, left, right,
          LowerScalar(resolver, site.Child(0).Child(0), bindings, left).value, LowerScalar(resolver, site.Child(0).Child(1), bindings, right).value, false);
      case NotEqualRoot(left, right) =>
        ValueMeaning(db, resolver, site.Child(0).Child(0), bindings, scope, schema, left.root, left.members);
        ValueMeaning(db, resolver, site.Child(0).Child(1), bindings, scope, schema, right.root, right.members);
        ComparisonMeaning(db, ModelOf(resolver), site.Child(0).Span(), scope, schema, left, right,
          LowerScalar(resolver, site.Child(0).Child(0), bindings, left).value, LowerScalar(resolver, site.Child(0).Child(1), bindings, right).value, true);
    } else {
      var earlier, name := members[..|members| - 1], members[|members| - 1];
      ValueMeaning(db, resolver, site, bindings, scope, schema, root, earlier);
      assert members == earlier + [name];
      match LowerValue(resolver, site, bindings, root, earlier).value
      case RowValue(_, _) => RelationColumnMeaning(db, resolver, site.Child(|members|).Span(), bindings, scope, schema, root.name, name);
      case ScalarValue(input) =>
        var e := LowerNavigation(resolver, site.Child(|members|).Span(), input, name).value.expression;
        NavigationKeepsInput(resolver, site.Child(|members|).Span(), input, name);
        if ScalarOk(e, schema) {
          NavigationChecksInput(e, schema);
          NotARow(resolver, site, bindings, scope, schema, root, earlier);
          NavigationMeaning(db, resolver, site.Child(|members|).Span(), scope, schema, root, earlier, input, name);
        }
    }
  }

  lemma NavigationChecksInput(e: Scalar, schema: Schema)
    requires ScalarOk(e, schema) && e.operator.Navigation?
    ensures ScalarOk(e.operator.input, schema)
  {
  }

  lemma NavigationKeepsInput(resolver: Resolver, span: SourceSpan, input: LoweredScalar, name: string)
    requires LowerNavigation(resolver, span, input, name).Success?
    ensures LowerNavigation(resolver, span, input, name).value.expression.operator.Navigation?
    ensures LowerNavigation(resolver, span, input, name).value.expression.operator.input == input.expression
  {
  }

  lemma NotARow(resolver: Resolver, site: Site, bindings: Bindings, scope: Scope, schema: Schema, root: Root, members: seq<string>)
    requires BindingsRead(scope, bindings, schema)
    requires LowerValue(resolver, site, bindings, root, members).Success?
    requires LowerValue(resolver, site, bindings, root, members).value.ScalarValue?
    ensures !(members == [] && root.Variable? && root.name in scope && scope[root.name].0.RowShape?)
  {
  }

  lemma ScalarLowersToMeaning(db: Database, resolver: Resolver, site: Site, bindings: Bindings, scope: Scope, schema: Schema, x: Expr)
    requires KeepsNames(resolver) && BindingsRead(scope, bindings, schema) && DistinctIds(schema)
    requires LowerScalar(resolver, site, bindings, x).Success?
    requires ScalarOk(LowerScalar(resolver, site, bindings, x).value.expression, schema)
    ensures Elaborates(db, ModelOf(resolver), scope, schema, x.root, x.members, LowerScalar(resolver, site, bindings, x).value.expression)
  {
    hide BindingsRead, DistinctIds, Elaborates, ScalarError;
    ValueMeaning(db, resolver, site, bindings, scope, schema, x.root, x.members);
  }

  // ---------- rows ----------

  lemma {:induction false} KeepRowsCompute(db: Database, core: Core, schema: Schema, e: Scalar, rows: seq<Row>)
    requires Computes(db, core, schema, e)
    ensures KeepRows(db, core, rows) == FilterRows(db, Ids(schema), e, rows)
  {
    if rows != [] {
      KeepRowsCompute(db, core, schema, e, rows[1..]);
    }
  }

  lemma MapRowsCompute(db: Database, cores: seq<Core>, schema: Schema, projections: seq<Projection>, rows: seq<Row>)
    requires |cores| == |projections|
    requires forall i :: 0 <= i < |cores| ==> Computes(db, cores[i], schema, projections[i].expression)
    ensures MapRows(db, cores, rows) == ProjectRows(db, Ids(schema), projections, rows)
  {
    hide RunCore, Eval;
    forall i | 0 <= i < |rows| ensures RunCores(db, cores, rows[i]) == ProjectRow(db, Ids(schema), projections, rows[i]) {
    }
  }

  // ---------- names ----------

  lemma {:induction false} NamedColumns(schema: Schema, name: string)
    ensures var p := FirstNamed(NamedTypes(schema), name);
            match p
            case None => ColumnsNamed(schema, name) == []
            case Some(k) => k < |schema| && ColumnsNamed(schema, name) == [schema[k]] + ColumnsNamed(schema[k + 1..], name)
  {
    if schema != [] {
      assert NamedTypes(schema)[1..] == NamedTypes(schema[1..]);
      NamedColumns(schema[1..], name);
      var p := FirstNamed(NamedTypes(schema[1..]), name);
      if schema[0].name != name && p.Some? {
        assert schema[1..][p.value + 1..] == schema[p.value + 2..];
      }
    }
  }

  /** A name selects one column here exactly when it names one place. */
  lemma SoleColumnPlace(schema: Schema, name: string)
    requires |ColumnsNamed(schema, name)| == 1
    ensures var p := PlaceOfName(NamedTypes(schema), name);
            p.Some? && p.value < |schema| && ColumnsNamed(schema, name)[0] == schema[p.value]
  {
    NamedColumns(schema, name);
    var k := FirstNamed(NamedTypes(schema), name).value;
    assert NamedTypes(schema)[k + 1..] == NamedTypes(schema[k + 1..]);
    NamedColumns(schema[k + 1..], name);
  }

  lemma {:induction false} SelectorsRead(names: seq<string>, schema: Schema)
    requires DistinctIds(schema) && ResolveSelectors(names, schema).Success?
    ensures var ids := ResolveSelectors(names, schema).value;
            |ids| == |names| && forall i :: 0 <= i < |names| ==>
              PlaceOfName(NamedTypes(schema), names[i]).Some? && Position(Ids(schema), ids[i]) == PlaceOfName(NamedTypes(schema), names[i])
  {
    hide PlaceOfName, Position, ColumnsNamed;
    if names != [] {
      SelectorsRead(names[..|names| - 1], schema);
      var name := names[|names| - 1];
      SoleColumnPlace(schema, name);
      DistinctPosition(schema, PlaceOfName(NamedTypes(schema), name).value);
    }
  }

  lemma {:induction false} PlacesPointwise(columns: seq<NamedType>, names: seq<string>)
    requires forall i :: 0 <= i < |names| ==> PlaceOfName(columns, names[i]).Some?
    ensures var places := PlacesOfNames(columns, names);
            places.Some? && |places.value| == |names|
            && forall i :: 0 <= i < |names| ==> PlaceOfName(columns, names[i]) == Some(places.value[i])
  {
    hide PlaceOfName;
    if names != [] {
      PlacesPointwise(columns, names[1..]);
    }
  }

  lemma {:induction false} KeysRead(site: Site, keys: seq<KeySpec>, schema: Schema, input: IrOrigin)
    requires DistinctIds(schema) && LowerKeys(site, keys, schema, input).Success?
    ensures var lowered := LowerKeys(site, keys, schema, input).value;
            |lowered| == |keys| && forall i :: 0 <= i < |keys| ==>
              && PlaceOfName(NamedTypes(schema), keys[i].column).Some?
              && Position(Ids(schema), lowered[i].column) == PlaceOfName(NamedTypes(schema), keys[i].column)
              && lowered[i].direction == keys[i].direction
  {
    hide PlaceOfName, Position, ColumnsNamed;
    if keys != [] {
      KeysRead(site, keys[..|keys| - 1], schema, input);
      var name := keys[|keys| - 1].column;
      SoleColumnPlace(schema, name);
      DistinctPosition(schema, PlaceOfName(NamedTypes(schema), name).value);
    }
  }

  lemma {:induction false} OrderingPointwise(columns: seq<NamedType>, keys: seq<KeySpec>)
    requires forall i :: 0 <= i < |keys| ==> PlaceOfName(columns, keys[i].column).Some?
    ensures var ordering := NamedOrdering(columns, keys);
            ordering.Some? && |ordering.value| == |keys|
            && forall i :: 0 <= i < |keys| ==> ordering.value[i] == (PlaceOfName(columns, keys[i].column), keys[i].direction)
  {
    hide PlaceOfName;
    if keys != [] {
      OrderingPointwise(columns, keys[1..]);
    }
  }

  // ---------- steps ----------

  /** The state stands for this table, and the model finds everything in it again. */
  ghost predicate Denotes(db: Database, resolver: Resolver, s: RelationState, t: Option<Table>) {
    t == Some(TableOf(db, s.expression, ElementBinding(s.element))) && Resolved(ModelOf(resolver), s.expression)
  }

  /** One parameter over the bound element reads that element's columns. */
  lemma ParameterReads(s: RelationState, parameter: string)
    requires Valid(s.expression) && ElementFits(s.element, s.expression.schema) && s.element.Some?
    ensures var t := Table(NamedTypes(s.expression.schema), KindOf(ElementBinding(s.element)), []);
            ParameterShape(t).Some?
            && BindingsRead(map[parameter := (ParameterShape(t).value, 0)], [(parameter, s.element.value)], s.expression.schema)
  {
    if s.element.value.ColumnElement? {
      DistinctPosition(s.expression.schema, 0);
    }
  }

  lemma AllDenotes(db: Database, resolver: Resolver, span: SourceSpan, path: string, next: u32)
    requires KeepsNames(resolver) && LowerAll(resolver, span, path, next).Success?
    ensures Denotes(db, resolver, LowerAll(resolver, span, path, next).value.state, Extent(db, ModelOf(resolver), path))
  {
    var r := LowerAll(resolver, span, path, next).value.state.expression;
    assert Describe(r.schema) == [ColumnFacts(SimpleName(path), TypeRef(path, []), EXACTLY_ONE, NullabilityUnknown)];
    assert NamedTypes(r.schema) == [(SimpleName(path), TypeRef(path, []))];
  }

  lemma FilterDenotes(db: Database, resolver: Resolver, site: Site, s: RelationState, t: Table, parameter: string, body: Expr)
    requires KeepsNames(resolver) && Valid(s.expression) && ElementFits(s.element, s.expression.schema)
    requires Denotes(db, resolver, s, Some(t)) && LowerFilter(resolver, site, s, parameter, body).Success?
    ensures Denotes(db, resolver, LowerFilter(resolver, site, s, parameter, body).value,
                    Apply(db, ModelOf(resolver), t, FilterStep(parameter, body)))
  {
    hide LowerScalar, ElementFits, BindingsRead, Elaborate, Computes, KeepRows, FilterRows, NamedTypes, IsBoolean;
    var schema := s.expression.schema;
    var bindings := [(parameter, s.element.value)];
    ParameterReads(s, parameter);
    var shape := ParameterShape(Table(NamedTypes(schema), KindOf(ElementBinding(s.element)), [])).value;
    var scope := map[parameter := (shape, 0)];
    ScalarLowersToMeaning(db, resolver, site.Child(0), bindings, scope, schema, body);
    var condition := LowerScalar(resolver, site.Child(0), bindings, body).value.expression;
    KeepRowsCompute(db, ElaborateExpr(ModelOf(resolver), scope, body).value.0, schema, condition, t.rows);
  }

  lemma ScalarProjectDenotes(db: Database, resolver: Resolver, span: SourceSpan, s: RelationState, t: Table, name: string,
                             scalar: LoweredScalar, next: u32, result: Option<(Core, TypeRef)>)
    requires Denotes(db, resolver, s, Some(t)) && LowerScalarProject(span, s, name, scalar, next).Success?
    requires result.Some? && result.value.1 == scalar.expression.typeRef
    requires Computes(db, result.value.0, s.expression.schema, scalar.expression) && ScalarResolved(ModelOf(resolver), scalar.expression)
    ensures Denotes(db, resolver, LowerScalarProject(span, s, name, scalar, next).value.state, MapTo(db, t, name, result))
  {
    hide Computes, MapRows, ProjectRows, ScalarError, Eval, RunCore;
    var r := LowerScalarProject(span, s, name, scalar, next).value.state.expression;
    MapRowsCompute(db, [result.value.0], s.expression.schema, r.operator.projections, t.rows);
    assert NamedTypes(r.schema) == [(name, result.value.1)];
  }

  lemma MapDenotes(db: Database, resolver: Resolver, site: Site, s: RelationState, t: Table, parameter: string, body: Expr, next: u32)
    requires KeepsNames(resolver) && Valid(s.expression) && ElementFits(s.element, s.expression.schema)
    requires Denotes(db, resolver, s, Some(t)) && LowerMap(resolver, site, s, parameter, body, next).Success?
    ensures Denotes(db, resolver, LowerMap(resolver, site, s, parameter, body, next).value.state,
                    Apply(db, ModelOf(resolver), t, MapStep(parameter, body)))
  {
    hide LowerScalar, ElementFits, BindingsRead, Elaborate, Computes, MapRows, NamedTypes, SameColumnMetadata, Denotes;
    var schema := s.expression.schema;
    var bindings := [(parameter, s.element.value)];
    ParameterReads(s, parameter);
    DenotesUnfolds(db, resolver, s, t);
    var shape := ParameterShape(Table(NamedTypes(schema), KindOf(ElementBinding(s.element)), [])).value;
    var scope := map[parameter := (shape, 0)];
    var scalar := LowerScalar(resolver, site.Child(0), bindings, body).value;
    ProjectedScalarOk(site.Span(), s, MAP_VALUE_COLUMN_NAME, scalar, next);
    ScalarLowersToMeaning(db, resolver, site.Child(0), bindings, scope, schema, body);
    ScalarProjectDenotes(db, resolver, site.Span(), s, t, MAP_VALUE_COLUMN_NAME, scalar, next, ElaborateExpr(ModelOf(resolver), scope, body));
  }

  lemma DenotesUnfolds(db: Database, resolver: Resolver, s: RelationState, t: Table)
    requires Denotes(db, resolver, s, Some(t))
    ensures t == TableOf(db, s.expression, ElementBinding(s.element)) && Resolved(ModelOf(resolver), s.expression)
  {
  }

  lemma ProjectedScalarOk(span: SourceSpan, s: RelationState, name: string, scalar: LoweredScalar, next: u32)
    requires LowerScalarProject(span, s, name, scalar, next).Success?
    ensures ScalarOk(scalar.expression, s.expression.schema)
  {
    hide ScalarError;
    assert LowerScalarProject(span, s, name, scalar, next).value.state.expression.schema[0].id == next;
  }

  lemma PropertyDenotes(db: Database, resolver: Resolver, span: SourceSpan, s: RelationState, t: Table, name: string, next: u32)
    requires KeepsNames(resolver) && Valid(s.expression) && ElementFits(s.element, s.expression.schema)
    requires Denotes(db, resolver, s, Some(t)) && LowerProperty(resolver, span, s, name, next).Success?
    ensures Denotes(db, resolver, LowerProperty(resolver, span, s, name, next).value.state,
                    Apply(db, ModelOf(resolver), t, PropertyStep(name)))
  {
    hide BindingsRead, Elaborate, Computes, MapRows, ScalarError, LowerNavigation, Denotes, Position, LowerScalarProject;
    var schema := s.expression.schema;
    var b := s.element.value.bound;
    ParameterReads(s, "");
    DenotesUnfolds(db, resolver, s, t);
    var scope: Scope := map["" := (ElementShape(b.column.typeRef), 0)];
    var scalar := LowerNavigation(resolver, span, ReadColumn(b, b.column.origin), name).value;
    ProjectedScalarOk(span, s, name, scalar, next);
    VariableMeaning(db, ModelOf(resolver), [("", s.element.value)], scope, schema, "", b.column.origin);
    NavigationMeaning(db, resolver, span, scope, schema, Variable(""), [], ReadColumn(b, b.column.origin), name);
    assert [] + [name] == [name];
    ScalarProjectDenotes(db, resolver, span, s, t, name, scalar, next, Elaborate(ModelOf(resolver), scope, Variable(""), [name]));
  }

  lemma {:induction false} SpecsPointwise(model: Model, shape: Shape, specs: seq<ColumnSpec>)
    requires forall i :: 0 <= i < |specs| ==> ElaborateExpr(model, map[specs[i].parameter := (shape, 0)], specs[i].body).Some?
    ensures var r := ElaborateSpecs(model, shape, specs);
            r.Some? && |r.value.0| == |r.value.1| == |specs|
            && forall i :: 0 <= i < |specs| ==>
                 var x := ElaborateExpr(model, map[specs[i].parameter := (shape, 0)], specs[i].body).value;
                 r.value.0[i] == x.0 && r.value.1[i] == (specs[i].alias, x.1)
  {
    hide ElaborateExpr;
    if specs != [] {
      SpecsPointwise(model, shape, specs[1..]);
    }
  }

  lemma {:induction false} SpecsLower(resolver: Resolver, site: Site, element: BoundElement, specs: seq<ColumnSpec>, next: u32)
    requires LowerSpecs(resolver, site, element, specs, next).Success?
    ensures var r := LowerSpecs(resolver, site, element, specs, next).value;
            && |r.columns| == |r.projections| == |specs|
            && forall i :: 0 <= i < |specs| ==>
                 var scalar := LowerScalar(resolver, site.Child(i).Child(0), [(specs[i].parameter, element)], specs[i].body);
                 && scalar.Success? && r.projections[i].expression == scalar.value.expression
                 && r.columns[i].column.name == specs[i].alias && r.columns[i].column.typeRef == scalar.value.expression.typeRef
  {
    hide LowerScalar;
    if specs != [] {
      SpecsLower(resolver, site, element, specs[..|specs| - 1], next);
    }
  }

  /** Every projected expression resolves, over the one bound element, to its computation. */
  lemma SpecsElaborate(db: Database, resolver: Resolver, site: Site, s: RelationState, shape: Shape, specs: seq<ColumnSpec>, next: u32)
    requires KeepsNames(resolver) && Valid(s.expression) && ElementFits(s.element, s.expression.schema) && s.element.Some?
    requires Some(shape) == ParameterShape(Table(NamedTypes(s.expression.schema), KindOf(ElementBinding(s.element)), []))
    requires LowerSpecs(resolver, site, s.element.value, specs, next).Success?
    requires var lowered := LowerSpecs(resolver, site, s.element.value, specs, next).value;
             forall i :: 0 <= i < |lowered.projections| ==> ScalarOk(lowered.projections[i].expression, s.expression.schema)
    ensures var lowered := LowerSpecs(resolver, site, s.element.value, specs, next).value;
            |lowered.projections| == |specs| && forall i :: 0 <= i < |specs| ==>
              Elaborates(db, ModelOf(resolver), map[specs[i].parameter := (shape, 0)], s.expression.schema,
                         specs[i].body.root, specs[i].body.members, lowered.projections[i].expression)
  {
    hide LowerScalar, LowerSpecs, ElementFits, BindingsRead, Elaborates, NamedTypes, ScalarError;
    var element := s.element.value;
    SpecsLower(resolver, site, element, specs, next);
    forall i | 0 <= i < |specs|
      ensures Elaborates(db, ModelOf(resolver), map[specs[i].parameter := (shape, 0)], s.expression.schema, specs[i].body.root, specs[i].body.members,
                         LowerSpecs(resolver, site, element, specs, next).value.projections[i].expression)
    {
      ParameterReads(s, specs[i].parameter);
      ScalarLowersToMeaning(db, resolver, site.Child(i).Child(0), [(specs[i].parameter, element)], map[specs[i].parameter := (shape, 0)], s.expression.schema,
                            specs[i].body);
    }
  }

  lemma RelationProjectDenotes(db: Database, resolver: Resolver, site: Site, s: RelationState, t: Table, specs: seq<ColumnSpec>, next: u32)
    requires KeepsNames(resolver) && Valid(s.expression) && ElementFits(s.element, s.expression.schema)
    requires Denotes(db, resolver, s, Some(t)) && LowerRelationProject(resolver, site, s, specs, next).Success?
    ensures Denotes(db, resolver, LowerRelationProject(resolver, site, s, specs, next).value.state,
                    Apply(db, ModelOf(resolver), t, ProjectStep(specs)))
  {
    hide LowerScalar, LowerSpecs, ElementFits, BindingsRead, Elaborate, Computes, MapRows, ProjectRows, NamesAreUnique, ElaborateSpecs, ScalarError,
         Eval, RunCore, Merged, RowColumnsOf, DistinctIds, Valid, ScalarResolved;
    var schema := s.expression.schema;
    var element := s.element.value;
    ParameterReads(s, "");
    var shape := ParameterShape(Table(NamedTypes(schema), KindOf(ElementBinding(s.element)), [])).value;
    var r := LowerRelationProject(resolver, site, s, specs, next).value.state.expression;
    SpecsLower(resolver, site, element, specs, next);
    SpecsElaborate(db, resolver, site, s, shape, specs, next);
    SpecsPointwise(ModelOf(resolver), shape, specs);
    var elaborated := ElaborateSpecs(ModelOf(resolver), shape, specs).value;
    MapRowsCompute(db, elaborated.0, schema, r.operator.projections, t.rows);
    assert elaborated.1 == NamedTypes(r.schema);
    forall p | p in r.operator.projections ensures ScalarResolved(ModelOf(resolver), p.expression) {
      var i :| 0 <= i < |specs| && r.operator.projections[i] == p;
      assert Elaborates(db, ModelOf(resolver), map[specs[i].parameter := (shape, 0)], schema, specs[i].body.root, specs[i].body.members, p.expression);
    }
  }

  lemma DistinctDenotes(db: Database, resolver: Resolver, span: SourceSpan, s: RelationState, t: Table)
    requires Denotes(db, resolver, s, Some(t)) && LowerDistinct(span, s).Success?
    ensures Denotes(db, resolver, LowerDistinct(span, s).value, Apply(db, ModelOf(resolver), t, DistinctStep))
  {
  }

  lemma DistinctOnDenotes(db: Database, resolver: Resolver, span: SourceSpan, s: RelationState, t: Table, names: seq<string>)
    requires Valid(s.expression) && ElementFits(s.element, s.expression.schema)
    requires Denotes(db, resolver, s, Some(t)) && LowerDistinctOn(span, s, names).Success?
    ensures Denotes(db, resolver, LowerDistinctOn(span, s, names).value, Apply(db, ModelOf(resolver), t, DistinctOnStep(names)))
  {
    hide ElementFits, SelectedElement, SelectRows, FirstOccurrences, PlacesOfNames, PlaceOfName, Position, ResolveSelectors, FindColumn, Selected;
    var input := s.expression;
    var ids := ResolveSelectors(names, input.schema).value;
    var schema := Selected(ids, input.schema);
    SelectedElementFits(s.element, input.schema, ids);
    SelectedWidth(ids, input.schema);
    SelectorsRead(names, input.schema);
    PlacesPointwise(NamedTypes(input.schema), names);
    PlacesInRange(NamedTypes(input.schema), names);
    var places := PlacesOfNames(NamedTypes(input.schema), names).value;
    assert AsPlaces(places) == Places(Ids(input.schema), ids);
    forall i | 0 <= i < |ids| ensures NamedTypes(input.schema)[places[i]] == NamedTypes(schema)[i] {
      FindColumnAt(input.schema, ids[i]);
    }
    assert PickColumns(NamedTypes(input.schema), places) == NamedTypes(schema);
  }

  lemma SortDenotes(db: Database, resolver: Resolver, site: Site, s: RelationState, t: Table, keys: seq<KeySpec>)
    requires Valid(s.expression)
    requires Denotes(db, resolver, s, Some(t)) && LowerSort(site, s, keys).Success?
    ensures Denotes(db, resolver, LowerSort(site, s, keys).value, Apply(db, ModelOf(resolver), t, SortStep(keys)))
  {
    hide LowerKeys, SortRows, NamedOrdering, PlaceOfName, Position, Valid, Merged, SortKeysOk, KeysInScope, NamedTypes;
    var input := s.expression;
    var lowered := LowerKeys(site, keys, input.schema, input.origin).value;
    ValidUnfolds(input);
    KeysRead(site, keys, input.schema, input.origin);
    OrderingPointwise(NamedTypes(input.schema), keys);
    assert NamedOrdering(NamedTypes(input.schema), keys).value == OrderingOf(Ids(input.schema), lowered);
  }

  lemma LookupTwo(l: string, a: BoundElement, r: string, b: BoundElement, name: string)
    ensures Lookup([(l, a), (r, b)], name) == if name == l then Some(a) else if name == r then Some(b) else None
  {
    assert [(l, a), (r, b)][1..] == [(r, b)];
    assert Lookup([(r, b)], name) == if name == r then Some(b) else None;
  }

  lemma JoinBindingsRead(left: RelationState, right: RelationState, l: string, r: string)
    requires BindsColumn(left) && BindsColumn(right) && l != r
    requires ElementFits(left.element, left.expression.schema) && ElementFits(right.element, right.expression.schema)
    requires DistinctIds(left.expression.schema + right.expression.schema)
    ensures var x, y := left.element.value.bound.column, right.element.value.bound.column;
            BindingsRead(map[l := (ElementShape(x.typeRef), 0), r := (ElementShape(y.typeRef), 1)],
                         [(l, left.element.value), (r, right.element.value)], left.expression.schema + right.expression.schema)
  {
    hide DistinctIds;
    var schema := left.expression.schema + right.expression.schema;
    var bindings := [(l, left.element.value), (r, right.element.value)];
    DistinctPosition(schema, 0);
    DistinctPosition(schema, 1);
    forall name ensures Lookup(bindings, name).Some? ==> name == l || name == r {
      LookupTwo(l, left.element.value, r, right.element.value, name);
    }
    LookupTwo(l, left.element.value, r, right.element.value, l);
    LookupTwo(l, left.element.value, r, right.element.value, r);
    assert schema[0] == left.element.value.bound.column && schema[1] == right.element.value.bound.column;
  }

  lemma JoinedDenotes(db: Database, resolver: Resolver, site: Site, left: RelationState, right: RelationState, t: Table, u: Table,
                      q: Query, grouped: bool, l: string, r: string, body: Expr)
    requires KeepsNames(resolver) && BindsColumn(left) && l != r
    requires ElementFits(left.element, left.expression.schema) && ElementFits(right.element, right.expression.schema)
    requires Denotes(db, resolver, left, Some(t)) && Denotes(db, resolver, right, Some(u)) && EvaluateQuery(db, ModelOf(resolver), q) == Some(u)
    requires LowerJoined(resolver, site, left, right, l, r, body).Success?
    ensures Denotes(db, resolver, LowerJoined(resolver, site, left, right, l, r, body).value,
                    Apply(db, ModelOf(resolver), t, JoinStep(q, grouped, l, r, body)))
  {
    hide LowerScalar, BindingsRead, Elaborate, Computes, KeepRows, FilterRows, PairRows, EvaluateQuery, Apply, DistinctIds, ScalarError, IsBoolean;
    var a, b := left.expression.schema, right.expression.schema;
    var scope := map[l := (ElementShape(a[0].typeRef), 0), r := (ElementShape(b[0].typeRef), 1)];
    var bindings := [(l, left.element.value), (r, right.element.value)];
    JoinBindingsRead(left, right, l, r);
    ScalarLowersToMeaning(db, resolver, site.Child(0), bindings, scope, a + b, body);
    var condition := LowerScalar(resolver, site.Child(0), bindings, body).value.expression;
    var core := ElaborateExpr(ModelOf(resolver), scope, body).value.0;
    KeepRowsCompute(db, core, a + b, condition, PairRows(t.rows, u.rows));
    SchemasJoined(a, b);
    JoinApplies(db, ModelOf(resolver), t, u, q, grouped, l, r, body);
  }

  lemma {:induction false} StepDenotes(db: Database, resolver: Resolver, site: Site, a: Allocated, t: Table, step: Step, from: nat)
    requires KeepsNames(resolver) && Accepted(a.state, from, a.next) && Denotes(db, resolver, a.state, Some(t))
    requires LowerStep(resolver, site, a, step).Success?
    ensures Denotes(db, resolver, LowerStep(resolver, site, a, step).value.state, Apply(db, ModelOf(resolver), t, step))
    decreases step, 0
  {
    hide LowerFilter, LowerProperty, LowerMap, LowerRelationProject, LowerDistinct, LowerDistinctOn, LowerSort, LowerJoined, Denotes, Apply, ElementFits, Valid;
    match step
    case PropertyStep(name) => PropertyDenotes(db, resolver, site.Span(), a.state, t, name, a.next);
    case FilterStep(parameter, body) => FilterDenotes(db, resolver, site, a.state, t, parameter, body);
    case MapStep(parameter, body) => MapDenotes(db, resolver, site, a.state, t, parameter, body, a.next);
    case ProjectStep(specs) => RelationProjectDenotes(db, resolver, site, a.state, t, specs, a.next);
    case JoinStep(right, grouped, l, r, condition) =>
      var b := LowerQuery(resolver, site.Child(1), right, a.next).value;
      LoweringPreservesMeaning(db, resolver, site.Child(1), right, a.next);
      LoweringKeepsInvariant(resolver, site.Child(1), right, a.next);
      var u := TableOf(db, b.state.expression, ElementBinding(b.state.element));
      DenotesTable(db, resolver, b.state, EvaluateQuery(db, ModelOf(resolver), right));
      JoinedDenotes(db, resolver, site, a.state, b.state, t, u, right, grouped, l, r, condition);
    case DistinctStep => DistinctDenotes(db, resolver, site.Span(), a.state, t);
    case DistinctOnStep(names) => DistinctOnDenotes(db, resolver, site.Span(), a.state, t, names);
    case SortStep(keys) => SortDenotes(db, resolver, site, a.state, t, keys);
  }

  lemma DenotesTable(db: Database, resolver: Resolver, s: RelationState, t: Option<Table>)
    requires Denotes(db, resolver, s, t)
    ensures t == Some(TableOf(db, s.expression, ElementBinding(s.element)))
  {
  }

  lemma {:induction false} StepsDenote(db: Database, resolver: Resolver, site: Site, path: string, steps: seq<Step>, next: u32)
    requires KeepsNames(resolver) && LowerSteps(resolver, site, path, steps, next).Success?
    ensures Denotes(db, resolver, LowerSteps(resolver, site, path, steps, next).value.state,
                    EvaluateSteps(db, ModelOf(resolver), path, steps))
    decreases steps, 1
  {
    hide Denotes, Accepted, LowerStep, LowerAll, Apply, Extent;
    if steps == [] {
      AllDenotes(db, resolver, site.Child(0).Span(), path, next);
    } else {
      var earlier := steps[..|steps| - 1];
      var a := LowerSteps(resolver, site, path, earlier, next).value;
      StepsDenote(db, resolver, site, path, earlier, next);
      StepsAccepted(resolver, site, path, earlier, next);
      DenotesTable(db, resolver, a.state, EvaluateSteps(db, ModelOf(resolver), path, earlier));
      StepDenotes(db, resolver, site.Child(|steps|), a, EvaluateSteps(db, ModelOf(resolver), path, earlier).value, steps[|steps| - 1], next);
    }
  }

  /** Lowering preserves meaning: an accepted query, read by name on any database,
      returns the rows of its lowered expression under that expression's column
      names and types, and the next lambda binds what lowering bound. */
  lemma {:induction false} LoweringPreservesMeaning(db: Database, resolver: Resolver, site: Site, q: Query, next: u32)
    requires KeepsNames(resolver) && LowerQuery(resolver, site, q, next).Success?
    ensures Denotes(db, resolver, LowerQuery(resolver, site, q, next).value.state, EvaluateQuery(db, ModelOf(resolver), q))
    decreases q, 2
  {
    hide Denotes;
    StepsDenote(db, resolver, site, q.path, q.steps, next);
  }
}
