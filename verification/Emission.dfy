/** Canonical emission preserves meaning. */
module Emission {
  import opened Basics
  import opened Text
  import opened Relational
  import opened Semantics
  import opened Surface
  import opened SurfaceSemantics
  import opened Canonical

  // ---------- what emission relies on ----------

  /** Every navigation carries the member the resolver finds again by name. */
  ghost predicate ScalarResolved(model: Model, e: Scalar)
    decreases e
  {
    match e.operator
    case ColumnRead(_) => true
    case Literal(_) => true
    case Navigation(input, navigation) =>
      && ScalarResolved(model, input)
      && model.memberAt(input.typeRef, navigation.member.name).Some?
      && FactsOfMember(model.memberAt(input.typeRef, navigation.member.name).value) == FactsOfMember(navigation.member)
    case Equal(left, right) => ScalarResolved(model, left) && ScalarResolved(model, right)
    case Not(input) => ScalarResolved(model, input)
  }

  /** Every class and member in the relation is the one the resolver issued. */
  ghost predicate Resolved(model: Model, r: Relation)
    decreases r
  {
    match r.operator
    case Scan(c) => model.classAt(c.path).Some? && FactsOfClass(model.classAt(c.path).value) == FactsOfClass(c)
    case Filter(input, condition) => Resolved(model, input) && ScalarResolved(model, condition)
    case Project(input, projections, _) =>
      Resolved(model, input) && forall p :: p in projections ==> ScalarResolved(model, p.expression)
    case Join(_, left, right, condition) => Resolved(model, left) && Resolved(model, right) && ScalarResolved(model, condition)
    case Distinct(input) => Resolved(model, input)
    case DistinctOn(input, _) => Resolved(model, input)
    case Sort(input, _) => Resolved(model, input)
  }

  /** Every scalar-collection projection names its column as `->map` does. */
  ghost predicate ScalarColumnsAreValue(r: Relation)
    decreases r
  {
    match r.operator
    case Scan(_) => true
    case Filter(input, _) => ScalarColumnsAreValue(input)
    case Project(input, _, kind) =>
      ScalarColumnsAreValue(input) && (kind == ScalarProjection ==> forall c :: c in r.schema ==> c.name == MAP_VALUE_COLUMN_NAME)
    case Join(_, left, right, _) => ScalarColumnsAreValue(left) && ScalarColumnsAreValue(right)
    case Distinct(input) => ScalarColumnsAreValue(input)
    case DistinctOn(input, _) => ScalarColumnsAreValue(input)
    case Sort(input, _) => ScalarColumnsAreValue(input)
  }

  function NamedTypes(schema: Schema): seq<NamedType> {
    seq(|schema|, i requires 0 <= i < |schema| => (schema[i].name, schema[i].typeRef))
  }

  function KindOf(binding: BindingKind): Kind {
    match binding
    case ColumnBinding => ElementKind
    case RowBinding => RowKind
    case NoBinding => PairKind
  }

  /** The table a relation stands for. */
  ghost function TableOf(db: Database, r: Relation, binding: BindingKind): Table {
    Table(NamedTypes(r.schema), KindOf(binding), Denote(db, r))
  }

  // ---------- the names emitted columns come back under ----------

  function ColumnNames(schema: Schema): seq<string> {
    seq(|schema|, i requires 0 <= i < |schema| => schema[i].name)
  }

  function Under(names: seq<string>, schema: Schema): seq<NamedType>
    requires |names| == |schema|
  {
    seq(|schema|, i requires 0 <= i < |schema| => (names[i], schema[i].typeRef))
  }

  /** The table a relation stands for, under other column names. */
  ghost function NamedTable(db: Database, r: Relation, binding: BindingKind, names: seq<string>): Table
    requires |names| == |r.schema|
  {
    Table(Under(names, r.schema), KindOf(binding), Denote(db, r))
  }

  lemma OwnNames(schema: Schema)
    ensures Under(ColumnNames(schema), schema) == NamedTypes(schema)
  {
  }

  /** Exactly one column is called this. */
  ghost predicate NamedOnce(names: seq<string>, name: string) {
    && (exists i :: 0 <= i < |names| && names[i] == name)
    && forall i, j :: 0 <= i < j < |names| && names[i] == name ==> names[j] != name
  }

  /** Each sort key's printed name is that of exactly one column. */
  ghost predicate KeysResolve(names: seq<string>, schema: Schema, keys: seq<SortKey>) {
    forall i :: 0 <= i < |keys| ==>
      FindColumn(schema, keys[i].column).Some? && NamedOnce(names, FindColumn(schema, keys[i].column).value.name)
  }

  /** The column names the emitted query of `r` returns: a map's column is a
      `value`, a join's sides stand side by side, and a selection or a sort goes
      through only if each name it prints is that of one column. */
  ghost function EmittedNames(r: Relation): Option<seq<string>>
    decreases r
  {
    match r.operator
    case Scan(_) => Some(ColumnNames(r.schema))
    case Filter(input, _) => EmittedNames(input)
    case Project(input, _, kind) =>
      if EmittedNames(input).None? then None
      else if kind == ScalarProjection then Some([MAP_VALUE_COLUMN_NAME])
      else Some(ColumnNames(r.schema))
    case Join(_, left, right, _) =>
      if EmittedNames(left).None? || EmittedNames(right).None? then None
      else Some(EmittedNames(left).value + EmittedNames(right).value)
    case Distinct(input) => EmittedNames(input)
    case DistinctOn(input, columns) =>
      var names := EmittedNames(input);
      if names.Some? && forall i :: 0 <= i < |r.schema| ==> NamedOnce(names.value, r.schema[i].name) then Some(ColumnNames(r.schema)) else None
    case Sort(input, keys) =>
      var names := EmittedNames(input);
      if names.Some? && KeysResolve(names.value, input.schema, keys) then names else None
  }

  /** Emitted names differ from the schema's at most by a `value`, and a bound row keeps its own. */
  ghost predicate NamesFit(names: seq<string>, schema: Schema, binding: BindingKind) {
    && |names| == |schema|
    && (forall i :: 0 <= i < |names| ==> names[i] == schema[i].name || names[i] == MAP_VALUE_COLUMN_NAME)
    && (binding == RowBinding ==> names == ColumnNames(schema))
  }

  /** The parameter of the next lambda does not depend on the name of a bound column. */
  lemma ShapeIsKept(db: Database, r: Relation, binding: BindingKind, names: seq<string>)
    requires NamesFit(names, r.schema, binding)
    ensures ParameterShape(NamedTable(db, r, binding, names)) == ParameterShape(Table(NamedTypes(r.schema), KindOf(binding), []))
  {
    OwnNames(r.schema);
  }

  // ---------- references resolve to the columns they stand for ----------

  /** In this scope, each reference reads the place and type of its column. */
  ghost predicate ReferencesResolve(model: Model, scope: Scope, references: References, schema: Schema) {
    forall id :: id in references ==>
      && Position(Ids(schema), id).Some?
      && ElaborateExpr(model, scope, references[id]) ==
         Some((ReadPlace(Position(Ids(schema), id).value), schema[Position(Ids(schema), id).value].typeRef))
  }

  lemma UniqueNamePlace(schema: Schema, p: nat)
    requires NamesAreUnique(schema) && p < |schema|
    ensures PlaceOfName(NamedTypes(schema), schema[p].name) == Some(p)
  {
    var columns := NamedTypes(schema);
    var first := FirstNamed(columns, schema[p].name);
    assert columns[p].0 == schema[p].name;
    assert first.Some? && columns[first.value].0 == schema[first.value].name;
    assert first.value == p;
    var tail := columns[p + 1..];
    assert forall k :: 0 <= k < |tail| ==> tail[k].0 == schema[p + 1 + k].name;
  }

  lemma ColumnAtPosition(schema: Schema, id: ColumnId)
    requires DistinctIds(schema) && id in Ids(schema)
    ensures Position(Ids(schema), id).Some? && ColumnAt(schema, id) == schema[Position(Ids(schema), id).value]
  {
    var c := ColumnAt(schema, id);
    var k :| 0 <= k < |schema| && schema[k] == c;
    assert NoRepeats(Ids(schema)) && Ids(schema)[k] == id;
    PositionOf(Ids(schema), k);
  }

  lemma {:induction false} ReferencesForResolve(model: Model, binding: BindingKind, schema: Schema, binder: string)
    requires DistinctIds(schema) && ReferencesFor(binding, schema, binder).Some?
    ensures var t := Table(NamedTypes(schema), KindOf(binding), []);
            && ParameterShape(t).Some?
            && ReferencesResolve(model, map[binder := (ParameterShape(t).value, 0)], ReferencesFor(binding, schema, binder).value, schema)
  {
    var references := ReferencesFor(binding, schema, binder).value;
    var shape := ParameterShape(Table(NamedTypes(schema), KindOf(binding), [])).value;
    var scope := map[binder := (shape, 0)];
    hide Position, ColumnAt, PlaceOfName, NamesAreUnique, DistinctIds, ElaborateExpr, NamedTypes;
    forall id | id in references
      ensures Position(Ids(schema), id).Some?
      ensures ElaborateExpr(model, scope, references[id]) ==
              Some((ReadPlace(Position(Ids(schema), id).value), schema[Position(Ids(schema), id).value].typeRef))
    {
      if binding == ColumnBinding {
        FirstPosition(schema);
        ElementReference(model, binder, schema[0].typeRef);
        NamedTypesAt(schema, 0);
      } else {
        ColumnAtPosition(schema, id);
        var p := Position(Ids(schema), id).value;
        UniqueNamePlace(schema, p);
        RowReference(model, binder, NamedTypes(schema), schema[p].name);
        NamedTypesAt(schema, p);
      }
    }
  }

  lemma NamedTypesAt(schema: Schema, p: nat)
    requires p < |schema|
    ensures |NamedTypes(schema)| == |schema| && NamedTypes(schema)[p] == (schema[p].name, schema[p].typeRef)
  {
  }

  lemma ElementReference(model: Model, binder: string, t: TypeRef)
    ensures ElaborateExpr(model, map[binder := (ElementShape(t), 0)], Chain(Variable(binder), [])) == Some((ReadPlace(0), t))
  {
  }

  lemma RowReference(model: Model, binder: string, columns: seq<NamedType>, name: string)
    requires PlaceOfName(columns, name).Some?
    ensures ElaborateExpr(model, map[binder := (RowShape(columns), 0)], Chain(Variable(binder), [name])) ==
            Some((ReadPlace(PlaceOfName(columns, name).value), columns[PlaceOfName(columns, name).value].1))
  {
  }

  lemma FirstPosition(schema: Schema)
    requires DistinctIds(schema) && |schema| > 0
    ensures Position(Ids(schema), schema[0].id) == Some(0)
  {
    assert NoRepeats(Ids(schema)) && Ids(schema)[0] == schema[0].id;
    PositionOf(Ids(schema), 0);
  }

  // ---------- scalars ----------

  lemma NegatedEquality(schema: Schema, e: Scalar)
    requires ScalarOk(e, schema) && e.operator.Not? && e.operator.input.operator.Equal?
    ensures ScalarOk(e.operator.input.operator.left, schema) && ScalarOk(e.operator.input.operator.right, schema)
  {
    assert ScalarOk(e.operator.input, schema);
  }

  lemma ReferenceReads(model: Model, scope: Scope, references: References, schema: Schema, id: ColumnId)
    requires ReferencesResolve(model, scope, references, schema) && id in references
    ensures Position(Ids(schema), id).Some?
    ensures ElaborateExpr(model, scope, references[id]) ==
            Some((ReadPlace(Position(Ids(schema), id).value), schema[Position(Ids(schema), id).value].typeRef))
  {
  }

  lemma {:induction false} ScalarElaborates(model: Model, scope: Scope, references: References, schema: Schema, e: Scalar, depth: nat)
    requires ReferencesResolve(model, scope, references, schema)
    requires DistinctIds(schema) && ScalarOk(e, schema) && ScalarResolved(model, e)
    requires EmitScalar(e, references, depth).Success?
    ensures ElaborateExpr(model, scope, EmitScalar(e, references, depth).value).Some?
    ensures ElaborateExpr(model, scope, EmitScalar(e, references, depth).value).value.1 == e.typeRef
    decreases e
  {
    hide ReferencesResolve, DistinctIds, ElaborateExpr;
    match e.operator
    case ColumnRead(id) =>
      ReferenceReads(model, scope, references, schema, id);
      FindColumnAt(schema, id);
    case Literal(l) => LiteralElaborates(model, scope, l);
    case Navigation(input, navigation) =>
      ScalarElaborates(model, scope, references, schema, input, depth + 1);
      NavigationElaborates(model, scope, EmitScalar(input, references, depth + 1).value, navigation.member.name);
    case Equal(left, right) =>
      ScalarElaborates(model, scope, references, schema, left, depth + 1);
      ScalarElaborates(model, scope, references, schema, right, depth + 1);
      ComparisonElaborates(model, scope, EmitScalar(left, references, depth + 1).value, EmitScalar(right, references, depth + 1).value);
    case Not(input) =>
      var left, right := input.operator.left, input.operator.right;
      NegatedEquality(schema, e);
      ScalarElaborates(model, scope, references, schema, left, depth + 1);
      ScalarElaborates(model, scope, references, schema, right, depth + 1);
      ComparisonElaborates(model, scope, EmitScalar(left, references, depth + 1).value, EmitScalar(right, references, depth + 1).value);
  }

  lemma LiteralElaborates(model: Model, scope: Scope, l: ScalarLiteral)
    requires !l.NullLiteral?
    ensures ElaborateExpr(model, scope, EmitLiteral(l).value).Some?
    ensures ElaborateExpr(model, scope, EmitLiteral(l).value).value.0 == Constant(LiteralValue(l))
    ensures forall e :: LiteralFits(e, l) ==> ElaborateExpr(model, scope, EmitLiteral(l).value).value.1 == e.typeRef
  {
  }

  lemma ComparisonElaborates(model: Model, scope: Scope, x: Expr, y: Expr)
    requires ElaborateExpr(model, scope, x).Some? && ElaborateExpr(model, scope, y).Some?
    ensures var l, r := ElaborateExpr(model, scope, x).value.0, ElaborateExpr(model, scope, y).value.0;
            && ElaborateExpr(model, scope, Chain(EqualRoot(x, y), [])) == Some((Same(l, r), BOOLEAN))
            && ElaborateExpr(model, scope, Chain(NotEqualRoot(x, y), [])) == Some((Differ(l, r), BOOLEAN))
  {
  }

  /** One more property on an expression that already means a value is a navigation. */
  lemma NavigationElaborates(model: Model, scope: Scope, x: Expr, name: string)
    requires ElaborateExpr(model, scope, x).Some?
    requires model.memberAt(ElaborateExpr(model, scope, x).value.1, name).Some?
    ensures var input := ElaborateExpr(model, scope, x).value;
            var m := model.memberAt(input.1, name).value;
            ElaborateExpr(model, scope, Chain(x.root, x.members + [name])) == Some((Navigate(input.0, FactsOfMember(m)), m.target))
  {
    var members := x.members + [name];
    assert members[..|members| - 1] == x.members;
  }

  lemma {:induction false} ScalarMeaning(db: Database, row: Row, model: Model, scope: Scope, references: References, schema: Schema, e: Scalar, depth: nat)
    requires ReferencesResolve(model, scope, references, schema)
    requires DistinctIds(schema) && ScalarOk(e, schema) && ScalarResolved(model, e)
    requires EmitScalar(e, references, depth).Success?
    ensures ElaborateExpr(model, scope, EmitScalar(e, references, depth).value).Some?
    ensures RunCore(db, row, ElaborateExpr(model, scope, EmitScalar(e, references, depth).value).value.0) == Eval(db, Ids(schema), row, e)
    decreases e
  {
    hide ReferencesResolve, DistinctIds, ElaborateExpr;
    ScalarElaborates(model, scope, references, schema, e, depth);
    match e.operator
    case ColumnRead(id) => ReferenceReads(model, scope, references, schema, id);
    case Literal(l) => LiteralElaborates(model, scope, l);
    case Navigation(input, navigation) =>
      ScalarElaborates(model, scope, references, schema, input, depth + 1);
      NavigationElaborates(model, scope, EmitScalar(input, references, depth + 1).value, navigation.member.name);
      ScalarMeaning(db, row, model, scope, references, schema, input, depth + 1);
    case Equal(left, right) =>
      ScalarMeaning(db, row, model, scope, references, schema, left, depth + 1);
      ScalarMeaning(db, row, model, scope, references, schema, right, depth + 1);
      ComparisonElaborates(model, scope, EmitScalar(left, references, depth + 1).value, EmitScalar(right, references, depth + 1).value);
    case Not(input) =>
      var left, right := input.operator.left, input.operator.right;
      NegatedEquality(schema, e);
      ScalarMeaning(db, row, model, scope, references, schema, left, depth + 1);
      ScalarMeaning(db, row, model, scope, references, schema, right, depth + 1);
      ComparisonElaborates(model, scope, EmitScalar(left, references, depth + 1).value, EmitScalar(right, references, depth + 1).value);
  }

  lemma {:induction false} KeepRowsMeaning(db: Database, model: Model, scope: Scope, references: References, schema: Schema, e: Scalar, depth: nat, rows: seq<Row>)
    requires ReferencesResolve(model, scope, references, schema)
    requires DistinctIds(schema) && ScalarOk(e, schema) && ScalarResolved(model, e)
    requires EmitScalar(e, references, depth).Success?
    ensures ElaborateExpr(model, scope, EmitScalar(e, references, depth).value).Some?
    ensures KeepRows(db, ElaborateExpr(model, scope, EmitScalar(e, references, depth).value).value.0, rows) ==
            FilterRows(db, Ids(schema), e, rows)
  {
    ScalarElaborates(model, scope, references, schema, e, depth);
    if rows != [] {
      ScalarMeaning(db, rows[0], model, scope, references, schema, e, depth);
      KeepRowsMeaning(db, model, scope, references, schema, e, depth, rows[1..]);
    }
  }

  // ---------- steps ----------

  lemma AddStepEvaluates(db: Database, model: Model, q: Query, step: Step)
    requires EvaluateQuery(db, model, q).Some?
    ensures EvaluateQuery(db, model, AddStep(q, step)) == Apply(db, model, EvaluateQuery(db, model, q).value, step)
  {
    var steps := q.steps + [step];
    assert steps[..|steps| - 1] == q.steps;
  }

  lemma FilterMeaning(db: Database, model: Model, r: Relation, source: Relation, condition: Scalar, input: Emitted, names: seq<string>, depth: nat)
    requires Valid(r) && Valid(source) && r.operator == Filter(source, condition) && ScalarResolved(model, condition)
    requires NamesFit(names, source.schema, input.binding)
    requires EvaluateQuery(db, model, input.query) == Some(NamedTable(db, source, input.binding, names))
    requires EmitFilter(r, source, condition, input, depth).Success?
    ensures var em := EmitFilter(r, source, condition, input, depth).value;
            && NamesFit(names, r.schema, em.binding)
            && EvaluateQuery(db, model, em.query) == Some(NamedTable(db, r, em.binding, names))
  {
    hide EvaluateQuery, Valid, EmitScalar, ReferencesFor, NamedTypes, Under, ParameterShape;
    ShapeIsKept(db, source, input.binding, names);
    var em := EmitFilter(r, source, condition, input, depth).value;
    var binder := Binder(input.nextBinder);
    var references := ReferencesFor(input.binding, source.schema, binder).value;
    ValidUnfolds(r);
    ValidUnfolds(source);
    ReferencesForResolve(model, input.binding, source.schema, binder);
    var shape := ParameterShape(Table(NamedTypes(source.schema), KindOf(input.binding), [])).value;
    KeepRowsMeaning(db, model, map[binder := (shape, 0)], references, source.schema, condition, depth, Denote(db, source));
    AddStepEvaluates(db, model, input.query, FilterStep(binder, EmitScalar(condition, references, depth).value));
  }

  lemma ValidUnfolds(r: Relation)
    requires Valid(r)
    ensures DistinctIds(r.schema) && OperatorOk(r.operator, r.schema)
  {
  }

  /** `->map` returns the projected rows in a column called `value`, whatever
      the names of its input. */
  lemma MapMeaning(db: Database, model: Model, r: Relation, source: Relation, projections: seq<Projection>, input: Emitted, names: seq<string>, depth: nat)
    requires Valid(r) && Valid(source) && r.operator == Project(source, projections, ScalarProjection)
    requires |r.schema| == |projections|
    requires forall p :: p in projections ==> ScalarResolved(model, p.expression)
    requires NamesFit(names, source.schema, input.binding)
    requires EvaluateQuery(db, model, input.query) == Some(NamedTable(db, source, input.binding, names))
    requires EmitMap(r, source, projections, input, depth).Success?
    ensures var em := EmitMap(r, source, projections, input, depth).value;
            && NamesFit([MAP_VALUE_COLUMN_NAME], r.schema, em.binding)
            && EvaluateQuery(db, model, em.query) == Some(NamedTable(db, r, em.binding, [MAP_VALUE_COLUMN_NAME]))
  {
    hide EvaluateQuery, Valid, EmitScalar, ReferencesFor, ElaborateExpr;
    ShapeIsKept(db, source, input.binding, names);
    var e := projections[0].expression;
    var binder := Binder(input.nextBinder);
    var references := ReferencesFor(input.binding, source.schema, binder).value;
    ValidUnfolds(r);
    ValidUnfolds(source);
    ReferencesForResolve(model, input.binding, source.schema, binder);
    var shape := ParameterShape(Table(NamedTypes(source.schema), KindOf(input.binding), [])).value;
    var scope := map[binder := (shape, 0)];
    var x := EmitScalar(e, references, depth).value;
    ScalarElaborates(model, scope, references, source.schema, e, depth);
    var core := ElaborateExpr(model, scope, x).value.0;
    var rows := Denote(db, source);
    forall i | 0 <= i < |rows| ensures RunCores(db, [core], rows[i]) == ProjectRow(db, Ids(source.schema), projections, rows[i]) {
      ScalarMeaning(db, rows[i], model, scope, references, source.schema, e, depth);
    }
    assert MapRows(db, [core], rows) == ProjectRows(db, Ids(source.schema), projections, rows);
    assert Under([MAP_VALUE_COLUMN_NAME], r.schema) == [(MAP_VALUE_COLUMN_NAME, e.typeRef)];
    AddStepEvaluates(db, model, input.query, MapStep(binder, x));
  }

  lemma OneColumnMapped(r: Relation, source: Relation, projections: seq<Projection>, input: Emitted, depth: nat)
    requires EmitProject(r, source, projections, ScalarProjection, input, depth).Success?
    ensures EmitProject(r, source, projections, ScalarProjection, input, depth) == EmitMap(r, source, projections, input, depth)
    ensures |r.schema| == |projections| == 1
  {
    hide EmitScalar, ReferencesFor;
  }

  lemma ScalarProjectMeaning(db: Database, model: Model, r: Relation, source: Relation, projections: seq<Projection>, input: Emitted, names: seq<string>, depth: nat)
    requires Valid(r) && Valid(source) && r.operator == Project(source, projections, ScalarProjection)
    requires forall p :: p in projections ==> ScalarResolved(model, p.expression)
    requires NamesFit(names, source.schema, input.binding)
    requires EvaluateQuery(db, model, input.query) == Some(NamedTable(db, source, input.binding, names))
    requires EmitProject(r, source, projections, ScalarProjection, input, depth).Success?
    ensures var em := EmitProject(r, source, projections, ScalarProjection, input, depth).value;
            && NamesFit([MAP_VALUE_COLUMN_NAME], r.schema, em.binding)
            && EvaluateQuery(db, model, em.query) == Some(NamedTable(db, r, em.binding, [MAP_VALUE_COLUMN_NAME]))
  {
    hide EvaluateQuery, Valid, EmitMap, NamedTable, NamesFit, ScalarResolved;
    OneColumnMapped(r, source, projections, input, depth);
    MapMeaning(db, model, r, source, projections, input, names, depth);
  }

  lemma {:induction false} SpecsMeaning(db: Database, model: Model, shape: Shape, references: References, source: Schema,
                                        ps: seq<Projection>, schema: Schema, binder: string, depth: nat)
    requires ReferencesResolve(model, map[binder := (shape, 0)], references, source) && DistinctIds(source)
    requires |ps| == |schema|
    requires forall i :: 0 <= i < |ps| ==> ScalarOk(ps[i].expression, source) && ScalarResolved(model, ps[i].expression)
                                            && ps[i].expression.typeRef == schema[i].typeRef
    requires EmitSpecs(ps, schema, references, binder, depth).Success?
    ensures var specs := EmitSpecs(ps, schema, references, binder, depth).value;
            && ElaborateSpecs(model, shape, specs).Some?
            && ElaborateSpecs(model, shape, specs).value.1 == NamedTypes(schema)
            && |ElaborateSpecs(model, shape, specs).value.0| == |ps|
            && forall row, i :: 0 <= i < |ps| ==>
                 RunCore(db, row, ElaborateSpecs(model, shape, specs).value.0[i]) == Eval(db, Ids(source), row, ps[i].expression)
    decreases |ps|
  {
    hide ReferencesResolve, EmitScalar, ElaborateExpr, RunCore, Eval, ScalarError, ScalarResolved;
    if ps != [] {
      var scope := map[binder := (shape, 0)];
      var e := ps[0].expression;
      ScalarElaborates(model, scope, references, source, e, depth);
      SpecsMeaning(db, model, shape, references, source, ps[1..], schema[1..], binder, depth);
      assert NamedTypes(schema) == [(schema[0].name, schema[0].typeRef)] + NamedTypes(schema[1..]);
      var cores := ElaborateSpecs(model, shape, EmitSpecs(ps, schema, references, binder, depth).value).value.0;
      var others := ElaborateSpecs(model, shape, EmitSpecs(ps[1..], schema[1..], references, binder, depth).value).value.0;
      assert EmitSpecs(ps, schema, references, binder, depth).value[1..] == EmitSpecs(ps[1..], schema[1..], references, binder, depth).value;
      forall row, i | 0 <= i < |ps| ensures RunCore(db, row, cores[i]) == Eval(db, Ids(source), row, ps[i].expression) {
        if i == 0 {
          ScalarMeaning(db, row, model, scope, references, source, e, depth);
        } else {
          assert cores[i] == others[i - 1] && ps[i] == ps[1..][i - 1];
        }
      }
    }
  }

  lemma RelationProjected(r: Relation, source: Relation, projections: seq<Projection>, input: Emitted, depth: nat)
    requires EmitProject(r, source, projections, RelationProjection, input, depth).Success?
    ensures |projections| == |r.schema|
    ensures EmitProject(r, source, projections, RelationProjection, input, depth) == EmitRelationProject(r, source, projections, input, depth)
  {
    hide EmitScalar, EmitSpecs, ReferencesFor;
  }

  lemma RelationProjectMeaning(db: Database, model: Model, r: Relation, source: Relation, projections: seq<Projection>, input: Emitted, names: seq<string>, depth: nat)
    requires Valid(r) && Valid(source) && r.operator == Project(source, projections, RelationProjection)
    requires forall p :: p in projections ==> ScalarResolved(model, p.expression)
    requires NamesFit(names, source.schema, input.binding)
    requires EvaluateQuery(db, model, input.query) == Some(NamedTable(db, source, input.binding, names))
    requires |projections| == |r.schema| && EmitRelationProject(r, source, projections, input, depth).Success?
    ensures var em := EmitRelationProject(r, source, projections, input, depth).value;
            && NamesFit(ColumnNames(r.schema), r.schema, em.binding)
            && EvaluateQuery(db, model, em.query) == Some(NamedTable(db, r, em.binding, ColumnNames(r.schema)))
  {
    hide EvaluateQuery, Valid, EmitSpecs, ReferencesFor, ElaborateSpecs, RunCore, Eval, ScalarError, ScalarResolved, NamesAreUnique, DistinctIds, NamedTypes, ParameterShape;
    ShapeIsKept(db, source, input.binding, names);
    OwnNames(r.schema);
    var binder := Binder(input.nextBinder);
    var references := ReferencesFor(input.binding, source.schema, binder).value;
    ValidUnfolds(r);
    ValidUnfolds(source);
    ReferencesForResolve(model, input.binding, source.schema, binder);
    var shape := ParameterShape(Table(NamedTypes(source.schema), KindOf(input.binding), [])).value;
    SpecsMeaning(db, model, shape, references, source.schema, projections, r.schema, binder, depth);
    var specs := EmitSpecs(projections, r.schema, references, binder, depth).value;
    var cores := ElaborateSpecs(model, shape, specs).value.0;
    var rows := Denote(db, source);
    forall i | 0 <= i < |rows| ensures RunCores(db, cores, rows[i]) == ProjectRow(db, Ids(source.schema), projections, rows[i]) {
    }
    assert MapRows(db, cores, rows) == ProjectRows(db, Ids(source.schema), projections, rows);
    AddStepEvaluates(db, model, input.query, ProjectStep(specs));
  }

  /** Two one-column references side by side resolve in the joined row. */
  lemma JoinReferencesResolve(model: Model, left: Schema, right: Schema, l: string, r: string)
    requires |left| == 1 && |right| == 1 && l != r && DistinctIds(left + right)
    ensures var scope := map[l := (ElementShape(left[0].typeRef), 0), r := (ElementShape(right[0].typeRef), 1)];
            ReferencesResolve(model, scope, map[left[0].id := Chain(Variable(l), [])] + map[right[0].id := Chain(Variable(r), [])], left + right)
  {
    var ids := Ids(left + right);
    assert ids[0] == left[0].id && ids[1] == right[0].id;
    assert NoRepeats(ids);
    PositionOf(ids, 0);
    PositionOf(ids, 1);
  }

  lemma BindersDiffer(a: nat, b: nat)
    requires a != b
    ensures Binder(a) != Binder(b)
  {
    if Binder(a) == Binder(b) {
      assert Binder(a)[1..] == Decimal(a) && Binder(b)[1..] == Decimal(b);
      DecimalInjective(a, b);
    }
  }

  lemma SchemasJoined(left: Schema, right: Schema)
    ensures Ids(left + right) == Ids(left) + Ids(right)
    ensures NamedTypes(left + right) == NamedTypes(left) + NamedTypes(right)
  {
  }

  lemma JoinApplies(db: Database, model: Model, t: Table, u: Table, right: Query, grouped: bool, l: string, r: string, x: Expr)
    requires EvaluateQuery(db, model, right) == Some(u)
    requires t.kind == ElementKind && u.kind == ElementKind && |t.columns| == 1 && |u.columns| == 1 && l != r
    requires ElaborateExpr(model, map[l := (ElementShape(t.columns[0].1), 0), r := (ElementShape(u.columns[0].1), 1)], x).Some?
    ensures var core := ElaborateExpr(model, map[l := (ElementShape(t.columns[0].1), 0), r := (ElementShape(u.columns[0].1), 1)], x).value.0;
            Apply(db, model, t, JoinStep(right, grouped, l, r, x)) ==
            Some(Table(t.columns + u.columns, PairKind, KeepRows(db, core, PairRows(t.rows, u.rows))))
  {
    hide EvaluateQuery, ElaborateExpr;
  }

  lemma JoinMeaning(db: Database, model: Model, r: Relation, left: Relation, right: Relation, condition: Scalar, l: Emitted, rr: Emitted,
                    names: seq<string>, others: seq<string>, depth: nat)
    requires Valid(r) && Valid(left) && Valid(right) && r.operator == Join(Inner, left, right, condition) && ScalarResolved(model, condition)
    requires NamesFit(names, left.schema, l.binding) && NamesFit(others, right.schema, rr.binding)
    requires EvaluateQuery(db, model, l.query) == Some(NamedTable(db, left, l.binding, names))
    requires EvaluateQuery(db, model, rr.query) == Some(NamedTable(db, right, rr.binding, others))
    requires EmitJoin(r, left, right, condition, l, rr, depth).Success?
    ensures var em := EmitJoin(r, left, right, condition, l, rr, depth).value;
            && NamesFit(names + others, r.schema, em.binding)
            && EvaluateQuery(db, model, em.query) == Some(NamedTable(db, r, em.binding, names + others))
  {
    hide EvaluateQuery, Valid, EmitScalar, Binder, KeepRows, FilterRows, PairRows, ReferencesResolve, ElaborateExpr, ScalarError, Apply, NamedTypes, Ids, DistinctIds, ScalarResolved,
         ScanRows, ProjectRows, FirstOccurrences, SelectRows, SortRows, Places, OrderingOf, Describe, SelectionOk, SortKeysOk, ProjectionColumnsFit, IsBoolean;
    var lb, rb := Binder(rr.nextBinder), Binder(rr.nextBinder + 1);
    BindersDiffer(rr.nextBinder, rr.nextBinder + 1);
    ValidUnfolds(r);
    JoinReferencesResolve(model, left.schema, right.schema, lb, rb);
    var references := map[left.schema[0].id := Chain(Variable(lb), [])] + map[right.schema[0].id := Chain(Variable(rb), [])];
    var scope := map[lb := (ElementShape(left.schema[0].typeRef), 0), rb := (ElementShape(right.schema[0].typeRef), 1)];
    var pairs := PairRows(Denote(db, left), Denote(db, right));
    KeepRowsMeaning(db, model, scope, references, left.schema + right.schema, condition, depth, pairs);
    SchemasJoined(left.schema, right.schema);
    assert Under(names + others, left.schema + right.schema) == Under(names, left.schema) + Under(others, right.schema);
    var x := EmitScalar(condition, references, depth).value;
    JoinApplies(db, model, NamedTable(db, left, l.binding, names), NamedTable(db, right, rr.binding, others), rr.query, false, lb, rb, x);
    AddStepEvaluates(db, model, l.query, JoinStep(rr.query, false, lb, rb, x));
  }

  /** A column with a name of its own is found, and no other. */
  lemma OnceFound(columns: seq<NamedType>, name: string, p: nat)
    requires p < |columns| && columns[p].0 == name && forall k :: 0 <= k < |columns| && columns[k].0 == name ==> k == p
    ensures PlaceOfName(columns, name) == Some(p)
  {
    var first := FirstNamed(columns, name);
    assert first == Some(p);
    var tail := columns[p + 1..];
    assert forall m :: 0 <= m < |tail| ==> tail[m] == columns[p + 1 + m];
  }

  lemma TwiceNotFound(columns: seq<NamedType>, name: string, k: nat, m: nat)
    requires k < m < |columns| && columns[k].0 == name == columns[m].0
    ensures PlaceOfName(columns, name) == None
  {
    FirstIsFirst(columns, name, k);
    var first := FirstNamed(columns, name).value;
    assert columns[first + 1..][m - first - 1] == columns[m];
    FirstIsFirst(columns[first + 1..], name, m - first - 1);
  }

  /** A printed name finds the column it was printed for, or nothing. */
  lemma NamedPlace(names: seq<string>, schema: Schema, binding: BindingKind, p: nat)
    requires NamesFit(names, schema, binding) && NamesAreUnique(schema) && p < |schema|
    ensures PlaceOfName(Under(names, schema), schema[p].name) == if NamedOnce(names, schema[p].name) then Some(p) else None
  {
    hide PlaceOfName;
    var columns, name := Under(names, schema), schema[p].name;
    assert forall k :: 0 <= k < |names| ==> columns[k].0 == names[k];
    if NamedOnce(names, name) {
      var k :| 0 <= k < |names| && names[k] == name;
      assert k == p;
      OnceFound(columns, name, p);
    } else if k :| 0 <= k < |names| && names[k] == name {
      var m :| 0 <= m < |names| && m != k && names[m] == name;
      TwiceNotFound(columns, name, if k < m then k else m, if k < m then m else k);
    } else {
      hide PlaceOfName, NamedOnce, NamesFit, NamesAreUnique;
      NeverFound(columns, name);
    }
  }

  lemma NeverFound(columns: seq<NamedType>, name: string)
    requires forall k :: 0 <= k < |columns| ==> columns[k].0 != name
    ensures PlaceOfName(columns, name) == None
  {
  }

  lemma {:induction false} FirstIsFirst(columns: seq<NamedType>, name: string, m: nat)
    requires m < |columns| && columns[m].0 == name
    ensures FirstNamed(columns, name).Some? && FirstNamed(columns, name).value <= m
  {
    if columns[0].0 != name {
      FirstIsFirst(columns[1..], name, m - 1);
    }
  }

  lemma {:induction false} SelectorsMeaning(names: seq<string>, schema: Schema, binding: BindingKind, columns: seq<ColumnId>)
    requires DistinctIds(schema) && NamesAreUnique(schema) && NamesFit(names, schema, binding) && SelectorNames(columns, schema).Some?
    ensures var printed := SelectorNames(columns, schema).value;
            var places := PlacesOfNames(Under(names, schema), printed);
            && |printed| == |columns|
            && (places.Some? <==> forall i :: 0 <= i < |printed| ==> NamedOnce(names, printed[i]))
            && (places.Some? ==> |places.value| == |columns| && forall i :: 0 <= i < |columns| ==> Position(Ids(schema), columns[i]) == Some(places.value[i]))
  {
    hide NamesFit, NamedOnce, NamesAreUnique, DistinctIds, PlaceOfName, Under, Position, FindColumn;
    if columns != [] {
      SelectorsMeaning(names, schema, binding, columns[1..]);
      FindColumnAt(schema, columns[0]);
      NamedPlace(names, schema, binding, Position(Ids(schema), columns[0]).value);
      var printed, others := SelectorNames(columns, schema).value, SelectorNames(columns[1..], schema).value;
      assert printed == [printed[0]] + others && printed[1..] == others;
      if forall i :: 0 <= i < |printed| ==> NamedOnce(names, printed[i]) {
        forall i | 0 <= i < |others| ensures NamedOnce(names, others[i]) {
          assert others[i] == printed[i + 1];
        }
      }
    }
  }

  /** The printed selectors are the selected columns' names. */
  lemma {:induction false} SelectorNamesAt(columns: seq<ColumnId>, schema: Schema)
    requires SelectorNames(columns, schema).Some?
    ensures var printed := SelectorNames(columns, schema).value;
            |printed| == |columns| && forall i :: 0 <= i < |columns| ==>
              FindColumn(schema, columns[i]).Some? && printed[i] == FindColumn(schema, columns[i]).value.name
  {
    hide FindColumn;
    if columns != [] {
      SelectorNamesAt(columns[1..], schema);
    }
  }

  /** A selection returns the selected rows exactly when each printed name is that of one column. */
  lemma DistinctOnMeaning(db: Database, model: Model, r: Relation, source: Relation, columns: seq<ColumnId>, input: Emitted, names: seq<string>)
    requires Valid(r) && Valid(source) && r.operator == DistinctOn(source, columns)
    requires NamesFit(names, source.schema, input.binding)
    requires EvaluateQuery(db, model, input.query) == Some(NamedTable(db, source, input.binding, names))
    requires EmitDistinctOn(r, source, columns, input).Success?
    ensures var em := EmitDistinctOn(r, source, columns, input).value;
            var resolved := forall i :: 0 <= i < |r.schema| ==> NamedOnce(names, r.schema[i].name);
            && NamesFit(ColumnNames(r.schema), r.schema, em.binding)
            && EvaluateQuery(db, model, em.query) ==
               if resolved then Some(NamedTable(db, r, em.binding, ColumnNames(r.schema))) else None
  {
    hide EvaluateQuery, Valid, SelectRows, PlacesOfNames, SelectorNames, FirstOccurrences, NamesAreUnique, ScanRows, FilterRows, SortRows, PairRows, ProjectRows, Eval,
         Position, FindColumn, Describe, SortKeysOk, ProjectionColumnsFit, IsBoolean, ScalarError, NamedOnce;
    ValidUnfolds(r);
    ValidUnfolds(source);
    SelectorsMeaning(names, source.schema, input.binding, columns);
    SelectorNamesAt(columns, source.schema);
    SelectedWidth(columns, source.schema);
    var printed := SelectorNames(columns, source.schema).value;
    AddStepEvaluates(db, model, input.query, DistinctOnStep(printed));
    forall i | 0 <= i < |columns| ensures printed[i] == r.schema[i].name {
      assert FindColumn(source.schema, columns[i]).value == r.schema[i];
    }
    var places := PlacesOfNames(Under(names, source.schema), printed);
    PlacesInRange(Under(names, source.schema), printed);
    if places.Some? {
      assert AsPlaces(places.value) == Places(Ids(source.schema), columns);
      PickedColumns(names, source.schema, input.binding, columns, printed, places.value, r.schema);
    }
  }

  lemma PickedColumns(names: seq<string>, source: Schema, binding: BindingKind, columns: seq<ColumnId>, printed: seq<string>, places: seq<nat>, schema: Schema)
    requires NamesFit(names, source, binding) && DistinctIds(source) && |printed| == |columns| == |places| == |schema|
    requires PlacesOfNames(Under(names, source), printed) == Some(places) && forall p :: p in places ==> p < |source|
    requires forall i :: 0 <= i < |columns| ==>
               && Position(Ids(source), columns[i]) == Some(places[i])
               && FindColumn(source, columns[i]) == Some(schema[i]) && printed[i] == schema[i].name
    ensures PickColumns(Under(names, source), places) == Under(ColumnNames(schema), schema)
  {
    hide DistinctIds, Position, FindColumn, PlacesOfNames, PlaceOfName;
    PlacesAreNamed(Under(names, source), printed);
    forall i | 0 <= i < |places| ensures Under(names, source)[places[i]] == Under(ColumnNames(schema), schema)[i] {
      FindColumnAt(source, columns[i]);
      assert places[i] in places;
    }
  }

  lemma {:induction false} PlacesAreNamed(columns: seq<NamedType>, names: seq<string>)
    requires PlacesOfNames(columns, names).Some?
    ensures var places := PlacesOfNames(columns, names).value;
            |places| == |names| && forall i :: 0 <= i < |names| ==> places[i] < |columns| && columns[places[i]].0 == names[i]
  {
    if names != [] {
      PlacesAreNamed(columns, names[1..]);
    }
  }

  lemma {:induction false} KeysMeaning(names: seq<string>, schema: Schema, binding: BindingKind, keys: seq<SortKey>)
    requires DistinctIds(schema) && NamesAreUnique(schema) && NamesFit(names, schema, binding) && EmitKeys(keys, schema).Some?
    ensures NamedOrdering(Under(names, schema), EmitKeys(keys, schema).value) ==
            if KeysResolve(names, schema, keys) then Some(OrderingOf(Ids(schema), keys)) else None
  {
    hide FirstNamed, DistinctIds, NamesAreUnique, NamesFit, NamedOnce, PlaceOfName, Under, FindColumn, Position;
    if keys != [] {
      KeysMeaning(names, schema, binding, keys[1..]);
      FindColumnAt(schema, keys[0].column);
      NamedPlace(names, schema, binding, Position(Ids(schema), keys[0].column).value);
      var specs := EmitKeys(keys, schema).value;
      assert specs[1..] == EmitKeys(keys[1..], schema).value;
      assert specs[0].direction == keys[0].direction;
      KeysResolveStepwise(names, schema, keys);
      assert OrderingOf(Ids(schema), keys) == [(Position(Ids(schema), keys[0].column), keys[0].direction)] + OrderingOf(Ids(schema), keys[1..]);
    }
  }

  lemma KeysResolveStepwise(names: seq<string>, schema: Schema, keys: seq<SortKey>)
    requires keys != []
    ensures KeysResolve(names, schema, keys) <==>
            && FindColumn(schema, keys[0].column).Some? && NamedOnce(names, FindColumn(schema, keys[0].column).value.name)
            && KeysResolve(names, schema, keys[1..])
  {
    hide FindColumn, NamedOnce;
    var others := keys[1..];
    if KeysResolve(names, schema, keys) {
      forall i | 0 <= i < |others|
        ensures FindColumn(schema, others[i].column).Some? && NamedOnce(names, FindColumn(schema, others[i].column).value.name) {
        assert others[i] == keys[i + 1];
      }
    }
    if KeysResolve(names, schema, others) {
      forall i | 0 < i < |keys|
        ensures FindColumn(schema, keys[i].column).Some? && NamedOnce(names, FindColumn(schema, keys[i].column).value.name) {
        assert keys[i] == others[i - 1];
      }
    }
  }

  lemma SortMeaning(db: Database, model: Model, r: Relation, source: Relation, keys: seq<SortKey>, input: Emitted, names: seq<string>)
    requires Valid(r) && Valid(source) && r.operator == Sort(source, keys)
    requires NamesFit(names, source.schema, input.binding)
    requires EvaluateQuery(db, model, input.query) == Some(NamedTable(db, source, input.binding, names))
    requires EmitSort(r, source, keys, input).Success?
    ensures var em := EmitSort(r, source, keys, input).value;
            && NamesFit(names, r.schema, em.binding)
            && EvaluateQuery(db, model, em.query) ==
               if KeysResolve(names, source.schema, keys) then Some(NamedTable(db, r, em.binding, names)) else None
  {
    hide EvaluateQuery, Valid, NamedOrdering, EmitKeys, NamesAreUnique, SortRows, OrderingOf, KeysResolve, NamesFit, Under;
    ValidUnfolds(r);
    ValidUnfolds(source);
    KeysMeaning(names, source.schema, input.binding, keys);
    AddStepEvaluates(db, model, input.query, SortStep(EmitKeys(keys, source.schema).value));
  }

  lemma DistinctMeaning(db: Database, model: Model, r: Relation, source: Relation, input: Emitted, names: seq<string>)
    requires Valid(r) && Valid(source) && r.operator == Distinct(source)
    requires NamesFit(names, source.schema, input.binding)
    requires EvaluateQuery(db, model, input.query) == Some(NamedTable(db, source, input.binding, names))
    requires EmitDistinct(r, source, input).Success?
    ensures var em := EmitDistinct(r, source, input).value;
            && NamesFit(names, r.schema, em.binding)
            && EvaluateQuery(db, model, em.query) == Some(NamedTable(db, r, em.binding, names))
  {
    hide EvaluateQuery, Valid;
    AddStepEvaluates(db, model, input.query, DistinctStep);
  }

  lemma ScanMeaning(db: Database, model: Model, r: Relation, c: ResolvedClass, next: nat)
    requires r.operator == Scan(c) && Resolved(model, r)
    requires EmitScan(r, c, next).Success?
    ensures var em := EmitScan(r, c, next).value;
            && NamesFit(ColumnNames(r.schema), r.schema, em.binding)
            && EvaluateQuery(db, model, em.query) == Some(NamedTable(db, r, em.binding, ColumnNames(r.schema)))
  {
    assert Describe(r.schema) == [ColumnFacts(SimpleName(c.path), TypeRef(c.path, []), EXACTLY_ONE, NullabilityUnknown)];
    OwnNames(r.schema);
    assert NamedTypes(r.schema) == [(SimpleName(c.path), TypeRef(c.path, []))];
  }

  /** What the emitted query returns, whatever its columns are called: the
      relation's rows under the emitted names, or nothing when a printed name
      is not that of exactly one column. */
  ghost predicate Returned(db: Database, model: Model, r: Relation, em: Emitted) {
    match EmittedNames(r)
    case None => EvaluateQuery(db, model, em.query).None?
    case Some(names) =>
      NamesFit(names, r.schema, em.binding) && EvaluateQuery(db, model, em.query) == Some(NamedTable(db, r, em.binding, names))
  }

  lemma NothingReturned(db: Database, model: Model, q: Query, step: Step)
    requires EvaluateQuery(db, model, q).None?
    ensures EvaluateQuery(db, model, AddStep(q, step)).None?
  {
    var steps := q.steps + [step];
    assert steps[..|steps| - 1] == q.steps;
  }

  /** A step over an input that returns nothing returns nothing. */
  lemma UnaryReturnsNothing(db: Database, model: Model, r: Relation, input: Relation, next: nat, depth: nat)
    requires EmitRelation(r, next, depth).Success? && !r.operator.Scan? && !r.operator.Join? && r.operator.input == input
    requires EmitRelation(input, next, depth + 1).Success?
    requires EvaluateQuery(db, model, EmitRelation(input, next, depth + 1).value.query).None?
    ensures EvaluateQuery(db, model, EmitRelation(r, next, depth).value.query).None?
  {
    hide EvaluateQuery, EmitScalar, EmitSpecs, ReferencesFor, SelectorNames, EmitKeys, NamesAreUnique, Binder;
    var i := EmitRelation(input, next, depth + 1).value;
    var em := EmitRelation(r, next, depth).value;
    var step := em.query.steps[|em.query.steps| - 1];
    assert em.query == AddStep(i.query, step);
    NothingReturned(db, model, i.query, step);
  }

  lemma JoinReturnsNothing(db: Database, model: Model, r: Relation, next: nat, depth: nat)
    requires EmitRelation(r, next, depth).Success? && r.operator.Join?
    requires EmitRelation(r.operator.left, next, depth + 1).Success?
    requires EmitRelation(r.operator.right, EmitRelation(r.operator.left, next, depth + 1).value.nextBinder, depth + 1).Success?
    requires var l := EmitRelation(r.operator.left, next, depth + 1).value;
             || EvaluateQuery(db, model, l.query).None?
             || EvaluateQuery(db, model, EmitRelation(r.operator.right, l.nextBinder, depth + 1).value.query).None?
    ensures EvaluateQuery(db, model, EmitRelation(r, next, depth).value.query).None?
  {
    hide EvaluateQuery, EmitScalar, ReferencesFor, Binder;
    var l := EmitRelation(r.operator.left, next, depth + 1).value;
    var em := EmitRelation(r, next, depth).value;
    var step := em.query.steps[|em.query.steps| - 1];
    assert em.query == AddStep(l.query, step);
    if EvaluateQuery(db, model, l.query).None? {
      NothingReturned(db, model, l.query, step);
    } else {
      AddStepEvaluates(db, model, l.query, step);
    }
  }

  /** Emission preserves meaning: the emitted query, its names resolved afresh,
      returns the relation's rows under exactly the emitted names, or nothing
      exactly when those names do not resolve. */
  lemma {:induction false} EmissionReturnsExactly(db: Database, model: Model, r: Relation, next: nat, depth: nat)
    requires Valid(r) && Resolved(model, r) && EmitRelation(r, next, depth).Success?
    ensures Returned(db, model, r, EmitRelation(r, next, depth).value)
    decreases r
  {
    hide EvaluateQuery, NamedTable, NamesFit, EmitScan, EmitFilter, EmitProject, EmitJoin, EmitDistinct, EmitDistinctOn, EmitSort, KeysResolve, NamedOnce, Under,
         ColumnNames, OperatorOk, DistinctIds, KeysInScope, ScalarResolved;
    var d := depth + 1;
    match r.operator
    case Scan(c) => ScanMeaning(db, model, r, c, next);
    case Join(_, left, right, condition) =>
      EmissionReturnsExactly(db, model, left, next, d);
      var l := EmitRelation(left, next, d).value;
      EmissionReturnsExactly(db, model, right, l.nextBinder, d);
      if EmittedNames(left).Some? && EmittedNames(right).Some? {
        JoinMeaning(db, model, r, left, right, condition, l, EmitRelation(right, l.nextBinder, d).value, EmittedNames(left).value, EmittedNames(right).value, d);
      } else {
        JoinReturnsNothing(db, model, r, next, depth);
      }
    case _ =>
      var input := r.operator.input;
      EmissionReturnsExactly(db, model, input, next, d);
      if EmittedNames(input).None? {
        UnaryReturnsNothing(db, model, r, input, next, depth);
      } else {
        UnaryReturned(db, model, r, next, depth);
      }
  }

  lemma UnaryReturned(db: Database, model: Model, r: Relation, next: nat, depth: nat)
    requires Valid(r) && Resolved(model, r) && EmitRelation(r, next, depth).Success? && !r.operator.Scan? && !r.operator.Join?
    requires EmitRelation(r.operator.input, next, depth + 1).Success?
    requires EmittedNames(r.operator.input).Some? && Returned(db, model, r.operator.input, EmitRelation(r.operator.input, next, depth + 1).value)
    ensures Returned(db, model, r, EmitRelation(r, next, depth).value)
  {
    hide EvaluateQuery, NamedTable, NamesFit, EmitScan, EmitFilter, EmitProject, EmitJoin, EmitDistinct, EmitDistinctOn, EmitSort, KeysResolve, NamedOnce, Under,
         ColumnNames, OperatorOk, DistinctIds, KeysInScope, ScalarResolved;
    var d := depth + 1;
    var i := EmitRelation(r.operator.input, next, d).value;
    var names := EmittedNames(r.operator.input).value;
    match r.operator
    case Filter(input, condition) => FilterMeaning(db, model, r, input, condition, i, names, d);
    case Project(input, projections, kind) =>
      if kind == ScalarProjection {
        ScalarProjectMeaning(db, model, r, input, projections, i, names, d);
      } else {
        RelationProjected(r, input, projections, i, d);
        RelationProjectMeaning(db, model, r, input, projections, i, names, d);
      }
    case Distinct(input) => DistinctMeaning(db, model, r, input, i, names);
    case DistinctOn(input, columns) => DistinctOnMeaning(db, model, r, input, columns, i, names);
    case Sort(input, keys) => SortMeaning(db, model, r, input, keys, i, names);
  }

  /** The emitted query returns the relation's own table, on one database or on
      all, exactly when the emitted names are the schema's. */
  lemma TableKeptExactly(db: Database, model: Model, r: Relation, next: nat, depth: nat)
    requires Valid(r) && Resolved(model, r) && EmitRelation(r, next, depth).Success?
    ensures var em := EmitRelation(r, next, depth).value;
            EvaluateQuery(db, model, em.query) == Some(TableOf(db, r, em.binding)) <==> EmittedNames(r) == Some(ColumnNames(r.schema))
  {
    hide EvaluateQuery, EmitRelation, EmittedNames, Valid, Resolved;
    EmissionReturnsExactly(db, model, r, next, depth);
    OwnNames(r.schema);
    if EmittedNames(r).Some? && |EmittedNames(r).value| == |r.schema| && Under(EmittedNames(r).value, r.schema) == NamedTypes(r.schema) {
      var names := EmittedNames(r).value;
      forall i | 0 <= i < |names| ensures names[i] == ColumnNames(r.schema)[i] {
        assert Under(names, r.schema)[i] == NamedTypes(r.schema)[i];
      }
      assert names == ColumnNames(r.schema);
    }
  }

  /** `value` columns keep every name. */
  lemma {:induction false} ValueColumnsKeepNames(r: Relation, next: nat, depth: nat)
    requires Valid(r) && ScalarColumnsAreValue(r) && EmitRelation(r, next, depth).Success?
    ensures EmittedNames(r) == Some(ColumnNames(r.schema))
    decreases r
  {
    hide EmitScan, EmitFilter, EmitMap, EmitRelationProject, EmitJoin, NamesAreUnique, NamedOnce, SelectorNames, EmitKeys, DistinctIds, KeysInScope, ScalarError,
         FindColumn;
    var d := depth + 1;
    match r.operator
    case Scan(_) =>
    case Filter(input, _) => ValueColumnsKeepNames(input, next, d);
    case Project(input, projections, kind) =>
      ValueColumnsKeepNames(input, next, d);
      if kind == ScalarProjection {
        OneColumnMapped(r, input, projections, EmitRelation(input, next, d).value, d);
        assert r.schema[0] in r.schema;
        assert ColumnNames(r.schema) == [MAP_VALUE_COLUMN_NAME];
      }
    case Join(_, left, right, _) =>
      ValueColumnsKeepNames(left, next, d);
      ValueColumnsKeepNames(right, EmitRelation(left, next, d).value.nextBinder, d);
      assert ColumnNames(left.schema + right.schema) == ColumnNames(left.schema) + ColumnNames(right.schema);
    case Distinct(input) => ValueColumnsKeepNames(input, next, d);
    case DistinctOn(input, columns) =>
      ValueColumnsKeepNames(input, next, d);
      SelectedWidth(columns, input.schema);
      forall i | 0 <= i < |r.schema| ensures NamedOnce(ColumnNames(input.schema), r.schema[i].name) {
        ColumnNamedOnce(input.schema, columns[i]);
      }
    case Sort(input, keys) =>
      ValueColumnsKeepNames(input, next, d);
      forall i | 0 <= i < |keys|
        ensures FindColumn(input.schema, keys[i].column).Some?
        ensures NamedOnce(ColumnNames(input.schema), FindColumn(input.schema, keys[i].column).value.name)
      {
        ColumnNamedOnce(input.schema, keys[i].column);
      }
  }

  lemma ColumnNamedOnce(schema: Schema, id: ColumnId)
    requires NamesAreUnique(schema) && FindColumn(schema, id).Some?
    ensures NamedOnce(ColumnNames(schema), FindColumn(schema, id).value.name)
  {
    var c := FindColumn(schema, id).value;
    var k :| 0 <= k < |schema| && schema[k] == c;
    assert ColumnNames(schema)[k] == c.name;
  }

  /** With `value` columns, the emitted query returns the relation's own table,
      and its next lambda binds what the emitter says it binds. */
  lemma EmissionPreservesMeaning(db: Database, model: Model, r: Relation, next: nat, depth: nat)
    requires Valid(r) && Resolved(model, r) && ScalarColumnsAreValue(r)
    requires EmitRelation(r, next, depth).Success?
    ensures var em := EmitRelation(r, next, depth).value;
            EvaluateQuery(db, model, em.query) == Some(TableOf(db, r, em.binding))
  {
    hide EvaluateQuery, EmitRelation, EmittedNames, Valid, Resolved, ScalarColumnsAreValue;
    ValueColumnsKeepNames(r, next, depth);
    TableKeptExactly(db, model, r, next, depth);
  }

  /** Every relation in the tree, emitted where it stands, returns its own table. */
  ghost predicate TablesKept(db: Database, model: Model, r: Relation, next: nat, depth: nat)
    decreases r
  {
    && EmitRelation(r, next, depth).Success?
    && EvaluateQuery(db, model, EmitRelation(r, next, depth).value.query) ==
       Some(TableOf(db, r, EmitRelation(r, next, depth).value.binding))
    && match r.operator
       case Scan(_) => true
       case Filter(input, _) => TablesKept(db, model, input, next, depth + 1)
       case Project(input, _, _) => TablesKept(db, model, input, next, depth + 1)
       case Join(_, left, right, _) =>
         && TablesKept(db, model, left, next, depth + 1)
         && TablesKept(db, model, right, EmitRelation(left, next, depth + 1).value.nextBinder, depth + 1)
       case Distinct(input) => TablesKept(db, model, input, next, depth + 1)
       case DistinctOn(input, _) => TablesKept(db, model, input, next, depth + 1)
       case Sort(input, _) => TablesKept(db, model, input, next, depth + 1)
  }

  /** Emission keeps every table exactly when each scalar-collection column is
      called `value`; any other name is lost in the printed `->map`. */
  lemma {:induction false} TablesKeptExactly(db: Database, model: Model, r: Relation, next: nat, depth: nat)
    requires Valid(r) && Resolved(model, r) && EmitRelation(r, next, depth).Success?
    ensures TablesKept(db, model, r, next, depth) <==> ScalarColumnsAreValue(r)
    decreases r
  {
    hide EvaluateQuery, TableOf, EmitScan, EmitFilter, EmitProject, EmitJoin, EmitDistinct, EmitDistinctOn, EmitSort, ScalarResolved;
    var d := depth + 1;
    if ScalarColumnsAreValue(r) {
      EmissionPreservesMeaning(db, model, r, next, depth);
    }
    match r.operator
    case Scan(_) =>
    case Filter(input, _) => TablesKeptExactly(db, model, input, next, d);
    case Project(input, projections, kind) =>
      TablesKeptExactly(db, model, input, next, d);
      if kind == ScalarProjection {
        OneColumnMapped(r, input, projections, EmitRelation(input, next, d).value, d);
        TableKeptExactly(db, model, r, next, depth);
        assert r.schema[0] in r.schema;
        assert ColumnNames(r.schema)[0] == r.schema[0].name;
      }
    case Join(_, left, right, _) =>
      TablesKeptExactly(db, model, left, next, d);
      TablesKeptExactly(db, model, right, EmitRelation(left, next, d).value.nextBinder, d);
    case Distinct(input) => TablesKeptExactly(db, model, input, next, d);
    case DistinctOn(input, _) => TablesKeptExactly(db, model, input, next, d);
    case Sort(input, _) => TablesKeptExactly(db, model, input, next, d);
  }
}
