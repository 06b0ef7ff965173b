/** Lowering of surface queries into the typed relational IR.
    Every function returns the state it reaches or the reason it declines. */
module Lowering {
  import opened Basics
  import opened Relational
  import opened Surface
  import opened Canonical

  // ---------- the model resolver ----------

  /** What a model lookup answers; `Undecided` stands for under-resolved, ambiguous and cyclic. */
  datatype Resolution<+T> = Found(value: T) | NotFound | Undecided

  /** A model, as far as lowering asks it: classes by path, members by class path and name. */
  datatype Resolver = Resolver(
    classAt: string -> Resolution<ResolvedClass>,
    memberAt: (string, string) -> Resolution<ResolvedMember>)

  datatype Target = MemberTarget(member: ResolvedMember) | ColumnTarget(column: RowColumn)

  datatype Navigated = Hop(target: Target, value: LocalValue) | HopMissing | HopUndecided | HopWrongArity

  const INTRINSIC_SCALARS := {
    "Any", "Boolean", "Date", "DateTime", "Decimal", "Float", "Integer", "LatestDate", "Number", "StrictDate", "String"}

  const RANGE_CONTEXT_ARGUMENTS: nat := 2

  /** `expected_argument_count`. */
  function ExpectedArguments(m: ResolvedMember): Option<nat> {
    match m.kind
    case Property => Some(0)
    case AssociationEnd(_) => Some(0)
    case Qualified(qp) =>
      match qp
      case UserQualified => (match m.signature case None => None case Some(parameters) => Some(|parameters|))
      case AllVersions => Some(0)
      case AllVersionsInRange => Some(RANGE_CONTEXT_ARGUMENTS)
      case MilestonedPoint => (match m.targetTemporalArity case None => None case Some(n) => Some(n))
  }

  /** `infer_target`. */
  function InferTarget(resolver: Resolver, target: TypeRef, multiplicity: Multiplicity): LocalValue {
    match resolver.classAt(target.rawType)
    case Found(c) => LocalValue(ClassLocal(c), multiplicity)
    case NotFound =>
      if target.rawType in INTRINSIC_SCALARS then LocalValue(ScalarLocal(target), multiplicity)
      else LocalValue(UnknownLocal, multiplicity)
    case Undecided => LocalValue(UnknownLocal, multiplicity)
  }

  /** `RelationRow::column`. */
  function RowColumnNamed(columns: seq<RowColumn>, name: string): Option<RowColumn> {
    if columns == [] then None
    else if columns[0].name == name then Some(columns[0])
    else RowColumnNamed(columns[1..], name)
  }

  /** `NavigationResolver::resolve` for one property step without arguments. */
  function Navigate(resolver: Resolver, source: LocalValue, name: string): Navigated {
    match source.kind
    case ClassLocal(c) =>
      (match resolver.memberAt(c.path, name)
       case NotFound => HopMissing
       case Undecided => HopUndecided
       case Found(m) =>
         match ExpectedArguments(m)
         case None => HopUndecided
         case Some(n) => if n == 0 then Hop(MemberTarget(m), InferTarget(resolver, m.target, m.multiplicity)) else HopWrongArity)
    case RowLocal(columns) =>
      (match RowColumnNamed(columns, name)
       case None => HopMissing
       case Some(c) => Hop(ColumnTarget(c), InferTarget(resolver, c.typeRef, c.multiplicity)))
    case ScalarLocal(_) => HopUndecided
    case UnknownLocal => HopUndecided
  }

  /** `navigation_reason`. */
  function NavigationReason(outcome: Navigated): ReasonCode {
    if outcome.HopUndecided? then ModelIncomplete else IndUnresolvedSchema
  }

  // ---------- origins ----------

  function AddOrigins(seen: seq<ModelOrigin>, more: seq<ModelOrigin>): seq<ModelOrigin> {
    if more == [] then seen
    else
      var earlier := AddOrigins(seen, more[..|more| - 1]);
      var last := more[|more| - 1];
      if last in earlier then earlier else earlier + [last]
  }

  function AllOrigins(origins: seq<IrOrigin>): seq<ModelOrigin> {
    if origins == [] then [] else AddOrigins(AllOrigins(origins[..|origins| - 1]), origins[|origins| - 1].modelOrigins)
  }

  /** `merged_origin_with_models`. */
  function Merged(span: SourceSpan, origins: seq<IrOrigin>, extra: seq<ModelOrigin>): IrOrigin {
    IrOrigin(span, AddOrigins(AllOrigins(origins), extra))
  }

  method AppendOrigins(seen: seq<ModelOrigin>, more: seq<ModelOrigin>) returns (all: seq<ModelOrigin>)
    ensures all == AddOrigins(seen, more)
  {
    all := seen;
    for i := 0 to |more|
      invariant all == AddOrigins(seen, more[..i])
    {
      assert more[..i + 1][..i] == more[..i];
      if more[i] !in all {
        all := all + [more[i]];
      }
    }
    assert more[..|more|] == more;
  }

  method MergeOrigins(span: SourceSpan, origins: seq<IrOrigin>, extra: seq<ModelOrigin>) returns (merged: IrOrigin)
    ensures merged == Merged(span, origins, extra)
  {
    var models: seq<ModelOrigin> := [];
    for i := 0 to |origins|
      invariant models == AllOrigins(origins[..i])
    {
      assert origins[..i + 1][..i] == origins[..i];
      models := AppendOrigins(models, origins[i].modelOrigins);
    }
    assert origins[..|origins|] == origins;
    models := AppendOrigins(models, extra);
    return IrOrigin(span, models);
  }

  // ---------- where a node stands ----------

  /** A node of the surface query by its address, and the source span of every address. */
  datatype Site = Site(spans: seq<nat> -> SourceSpan, address: seq<nat>) {
    function Span(): SourceSpan {
      spans(address)
    }

    function Child(i: nat): Site {
      Site(spans, address + [i])
    }
  }

  // ---------- what is bound while lowering ----------

  type Lowering<+T> = Result<T, ReasonCode>

  datatype BoundColumn = BoundColumn(column: Column, local: LocalValue)

  /** What the next step's lambda parameter stands for. */
  datatype BoundElement = ColumnElement(bound: BoundColumn) | RowElement(local: LocalValue, columns: seq<BoundColumn>)

  datatype RelationState = RelationState(expression: Relation, element: Option<BoundElement>)

  /** A state, and the next free column identity. */
  datatype Allocated = Allocated(state: RelationState, next: u32)

  datatype LoweredScalar = LoweredScalar(expression: Scalar, local: LocalValue)

  datatype LoweredValue = ScalarValue(scalar: LoweredScalar) | RowValue(local: LocalValue, columns: seq<BoundColumn>)

  type Bindings = seq<(string, BoundElement)>

  function Lookup(bindings: Bindings, name: string): Option<BoundElement> {
    if bindings == [] then None
    else if bindings[0].0 == name then Some(bindings[0].1)
    else Lookup(bindings[1..], name)
  }

  function PredicateReason(reason: ReasonCode): ReasonCode {
    if reason == IndUnmodeledOp then IndOpaquePredicate else reason
  }

  function OperatorReason(reason: ReasonCode): ReasonCode {
    if reason == IndOpaquePredicate then IndUnmodeledOp else reason
  }

  function ColumnsOf(columns: seq<BoundColumn>): Schema {
    seq(|columns|, i requires 0 <= i < |columns| => columns[i].column)
  }

  // ---------- scalars ----------

  predicate IsToOne(m: Multiplicity) {
    m.upper == Some(0) || m.upper == Some(1)
  }

  /** The members `ResolvedNavigation::from_chain` accepts. */
  predicate IsNavigable(m: ResolvedMember) {
    (m.kind.Property? || m.kind.AssociationEnd?) && IsToOne(m.multiplicity)
  }

  function ReadColumn(b: BoundColumn, origin: IrOrigin): LoweredScalar {
    LoweredScalar(Scalar(ColumnRead(b.column.id), b.column.typeRef, b.column.multiplicity, b.column.nullability, Unknown, origin), b.local)
  }

  function LowerNavigation(resolver: Resolver, span: SourceSpan, input: LoweredScalar, name: string): Lowering<LoweredScalar> {
    var receiver := LocalValue(input.local.kind, input.expression.multiplicity);
    var outcome := Navigate(resolver, receiver, name);
    if name in RESERVED then Failure(IndUnmodeledOp)
    else if !outcome.Hop? then Failure(NavigationReason(outcome))
    else if outcome.target.ColumnTarget? || !IsNavigable(outcome.target.member) then Failure(IndUnmodeledOp)
    else
      var m := outcome.target.member;
      match ComposeNavigationMultiplicity(input.expression.multiplicity, m.multiplicity)
      case None => Failure(IndUnmodeledOp)
      case Some(multiplicity) =>
        var models := [OriginOfMember(m)] + if outcome.value.kind.ClassLocal? then [OriginOfClass(outcome.value.kind.cls)] else [];
        Success(LoweredScalar(
          Scalar(Navigation(input.expression, ResolvedNavigation(receiver, m)), m.target, multiplicity, NullabilityUnknown, Unknown,
                 Merged(span, [input.expression.origin], models)),
          LocalValue(outcome.value.kind, multiplicity)))
  }

  function LowerRelationColumn(resolver: Resolver, span: SourceSpan, local: LocalValue, columns: seq<BoundColumn>, name: string): Lowering<LoweredScalar> {
    var outcome := Navigate(resolver, local, name);
    if name in RESERVED then Failure(IndOpaquePredicate)
    else if !outcome.Hop? then Failure(NavigationReason(outcome))
    else if !outcome.target.ColumnTarget? then Failure(IndUnresolvedSchema)
    else
      var index := outcome.target.column.id;
      if index < |columns| && columns[index].column.name == name
      then Success(ReadColumn(columns[index], Merged(span, [columns[index].column.origin], [])))
      else Failure(IndUnresolvedSchema)
  }

  function LiteralScalar(span: SourceSpan, literal: ScalarLiteral, typeName: string): LoweredScalar {
    var t := TypeRef(typeName, []);
    LoweredScalar(Scalar(Literal(literal), t, EXACTLY_ONE, NonNullable, Unknown, IrOrigin(span, [])), LocalValue(ScalarLocal(t), EXACTLY_ONE))
  }

  function LowerComparison(span: SourceSpan, left: LoweredScalar, right: LoweredScalar, negated: bool): Lowering<LoweredScalar> {
    if left.expression.typeRef != right.expression.typeRef
       || left.expression.multiplicity != EXACTLY_ONE || right.expression.multiplicity != EXACTLY_ONE
    then Failure(IndOpaquePredicate)
    else
      var t := TypeRef(BOOLEAN_TYPE, []);
      var origin := Merged(span, [left.expression.origin, right.expression.origin], []);
      var equal := Scalar(Equal(left.expression, right.expression), t, EXACTLY_ONE, NonNullable, Unknown, origin);
      var e := if negated then Scalar(Not(equal), t, EXACTLY_ONE, NonNullable, Unknown, origin) else equal;
      Success(LoweredScalar(e, LocalValue(ScalarLocal(t), EXACTLY_ONE)))
  }

  /** `lower_binary`: the left operand is lowered first, so its failure is the one reported. */
  function LowerBinary(span: SourceSpan, left: Lowering<LoweredValue>, right: Lowering<LoweredValue>, negated: bool): Lowering<LoweredValue> {
    match (AsScalar(left), AsScalar(right))
    case (Failure(f), _) => Failure(f)
    case (Success(_), Failure(f)) => Failure(f)
    case (Success(l), Success(r)) => AsValue(LowerComparison(span, l, r, negated))
  }

  /** `lower_scalar_nodes`: a row on its own is no scalar. */
  function AsScalar(r: Lowering<LoweredValue>): Lowering<LoweredScalar> {
    match r
    case Failure(f) => Failure(f)
    case Success(ScalarValue(s)) => Success(s)
    case Success(RowValue(_, _)) => Failure(IndOpaquePredicate)
  }

  function AsValue(r: Lowering<LoweredScalar>): Lowering<LoweredValue> {
    match r
    case Failure(f) => Failure(f)
    case Success(s) => Success(ScalarValue(s))
  }

  /** `lower_value_nodes`: a root, then the properties read from it. The root is
      child 0 of the expression and each property the child of its number. A
      negative integer is no literal but a unary node, which is refused. */
  function LowerValue(resolver: Resolver, site: Site, bindings: Bindings, root: Root, members: seq<string>): Lowering<LoweredValue>
    decreases root, |members|
  {
    if members == [] then
      var node := site.Child(0);
      match root
      case Variable(name) =>
        (match Lookup(bindings, name)
         case None => Failure(IndUnresolvedSchema)
         case Some(ColumnElement(b)) => Success(ScalarValue(ReadColumn(b, Merged(node.Span(), [b.column.origin], []))))
         case Some(RowElement(local, columns)) => Success(RowValue(local, columns)))
      case BooleanRoot(b) => Success(ScalarValue(LiteralScalar(node.Span(), BooleanLiteral(b), BOOLEAN_TYPE)))
      case IntegerRoot(i) =>
        if i < 0 then Failure(IndOpaquePredicate) else Success(ScalarValue(LiteralScalar(node.Span(), IntegerLiteral(i), INTEGER_TYPE)))
      case StringRoot(s) => Success(ScalarValue(LiteralScalar(node.Span(), StringLiteral(s), STRING_TYPE)))
      case EqualRoot(left, right) =>
        LowerBinary(node.Span(), LowerValue(resolver, node.Child(0), bindings, left.root, left.members),
                    LowerValue(resolver, node.Child(1), bindings, right.root, right.members), false)
      case NotEqualRoot(left, right) =>
        LowerBinary(node.Span(), LowerValue(resolver, node.Child(0), bindings, left.root, left.members),
                    LowerValue(resolver, node.Child(1), bindings, right.root, right.members), true)
    else
      var node := site.Child(|members|);
      match LowerValue(resolver, site, bindings, root, members[..|members| - 1])
      case Failure(f) => Failure(f)
      case Success(ScalarValue(input)) => AsValue(LowerNavigation(resolver, node.Span(), input, members[|members| - 1]))
      case Success(RowValue(local, columns)) => AsValue(LowerRelationColumn(resolver, node.Span(), local, columns, members[|members| - 1]))
  }

  function LowerScalar(resolver: Resolver, site: Site, bindings: Bindings, x: Expr): Lowering<LoweredScalar> {
    AsScalar(LowerValue(resolver, site, bindings, x.root, x.members))
  }

  /** `references_column`. */
  predicate ReferencesColumn(e: Scalar, id: ColumnId)
    decreases e
  {
    match e.operator
    case ColumnRead(c) => c == id
    case Literal(_) => false
    case Navigation(input, _) => ReferencesColumn(input, id)
    case Equal(left, right) => ReferencesColumn(left, id) || ReferencesColumn(right, id)
    case Not(input) => ReferencesColumn(input, id)
  }

  // ---------- relations ----------

  /** `RelationExpression::new`, with the reason the caller gives for its refusal. */
  ghost function Construct(operator: RelationOperator, schema: Schema, facts: Facts, origin: IrOrigin, reason: ReasonCode): Lowering<Relation> {
    if OperatorOk(operator, schema) && KeysInScope(facts, schema) then Success(Relation(operator, schema, facts, origin)) else Failure(reason)
  }

  ghost function WithElement(r: Lowering<Relation>, element: Option<BoundElement>): Lowering<RelationState> {
    match r
    case Failure(f) => Failure(f)
    case Success(e) => Success(RelationState(e, element))
  }

  ghost function WithNext(r: Lowering<RelationState>, next: u32): Lowering<Allocated> {
    match r
    case Failure(f) => Failure(f)
    case Success(s) => Success(Allocated(s, next))
  }

  predicate CanAllocate(next: u32) {
    next + 1 < U32_LIMIT
  }

  function ExtentColumn(span: SourceSpan, c: ResolvedClass, id: ColumnId): Column {
    Column(id, SimpleName(c.path), TypeRef(c.path, []), EXACTLY_ONE, NullabilityUnknown, IrOrigin(span, [OriginOfClass(c)]))
  }

  ghost function LowerAll(resolver: Resolver, span: SourceSpan, path: string, next: u32): Lowering<Allocated> {
    match resolver.classAt(path)
    case NotFound => Failure(IndUnresolvedSchema)
    case Undecided => Failure(ModelIncomplete)
    case Found(c) =>
      if !CanAllocate(next) then Failure(IndUnmodeledOp)
      else
        var column := ExtentColumn(span, c, next);
        var element := ColumnElement(BoundColumn(column, LocalValue(ClassLocal(c), EXACTLY_ONE)));
        WithNext(WithElement(Construct(Scan(c), [column], UNKNOWN_FACTS, column.origin, IndUnmodeledOp), Some(element)), next + 1)
  }

  ghost function LowerFilter(resolver: Resolver, site: Site, s: RelationState, parameter: string, body: Expr): Lowering<RelationState> {
    if s.element.None? then Failure(IndUnmodeledOp)
    else
      match LowerScalar(resolver, site.Child(0), [(parameter, s.element.value)], body)
      case Failure(f) => Failure(PredicateReason(f))
      case Success(condition) =>
        var input := s.expression;
        WithElement(
          Construct(Filter(input, condition.expression), input.schema, input.facts,
                    Merged(site.Span(), [input.origin, condition.expression.origin], []), IndOpaquePredicate),
          s.element)
  }

  /** `project`: one new column holding a scalar. */
  ghost function LowerScalarProject(span: SourceSpan, s: RelationState, name: string, scalar: LoweredScalar, next: u32): Lowering<Allocated> {
    if !CanAllocate(next) then Failure(IndUnmodeledOp)
    else
      var e := scalar.expression;
      var column := Column(next, name, e.typeRef, e.multiplicity, e.nullability, e.origin);
      WithNext(
        WithElement(
          Construct(Project(s.expression, [Projection(next, e)], ScalarProjection), [column], UNKNOWN_FACTS,
                    Merged(span, [s.expression.origin, e.origin], []), IndUnmodeledOp),
          Some(ColumnElement(BoundColumn(column, scalar.local)))),
        next + 1)
  }

  ghost function LowerMap(resolver: Resolver, site: Site, s: RelationState, parameter: string, body: Expr, next: u32): Lowering<Allocated> {
    if s.element.None? then Failure(IndUnmodeledOp)
    else
      match LowerScalar(resolver, site.Child(0), [(parameter, s.element.value)], body)
      case Failure(f) => Failure(OperatorReason(f))
      case Success(scalar) => LowerScalarProject(site.Span(), s, MAP_VALUE_COLUMN_NAME, scalar, next)
  }

  predicate BindsColumn(s: RelationState) {
    s.element.Some? && s.element.value.ColumnElement?
  }

  ghost function LowerProperty(resolver: Resolver, span: SourceSpan, s: RelationState, name: string, next: u32): Lowering<Allocated> {
    if !BindsColumn(s) then Failure(IndUnmodeledOp)
    else
      var b := s.element.value.bound;
      match LowerNavigation(resolver, span, ReadColumn(b, b.column.origin), name)
      case Failure(f) => Failure(f)
      case Success(scalar) => LowerScalarProject(span, s, name, scalar, next)
  }

  datatype LoweredSpecs = LoweredSpecs(columns: seq<BoundColumn>, projections: seq<Projection>, next: u32)

  function SpecColumn(span: SourceSpan, id: ColumnId, alias: string, e: Scalar): Column {
    Column(id, alias, e.typeRef, e.multiplicity, e.nullability, Merged(span, [e.origin], []))
  }

  function LowerSpecs(resolver: Resolver, site: Site, element: BoundElement, specs: seq<ColumnSpec>, next: u32): Lowering<LoweredSpecs> {
    if specs == [] then Success(LoweredSpecs([], [], next))
    else
      match LowerSpecs(resolver, site, element, specs[..|specs| - 1], next)
      case Failure(f) => Failure(f)
      case Success(earlier) =>
        var spec, node := specs[|specs| - 1], site.Child(|specs| - 1);
        match LowerScalar(resolver, node.Child(0), [(spec.parameter, element)], spec.body)
        case Failure(f) => Failure(OperatorReason(f))
        case Success(scalar) =>
          if !CanAllocate(earlier.next) then Failure(IndUnmodeledOp)
          else
            var id := earlier.next;
            Success(LoweredSpecs(
              earlier.columns + [BoundColumn(SpecColumn(node.Span(), id, spec.alias, scalar.expression), scalar.local)],
              earlier.projections + [Projection(id, scalar.expression)],
              id + 1))
  }

  ghost predicate AliasesAreUnique(specs: seq<ColumnSpec>) {
    forall i, j :: 0 <= i < j < |specs| ==> specs[i].alias != specs[j].alias
  }

  function RowColumnOf(index: u32, c: Column): RowColumn {
    RowColumn(index, c.name, c.typeRef, c.multiplicity)
  }

  function RowColumnsOf(columns: seq<BoundColumn>): seq<RowColumn>
    requires |columns| <= U32_LIMIT
  {
    seq(|columns|, i requires 0 <= i < |columns| => RowColumnOf(i, columns[i].column))
  }

  /** `bound_relation_row`. */
  function BindRow(columns: seq<BoundColumn>): Lowering<BoundElement> {
    if columns == [] || |columns| > U32_LIMIT then Failure(IndUnmodeledOp)
    else if !NamesAreUnique(ColumnsOf(columns)) then Failure(IndUnresolvedSchema)
    else Success(RowElement(LocalValue(RowLocal(RowColumnsOf(columns)), EXACTLY_ONE), columns))
  }

  function ProjectionOrigins(projections: seq<Projection>): seq<IrOrigin> {
    seq(|projections|, i requires 0 <= i < |projections| => projections[i].expression.origin)
  }

  ghost function LowerRelationProject(resolver: Resolver, site: Site, s: RelationState, specs: seq<ColumnSpec>, next: u32): Lowering<Allocated> {
    if !BindsColumn(s) || specs == [] || !AliasesAreUnique(specs) then Failure(IndUnmodeledOp)
    else
      match LowerSpecs(resolver, site, s.element.value, specs, next)
      case Failure(f) => Failure(f)
      case Success(lowered) =>
        var schema := ColumnsOf(lowered.columns);
        if !DistinctIds(schema) then Failure(IndUnmodeledOp)
        else
          match BindRow(lowered.columns)
          case Failure(f) => Failure(f)
          case Success(row) =>
            WithNext(
              WithElement(
                Construct(Project(s.expression, lowered.projections, RelationProjection), schema, UNKNOWN_FACTS,
                          Merged(site.Span(), [s.expression.origin] + ProjectionOrigins(lowered.projections), []), IndUnmodeledOp),
                Some(row)),
              lowered.next)
  }

  ghost function LowerDistinct(span: SourceSpan, s: RelationState): Lowering<RelationState> {
    if s.element.None? then Failure(IndUnmodeledOp)
    else
      var origin := Merged(span, [s.expression.origin], []);
      WithElement(
        Construct(Distinct(s.expression), s.expression.schema, Facts(Unknown, Proven(SetRows, origin)), origin, IndUnmodeledOp),
        s.element)
  }

  function ColumnsNamed(schema: Schema, name: string): seq<Column> {
    if schema == [] then [] else (if schema[0].name == name then [schema[0]] else []) + ColumnsNamed(schema[1..], name)
  }

  /** `resolve_relation_column_selectors`, with the reason `selector_reason` gives each refusal. */
  function ResolveSelectors(names: seq<string>, schema: Schema): Lowering<seq<ColumnId>> {
    if names == [] then Success([])
    else
      match ResolveSelectors(names[..|names| - 1], schema)
      case Failure(f) => Failure(f)
      case Success(ids) =>
        var name := names[|names| - 1];
        if name in names[..|names| - 1] then Failure(IndUnmodeledOp)
        else if |ColumnsNamed(schema, name)| != 1 then Failure(IndUnresolvedSchema)
        else Success(ids + [ColumnsNamed(schema, name)[0].id])
  }

  function BoundWithId(columns: seq<BoundColumn>, id: ColumnId): Option<BoundColumn> {
    if columns == [] then None
    else if columns[0].column.id == id then Some(columns[0])
    else BoundWithId(columns[1..], id)
  }

  function BoundSelection(columns: seq<BoundColumn>, ids: seq<ColumnId>): Option<seq<BoundColumn>> {
    if ids == [] then Some([])
    else
      var first := BoundWithId(columns, ids[0]);
      var others := BoundSelection(columns, ids[1..]);
      if first.Some? && others.Some? then Some([first.value] + others.value) else None
  }

  /** `selected_bound_element`. */
  function SelectedElement(element: Option<BoundElement>, ids: seq<ColumnId>): Lowering<Option<BoundElement>> {
    match element
    case None => Success(None)
    case Some(ColumnElement(b)) => Success(if b.column.id in ids then element else None)
    case Some(RowElement(_, columns)) =>
      match BoundSelection(columns, ids)
      case None => Failure(IndUnmodeledOp)
      case Some(selected) =>
        match BindRow(selected)
        case Failure(f) => Failure(f)
        case Success(row) => Success(Some(row))
  }

  ghost function LowerDistinctOn(span: SourceSpan, s: RelationState, names: seq<string>): Lowering<RelationState> {
    var input := s.expression;
    if names == [] then Failure(IndUnmodeledOp)
    else
      match ResolveSelectors(names, input.schema)
      case Failure(f) => Failure(f)
      case Success(ids) =>
        var schema := Selected(ids, input.schema);
        if !DistinctIds(schema) then Failure(IndUnmodeledOp)
        else
          match SelectedElement(s.element, ids)
          case Failure(f) => Failure(f)
          case Success(element) =>
            WithElement(Construct(DistinctOn(input, ids), schema, UNKNOWN_FACTS, Merged(span, [input.origin], []), IndUnmodeledOp), element)
  }

  function LowerKeys(site: Site, keys: seq<KeySpec>, schema: Schema, input: IrOrigin): Lowering<seq<SortKey>> {
    if keys == [] then Success([])
    else
      match LowerKeys(site, keys[..|keys| - 1], schema, input)
      case Failure(f) => Failure(f)
      case Success(earlier) =>
        var key := keys[|keys| - 1];
        var columns := ColumnsNamed(schema, key.column);
        if |columns| != 1 then Failure(IndUnresolvedSchema)
        else Success(earlier + [SortKey(columns[0].id, key.direction, Merged(site.Child(|keys| - 1).Span(), [input, columns[0].origin], []))])
  }

  function KeyOrigins(keys: seq<SortKey>): seq<IrOrigin> {
    seq(|keys|, i requires 0 <= i < |keys| => keys[i].origin)
  }

  ghost function LowerSort(site: Site, s: RelationState, keys: seq<KeySpec>): Lowering<RelationState> {
    var input := s.expression;
    match LowerKeys(site, keys, input.schema, input.origin)
    case Failure(f) => Failure(f)
    case Success(lowered) =>
      WithElement(
        Construct(Sort(input, lowered), input.schema, input.facts, Merged(site.Span(), [input.origin] + KeyOrigins(lowered), []), IndUnmodeledOp),
        s.element)
  }

  /** The join itself, once both sides are lowered. */
  ghost function LowerJoined(resolver: Resolver, site: Site, left: RelationState, right: RelationState, l: string, r: string, body: Expr): Lowering<RelationState>
    requires BindsColumn(left)
  {
    if !BindsColumn(right) then Failure(IndUnmodeledOp)
    else
      match LowerScalar(resolver, site.Child(0), [(l, left.element.value), (r, right.element.value)], body)
      case Failure(f) => Failure(PredicateReason(f))
      case Success(condition) =>
        var c := condition.expression;
        var schema := left.expression.schema + right.expression.schema;
        if !ReferencesColumn(c, left.element.value.bound.column.id) || !ReferencesColumn(c, right.element.value.bound.column.id)
        then Failure(IndOpaquePredicate)
        else if !DistinctIds(schema) then Failure(IndUnmodeledOp)
        else
          WithElement(
            Construct(Join(Inner, left.expression, right.expression, c), schema, UNKNOWN_FACTS,
                      Merged(site.Span(), [left.expression.origin, right.expression.origin, c.origin], []), IndOpaquePredicate),
            None)
  }

  /** A join's right operand is one syntax node: an extent, or a pipeline in parentheses. */
  predicate IsOneNode(right: Query, grouped: bool) {
    grouped || right.steps == []
  }

  ghost function LowerStep(resolver: Resolver, site: Site, a: Allocated, step: Step): Lowering<Allocated>
    decreases step, 0
  {
    match step
    case PropertyStep(name) => LowerProperty(resolver, site.Span(), a.state, name, a.next)
    case FilterStep(parameter, body) => WithNext(LowerFilter(resolver, site, a.state, parameter, body), a.next)
    case MapStep(parameter, body) => LowerMap(resolver, site, a.state, parameter, body, a.next)
    case ProjectStep(specs) => LowerRelationProject(resolver, site, a.state, specs, a.next)
    case JoinStep(right, grouped, l, r, condition) =>
      if !BindsColumn(a.state) || !IsOneNode(right, grouped) then Failure(IndUnmodeledOp)
      else if l == r then Failure(IndOpaquePredicate)
      else
        (match LowerQuery(resolver, site.Child(1), right, a.next)
         case Failure(f) => Failure(f)
         case Success(b) => WithNext(LowerJoined(resolver, site, a.state, b.state, l, r, condition), b.next))
    case DistinctStep => WithNext(LowerDistinct(site.Span(), a.state), a.next)
    case DistinctOnStep(names) => WithNext(LowerDistinctOn(site.Span(), a.state, names), a.next)
    case SortStep(keys) => WithNext(LowerSort(site, a.state, keys), a.next)
  }

  ghost function LowerSteps(resolver: Resolver, site: Site, path: string, steps: seq<Step>, next: u32): Lowering<Allocated>
    decreases steps, 1
  {
    if steps == [] then LowerAll(resolver, site.Child(0).Span(), path, next)
    else
      match LowerSteps(resolver, site, path, steps[..|steps| - 1], next)
      case Failure(f) => Failure(f)
      case Success(a) => LowerStep(resolver, site.Child(|steps|), a, steps[|steps| - 1])
  }

  /** `lower_relation_nodes` over a class extent and its steps, with `next` the next free identity. */
  ghost function LowerQuery(resolver: Resolver, site: Site, q: Query, next: u32): Lowering<Allocated>
    decreases q, 2
  {
    LowerSteps(resolver, site, q.path, q.steps, next)
  }
}
