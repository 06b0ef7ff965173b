/** Canonical emission as a function from relations to surface queries.
    It fails closed: a schema, fact, name or literal the surface syntax cannot
    recreate is refused at the origin that holds it. */
module Canonical {
  import opened Basics
  import opened Text
  import opened Relational
  import opened Surface

  /** How a lambda refers to the row of an emitted relation. */
  datatype BindingKind = ColumnBinding | RowBinding | NoBinding

  datatype Emitted = Emitted(query: Query, binding: BindingKind, nextBinder: nat)

  type Emission<+T> = Result<T, IrOrigin>

  type References = map<ColumnId, Expr>

  function Binder(index: nat): string {
    "v" + Decimal(index)
  }

  /** `class_scan_schema_matches`. */
  predicate ScanSchemaMatches(schema: Schema, path: string) {
    && |schema| == 1
    && schema[0].name == SimpleName(path)
    && schema[0].typeRef == TypeRef(path, [])
    && schema[0].multiplicity == EXACTLY_ONE
    && schema[0].nullability == NullabilityUnknown
  }

  predicate ProjectShapeMatches(schema: Schema, projections: seq<Projection>) {
    |projections| == |schema| && forall i :: 0 <= i < |schema| ==> projections[i].column == schema[i].id
  }

  predicate NamesAreUnique(schema: Schema) {
    forall i, j :: 0 <= i < j < |schema| ==> schema[i].name != schema[j].name
  }

  predicate FactsAreDistinctSet(facts: Facts) {
    facts.candidateKeys.Unknown? && facts.rowSemantics.Proven? && facts.rowSemantics.value == SetRows
  }

  /** The column an identity of this schema stands for. */
  function ColumnAt(schema: Schema, id: ColumnId): (c: Column)
    requires id in Ids(schema)
    ensures c in schema && c.id == id
  {
    if schema[|schema| - 1].id == id then schema[|schema| - 1]
    else
      assert Ids(schema)[..|schema| - 1] == Ids(schema[..|schema| - 1]);
      assert id in Ids(schema)[..|schema| - 1];
      ColumnAt(schema[..|schema| - 1], id)
  }

  /** `references_for_binding`. */
  function ReferencesFor(binding: BindingKind, schema: Schema, binder: string): Option<References> {
    match binding
    case ColumnBinding => if |schema| == 1 then Some(map[schema[0].id := Chain(Variable(binder), [])]) else None
    case RowBinding =>
      if NamesAreUnique(schema) && (forall i :: 0 <= i < |schema| ==> IsIdentifier(schema[i].name))
      then Some(map id | id in Ids(schema) :: Chain(Variable(binder), [ColumnAt(schema, id).name]))
      else None
    case NoBinding => None
  }

  function EmitLiteral(l: ScalarLiteral): Option<Expr> {
    match l
    case BooleanLiteral(b) => Some(Chain(BooleanRoot(b), []))
    case IntegerLiteral(i) => Some(Chain(IntegerRoot(i), []))
    case StringLiteral(s) => Some(Chain(StringRoot(s), []))
    case NullLiteral => None
  }

  /** `Emitter::scalar`, entered with `depth` frames open. */
  function EmitScalar(e: Scalar, references: References, depth: nat): Emission<Expr>
    decreases e, 1
  {
    if depth >= MAX_RELATIONAL_RECURSION_DEPTH then Failure(e.origin) else EmitScalarOperator(e, references, depth + 1)
  }

  function EmitScalarOperator(e: Scalar, references: References, depth: nat): Emission<Expr>
    decreases e, 0
  {
    match e.operator
    case ColumnRead(id) => if id in references then Success(references[id]) else Failure(e.origin)
    case Literal(l) =>
      (match EmitLiteral(l)
       case Some(x) => Success(x)
       case None => Failure(e.origin))
    case Navigation(input, navigation) =>
      (match EmitScalar(input, references, depth)
       case Failure(o) => Failure(o)
       case Success(x) =>
         if IsIdentifier(navigation.member.name) then Success(Chain(x.root, x.members + [navigation.member.name]))
         else Failure(e.origin))
    case Equal(left, right) =>
      (match Both(EmitScalar(left, references, depth), EmitScalar(right, references, depth))
       case Failure(o) => Failure(o)
       case Success(p) => Success(Chain(EqualRoot(p.0, p.1), [])))
    case Not(input) =>
      if input.operator.Equal? then
        match Both(EmitScalar(input.operator.left, references, depth), EmitScalar(input.operator.right, references, depth))
        case Failure(o) => Failure(o)
        case Success(p) => Success(Chain(NotEqualRoot(p.0, p.1), []))
      else Failure(e.origin)
  }

  /** Two results in sequence: the first failure is the one reported. */
  function Both<A, B>(first: Emission<A>, second: Emission<B>): Emission<(A, B)> {
    match (first, second)
    case (Failure(o), _) => Failure(o)
    case (Success(_), Failure(o)) => Failure(o)
    case (Success(a), Success(b)) => Success((a, b))
  }

  function EmitSpecs(projections: seq<Projection>, schema: Schema, references: References, binder: string, depth: nat): Emission<seq<ColumnSpec>>
    requires |projections| == |schema|
  {
    if projections == [] then Success([])
    else
      match Both(EmitScalar(projections[0].expression, references, depth),
                 EmitSpecs(projections[1..], schema[1..], references, binder, depth))
      case Failure(o) => Failure(o)
      case Success(p) => Success([ColumnSpec(schema[0].name, binder, p.0)] + p.1)
  }

  /** The selected columns' names, in selection order. */
  function SelectorNames(columns: seq<ColumnId>, schema: Schema): Option<seq<string>> {
    if columns == [] then Some([])
    else
      var first := FindColumn(schema, columns[0]);
      var others := SelectorNames(columns[1..], schema);
      if first.Some? && others.Some? then Some([first.value.name] + others.value) else None
  }

  function EmitKeys(keys: seq<SortKey>, schema: Schema): Option<seq<KeySpec>> {
    if keys == [] then Some([])
    else
      var first := FindColumn(schema, keys[0].column);
      var others := EmitKeys(keys[1..], schema);
      if first.Some? && others.Some? then Some([KeySpec(keys[0].direction, first.value.name)] + others.value) else None
  }

  function AddStep(q: Query, step: Step): Query {
    Query(q.path, q.steps + [step])
  }

  /** `Emitter::binder` can hand out `count` more binders. */
  predicate HasBinders(next: nat, count: nat) {
    next + count <= USIZE_MAX
  }

  function EmitScan(r: Relation, c: ResolvedClass, next: nat): Emission<Emitted> {
    if r.facts.AreUnknown() && IsEmittablePath(c.path) && ScanSchemaMatches(r.schema, c.path)
    then Success(Emitted(Query(c.path, []), ColumnBinding, next))
    else Failure(r.origin)
  }

  function EmitFilter(r: Relation, source: Relation, condition: Scalar, input: Emitted, depth: nat): Emission<Emitted> {
    var binder := Binder(input.nextBinder);
    var references := ReferencesFor(input.binding, source.schema, binder);
    if r.schema != source.schema || !r.facts.Matches(source.facts) then Failure(r.origin)
    else if !HasBinders(input.nextBinder, 1) || references.None? then Failure(r.origin)
    else
      match EmitScalar(condition, references.value, depth)
      case Failure(o) => Failure(o)
      case Success(x) => Success(Emitted(AddStep(input.query, FilterStep(binder, x)), input.binding, input.nextBinder + 1))
  }

  function EmitMap(r: Relation, source: Relation, projections: seq<Projection>, input: Emitted, depth: nat): Emission<Emitted> {
    var binder := Binder(input.nextBinder);
    var references := ReferencesFor(input.binding, source.schema, binder);
    if |projections| != 1 || input.binding == NoBinding then Failure(r.origin)
    else if !HasBinders(input.nextBinder, 1) || references.None? then Failure(r.origin)
    else
      match EmitScalar(projections[0].expression, references.value, depth)
      case Failure(o) => Failure(o)
      case Success(x) => Success(Emitted(AddStep(input.query, MapStep(binder, x)), ColumnBinding, input.nextBinder + 1))
  }

  function EmitRelationProject(r: Relation, source: Relation, projections: seq<Projection>, input: Emitted, depth: nat): Emission<Emitted>
    requires |projections| == |r.schema|
  {
    var binder := Binder(input.nextBinder);
    var references := ReferencesFor(input.binding, source.schema, binder);
    if input.binding != ColumnBinding || !NamesAreUnique(r.schema) then Failure(r.origin)
    else if !HasBinders(input.nextBinder, 1) || references.None? then Failure(r.origin)
    else
      match EmitSpecs(projections, r.schema, references.value, binder, depth)
      case Failure(o) => Failure(o)
      case Success(specs) => Success(Emitted(AddStep(input.query, ProjectStep(specs)), RowBinding, input.nextBinder + 1))
  }

  function EmitProject(r: Relation, source: Relation, projections: seq<Projection>, kind: ProjectionKind, input: Emitted, depth: nat): Emission<Emitted> {
    if !r.facts.AreUnknown() || !ProjectShapeMatches(r.schema, projections) then Failure(r.origin)
    else if kind == ScalarProjection then EmitMap(r, source, projections, input, depth)
    else EmitRelationProject(r, source, projections, input, depth)
  }

  function EmitJoin(r: Relation, left: Relation, right: Relation, condition: Scalar, l: Emitted, rr: Emitted, depth: nat): Emission<Emitted> {
    var leftBinder, rightBinder := Binder(rr.nextBinder), Binder(rr.nextBinder + 1);
    var leftReferences := ReferencesFor(l.binding, left.schema, leftBinder);
    var rightReferences := ReferencesFor(rr.binding, right.schema, rightBinder);
    if !r.facts.AreUnknown() || r.schema != left.schema + right.schema || l.binding != ColumnBinding || rr.binding != ColumnBinding
    then Failure(r.origin)
    else if !HasBinders(rr.nextBinder, 2) || leftReferences.None? || rightReferences.None? then Failure(r.origin)
    else if leftReferences.value.Keys * rightReferences.value.Keys != {} then Failure(r.origin)
    else
      match EmitScalar(condition, leftReferences.value + rightReferences.value, depth)
      case Failure(o) => Failure(o)
      case Success(x) =>
        Success(Emitted(AddStep(l.query, JoinStep(rr.query, false, leftBinder, rightBinder, x)), NoBinding, rr.nextBinder + 2))
  }

  function EmitDistinct(r: Relation, source: Relation, input: Emitted): Emission<Emitted> {
    if input.binding == NoBinding || r.schema != source.schema || !FactsAreDistinctSet(r.facts) then Failure(r.origin)
    else Success(input.(query := AddStep(input.query, DistinctStep)))
  }

  function EmitDistinctOn(r: Relation, source: Relation, columns: seq<ColumnId>, input: Emitted): Emission<Emitted> {
    var names := SelectorNames(columns, source.schema);
    if input.binding == ColumnBinding || !r.facts.AreUnknown() || !NamesAreUnique(source.schema) then Failure(r.origin)
    else if names.None? || names.value == [] then Failure(r.origin)
    else Success(input.(query := AddStep(input.query, DistinctOnStep(names.value))))
  }

  function EmitSort(r: Relation, source: Relation, keys: seq<SortKey>, input: Emitted): Emission<Emitted> {
    var specs := EmitKeys(keys, source.schema);
    if input.binding == ColumnBinding || r.schema != source.schema || !r.facts.Matches(source.facts) || !NamesAreUnique(source.schema)
    then Failure(r.origin)
    else if specs.None? || specs.value == [] then Failure(r.origin)
    else Success(input.(query := AddStep(input.query, SortStep(specs.value))))
  }

  /** `Emitter::relation`, entered with `depth` frames open and `next` the next binder. */
  function EmitRelation(r: Relation, next: nat, depth: nat): Emission<Emitted>
    decreases r, 1
  {
    if depth >= MAX_RELATIONAL_RECURSION_DEPTH then Failure(r.origin) else EmitOperator(r, next, depth + 1)
  }

  function EmitOperator(r: Relation, next: nat, depth: nat): Emission<Emitted>
    decreases r, 0
  {
    match r.operator
    case Scan(c) => EmitScan(r, c, next)
    case Filter(input, condition) =>
      (match EmitRelation(input, next, depth)
       case Failure(o) => Failure(o)
       case Success(i) => EmitFilter(r, input, condition, i, depth))
    case Project(input, projections, kind) =>
      (match EmitRelation(input, next, depth)
       case Failure(o) => Failure(o)
       case Success(i) => EmitProject(r, input, projections, kind, i, depth))
    case Join(_, left, right, condition) =>
      (match EmitRelation(left, next, depth)
       case Failure(o) => Failure(o)
       case Success(l) =>
         match EmitRelation(right, l.nextBinder, depth)
         case Failure(o) => Failure(o)
         case Success(rr) => EmitJoin(r, left, right, condition, l, rr, depth))
    case Distinct(input) =>
      (match EmitRelation(input, next, depth)
       case Failure(o) => Failure(o)
       case Success(i) => EmitDistinct(r, input, i))
    case DistinctOn(input, columns) =>
      (match EmitRelation(input, next, depth)
       case Failure(o) => Failure(o)
       case Success(i) => EmitDistinctOn(r, input, columns, i))
    case Sort(input, keys) =>
      (match EmitRelation(input, next, depth)
       case Failure(o) => Failure(o)
       case Success(i) => EmitSort(r, input, keys, i))
  }

  /** `emit_canonical_normal_form`. */
  function EmitCanonical(r: Relation): Emission<Emitted> {
    EmitRelation(r, 0, 0)
  }
}
