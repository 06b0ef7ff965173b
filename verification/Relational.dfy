/** The typed relational IR and the validators its constructors run.
    A value of these types is one the crate can hold only if it is `Valid`:
    the fields are private and every constructor checks them. */
module Relational {
  import opened Basics
  import opened Orders

  const MAX_RELATIONAL_RECURSION_DEPTH: nat := 32

  const BOOLEAN_TYPE := "Boolean"
  const INTEGER_TYPE := "Integer"
  const STRING_TYPE := "String"
  const MAP_VALUE_COLUMN_NAME := "value"

  // ---------- model facts ----------

  datatype TextRange = TextRange(start: u32, end: u32)

  datatype SourceSpan = SourceSpan(file: u32, range: TextRange)

  datatype Provenance = Pmcd | PureFile

  datatype DefinitionAnchor = DefinitionAnchor(source: u32, span: Option<TextRange>)

  datatype Temporal = Bitemporal | BusinessTemporal | ProcessingTemporal

  datatype QpKind = UserQualified | MilestonedPoint | AllVersions | AllVersionsInRange

  datatype MemberKind = Qualified(qp: QpKind) | Property | AssociationEnd(association: string)

  datatype TypeRef = TypeRef(rawType: string, arguments: seq<TypeRef>)

  datatype Bounds = Bounds(lower: u32, upper: Option<u32>)

  type Multiplicity = b: Bounds | b.upper.Some? ==> b.lower <= b.upper.value witness Bounds(0, None)

  const EXACTLY_ONE: Multiplicity := Bounds(1, Some(1))

  function NewMultiplicity(lower: u32, upper: Option<u32>): Option<Multiplicity> {
    if upper.Some? && lower > upper.value then None else Some(Bounds(lower, upper))
  }

  datatype ResolvedClass =
    ResolvedClass(id: u32, path: string, temporal: Option<Temporal>, provenance: Provenance, definition: DefinitionAnchor)

  datatype ResolvedMember =
    ResolvedMember(owner: ResolvedClass, name: string, target: TypeRef, multiplicity: Multiplicity, kind: MemberKind,
                   signature: Option<seq<TypeRef>>, targetTemporalArity: Option<u8>,
                   provenance: Provenance, definition: DefinitionAnchor)

  datatype RowColumn = RowColumn(id: u32, name: string, typeRef: TypeRef, multiplicity: Multiplicity)

  datatype LocalKind =
    | ClassLocal(cls: ResolvedClass)
    | ScalarLocal(typeRef: TypeRef)
    | RowLocal(columns: seq<RowColumn>)
    | UnknownLocal

  datatype LocalValue = LocalValue(kind: LocalKind, multiplicity: Multiplicity)

  datatype ResolvedNavigation = ResolvedNavigation(receiver: LocalValue, member: ResolvedMember)

  // ---------- provenance ----------

  datatype ModelOriginKind = ClassKind | MemberKindOrigin

  datatype ModelOriginIdentity = ClassIdentity(path: string) | MemberIdentity(owner: string, name: string, kind: MemberKind)

  datatype ModelOrigin =
    ModelOrigin(kind: ModelOriginKind, provenance: Provenance, definition: DefinitionAnchor, identity: ModelOriginIdentity)

  function OriginOfClass(c: ResolvedClass): ModelOrigin {
    ModelOrigin(ClassKind, c.provenance, c.definition, ClassIdentity(c.path))
  }

  function OriginOfMember(m: ResolvedMember): ModelOrigin {
    ModelOrigin(MemberKindOrigin, m.provenance, m.definition, MemberIdentity(m.owner.path, m.name, m.kind))
  }

  datatype IrOrigin = IrOrigin(source: SourceSpan, modelOrigins: seq<ModelOrigin>)

  /** The reasons this pipeline gives for declining to answer. */
  datatype ReasonCode =
    IndUnparseable | IndUnmodeledOp | ModelIncomplete | IndUnresolvedSchema | IndOpaquePredicate | IndMissingRewrite
  {
    function Id(): string {
      match this
      case IndUnparseable => "IND_UNPARSEABLE"
      case IndUnmodeledOp => "IND_UNMODELED_OP"
      case ModelIncomplete => "MODEL_INCOMPLETE"
      case IndUnresolvedSchema => "IND_UNRESOLVED_SCHEMA"
      case IndOpaquePredicate => "IND_OPAQUE_PREDICATE"
      case IndMissingRewrite => "IND_MISSING_REWRITE"
    }
  }

  /** A reason anchored at an origin: the common shape of every refusal. */
  datatype Refusal = Refusal(reason: ReasonCode, origin: IrOrigin)

  // ---------- columns, schemas and facts ----------

  /** A column identity. Its 32-bit width matters only to the allocator. */
  type ColumnId = nat

  datatype Nullability = NonNullable | Nullable | NullabilityUnknown

  datatype Column =
    Column(id: ColumnId, name: string, typeRef: TypeRef, multiplicity: Multiplicity, nullability: Nullability, origin: IrOrigin)

  type Schema = seq<Column>

  function Ids(schema: Schema): seq<ColumnId> {
    seq(|schema|, i requires 0 <= i < |schema| => schema[i].id)
  }

  ghost predicate DistinctIds(schema: Schema) {
    forall i, j :: 0 <= i < j < |schema| ==> schema[i].id != schema[j].id
  }

  /** `RelationSchema::column`: the first column with this identity. */
  function FindColumn(schema: Schema, id: ColumnId): (c: Option<Column>)
    ensures c.Some? ==> c.value in schema && c.value.id == id
    ensures c.None? ==> forall k :: 0 <= k < |schema| ==> schema[k].id != id
  {
    if schema == [] then None
    else if schema[0].id == id then Some(schema[0])
    else FindColumn(schema[1..], id)
  }

  datatype Totality = Total | Partial

  datatype RowSemantics = SetRows | BagRows

  datatype Knowledge<T(==)> = Proven(value: T, origin: IrOrigin) | Unknown {
    /** `matches_ignoring_origin`. */
    predicate Matches(other: Knowledge<T>)
    {
      match (this, other)
      case (Unknown, Unknown) => true
      case (Proven(l, _), Proven(r, _)) => l == r
      case _ => false
    }
  }

  /** A candidate key: its column identities, ascending and without repeats. */
  type CandidateKey = seq<ColumnId>

  function NewCandidateKey(columns: seq<ColumnId>): CandidateKey {
    Canonical(CompareNat, columns)
  }

  datatype Facts = Facts(candidateKeys: Knowledge<seq<CandidateKey>>, rowSemantics: Knowledge<RowSemantics>) {
    predicate Matches(other: Facts) {
      candidateKeys.Matches(other.candidateKeys) && rowSemantics.Matches(other.rowSemantics)
    }

    predicate AreUnknown() {
      candidateKeys.Unknown? && rowSemantics.Unknown?
    }

    /** What `CandidateKey::new` and `RelationFacts::new` leave in place. */
    ghost predicate InCanonicalForm() {
      candidateKeys.Proven? ==>
        && StrictlyAscending(ComparePositions, candidateKeys.value)
        && forall k :: k in candidateKeys.value ==> StrictlyAscending(CompareNat, k)
    }
  }

  const UNKNOWN_FACTS := Facts(Unknown, Unknown)

  function NewFacts(keys: Knowledge<seq<CandidateKey>>, rows: Knowledge<RowSemantics>): Facts {
    match keys
    case Unknown => Facts(Unknown, rows)
    case Proven(value, origin) => Facts(Proven(Canonical(ComparePositions, value), origin), rows)
  }

  // ---------- scalars and relations ----------

  datatype ScalarLiteral = BooleanLiteral(b: bool) | IntegerLiteral(i: i64) | StringLiteral(s: string) | NullLiteral

  datatype ScalarOperator =
    | ColumnRead(id: ColumnId)
    | Literal(literal: ScalarLiteral)
    | Navigation(input: Scalar, navigation: ResolvedNavigation)
    | Equal(left: Scalar, right: Scalar)
    | Not(input: Scalar)

  datatype Scalar =
    Scalar(operator: ScalarOperator, typeRef: TypeRef, multiplicity: Multiplicity, nullability: Nullability,
           totality: Knowledge<Totality>, origin: IrOrigin)

  datatype JoinKind = Inner

  datatype ProjectionKind = ScalarProjection | RelationProjection

  datatype Projection = Projection(column: ColumnId, expression: Scalar)

  datatype SortDirection = Ascending | Descending

  datatype SortKey = SortKey(column: ColumnId, direction: SortDirection, origin: IrOrigin)

  datatype RelationOperator =
    | Scan(cls: ResolvedClass)
    | Filter(input: Relation, predicate_: Scalar)
    | Project(input: Relation, projections: seq<Projection>, kind: ProjectionKind)
    | Join(joinKind: JoinKind, left: Relation, right: Relation, condition: Scalar)
    | Distinct(input: Relation)
    | DistinctOn(input: Relation, columns: seq<ColumnId>)
    | Sort(input: Relation, keys: seq<SortKey>)

  datatype Relation = Relation(operator: RelationOperator, schema: Schema, facts: Facts, origin: IrOrigin)

  // ---------- validation ----------

  datatype RelationError =
    | DuplicateColumnId(id: ColumnId)
    | FilterSchemaMismatch
    | ProjectionSchemaMismatch
    | JoinSchemaMismatch
    | DistinctSchemaMismatch
    | DistinctOnEmptySelection
    | DistinctOnDuplicateColumn(id: ColumnId)
    | DistinctOnUnknownColumn(id: ColumnId)
    | DistinctOnSchemaMismatch
    | SortSchemaMismatch
    | EmptySortKeys
    | UnknownSortKeyColumn(id: ColumnId)
    | DuplicateSortKeyColumn(id: ColumnId)
    | UnknownColumnReference(id: ColumnId)
    | UnknownKeyColumn(id: ColumnId)
    | ColumnMetadataMismatch(id: ColumnId)
    | NavigationMetadataMismatch
    | ComparisonTypeMismatch
    | InvalidLiteralType
    | NonBooleanPredicate

  predicate SameColumnMetadata(e: Scalar, c: Column) {
    e.typeRef == c.typeRef && e.multiplicity == c.multiplicity && e.nullability == c.nullability
  }

  predicate ReceiverMatches(e: Scalar, receiver: LocalValue) {
    && receiver.kind.ClassLocal?
    && e.typeRef == TypeRef(receiver.kind.cls.path, [])
    && e.multiplicity == receiver.multiplicity
    && OriginOfClass(receiver.kind.cls) in e.origin.modelOrigins
  }

  predicate IsPrimitive(t: TypeRef, name: string) {
    t.arguments == [] && t.rawType == name
  }

  predicate LiteralFits(e: Scalar, literal: ScalarLiteral) {
    && e.multiplicity == EXACTLY_ONE
    && match literal
       case BooleanLiteral(_) => IsPrimitive(e.typeRef, BOOLEAN_TYPE) && e.nullability == NonNullable
       case IntegerLiteral(_) => IsPrimitive(e.typeRef, INTEGER_TYPE) && e.nullability == NonNullable
       case StringLiteral(_) => IsPrimitive(e.typeRef, STRING_TYPE) && e.nullability == NonNullable
       case NullLiteral => e.nullability == Nullable
  }

  predicate IsBoolean(e: Scalar) {
    IsPrimitive(e.typeRef, BOOLEAN_TYPE) && e.multiplicity == EXACTLY_ONE && e.nullability == NonNullable
  }

  /** Cardinality of navigating `member` from `receiver`; absent exactly when a bound leaves 32 bits. */
  function ComposeNavigationMultiplicity(receiver: Multiplicity, member: Multiplicity): (m: Option<Multiplicity>)
  {
    var lower := CheckedMul(receiver.lower, member.lower);
    if lower.None? then None
    else
      match (receiver.upper, member.upper)
      case (Some(0), _) => NewMultiplicity(lower.value, Some(0))
      case (_, Some(0)) => NewMultiplicity(lower.value, Some(0))
      case (Some(l), Some(r)) =>
        var upper := CheckedMul(l, r);
        if upper.None? then None else NewMultiplicity(lower.value, upper)
      case _ => NewMultiplicity(lower.value, None)
  }

  /** `validate_scalar`; the scope is the input schemas laid end to end. */
  function ScalarError(e: Scalar, scope: Schema): Option<RelationError>
    decreases e
  {
    match e.operator
    case ColumnRead(id) =>
      (match FindColumn(scope, id)
       case None => Some(UnknownColumnReference(id))
       case Some(c) => if SameColumnMetadata(e, c) then None else Some(ColumnMetadataMismatch(id)))
    case Literal(l) => if LiteralFits(e, l) then None else Some(InvalidLiteralType)
    case Navigation(input, navigation) =>
      var inner := ScalarError(input, scope);
      var expected := ComposeNavigationMultiplicity(input.multiplicity, navigation.member.multiplicity);
      if inner.Some? then inner
      else if !ReceiverMatches(input, navigation.receiver) || expected.None? then Some(NavigationMetadataMismatch)
      else if e.typeRef != navigation.member.target || e.multiplicity != expected.value
              || e.nullability != NullabilityUnknown || OriginOfMember(navigation.member) !in e.origin.modelOrigins
      then Some(NavigationMetadataMismatch)
      else None
    case Equal(left, right) =>
      var l := ScalarError(left, scope);
      var r := ScalarError(right, scope);
      if l.Some? then l
      else if r.Some? then r
      else if left.typeRef != right.typeRef then Some(ComparisonTypeMismatch)
      else if IsBoolean(e) then None else Some(NonBooleanPredicate)
    case Not(input) =>
      var inner := ScalarError(input, scope);
      if inner.Some? then inner
      else if IsBoolean(input) && IsBoolean(e) then None else Some(NonBooleanPredicate)
  }

  predicate ScalarOk(e: Scalar, scope: Schema) {
    ScalarError(e, scope).None?
  }

  predicate PredicateOk(e: Scalar, scope: Schema) {
    ScalarOk(e, scope) && IsBoolean(e)
  }

  /** The first key, from index `i` on, that is outside `input` or repeats an earlier key. */
  function SortKeyError(keys: seq<SortKey>, input: Schema, i: nat): Option<RelationError>
    requires i <= |keys|
    decreases |keys| - i
  {
    if i == |keys| then None
    else if FindColumn(input, keys[i].column).None? then Some(UnknownSortKeyColumn(keys[i].column))
    else if exists j :: 0 <= j < i && keys[j].column == keys[i].column then Some(DuplicateSortKeyColumn(keys[i].column))
    else SortKeyError(keys, input, i + 1)
  }

  /** The first selected column, from index `i` on, that repeats an earlier one or is outside `input`. */
  function SelectionError(columns: seq<ColumnId>, input: Schema, i: nat): Option<RelationError>
    requires i <= |columns|
    decreases |columns| - i
  {
    if i == |columns| then None
    else if exists j :: 0 <= j < i && columns[j] == columns[i] then Some(DistinctOnDuplicateColumn(columns[i]))
    else if FindColumn(input, columns[i]).None? then Some(DistinctOnUnknownColumn(columns[i]))
    else SelectionError(columns, input, i + 1)
  }

  /** The input columns a selection names, in selection order. */
  function Selected(columns: seq<ColumnId>, input: Schema): Schema {
    if columns == [] then []
    else
      match FindColumn(input, columns[|columns| - 1])
      case None => Selected(columns[..|columns| - 1], input)
      case Some(c) => Selected(columns[..|columns| - 1], input) + [c]
  }

  /** The first projection, from index `i` on, whose expression is invalid or does not fit its output column. */
  function ProjectionError(projections: seq<Projection>, schema: Schema, input: Schema, i: nat): Option<RelationError>
    requires |projections| == |schema| && i <= |projections|
    decreases |projections| - i
  {
    if i == |projections| then None
    else if !ScalarOk(projections[i].expression, input) then ScalarError(projections[i].expression, input)
    else if !SameColumnMetadata(projections[i].expression, schema[i]) then Some(ColumnMetadataMismatch(projections[i].column))
    else ProjectionError(projections, schema, input, i + 1)
  }

  ghost predicate ProjectionColumnsFit(projections: seq<Projection>, schema: Schema) {
    |projections| == |schema| && forall i :: 0 <= i < |schema| ==> projections[i].column == schema[i].id
  }

  /** `validate_relation_operator`. */
  ghost function OperatorError(operator: RelationOperator, schema: Schema): Option<RelationError> {
    match operator
    case Scan(_) => None
    case Filter(input, condition) =>
      if schema != input.schema then Some(FilterSchemaMismatch)
      else if ScalarError(condition, input.schema).Some? then ScalarError(condition, input.schema)
      else if IsBoolean(condition) then None else Some(NonBooleanPredicate)
    case Project(input, projections, _) =>
      if ProjectionColumnsFit(projections, schema) then ProjectionError(projections, schema, input.schema, 0)
      else Some(ProjectionSchemaMismatch)
    case Join(_, left, right, condition) =>
      if schema != left.schema + right.schema then Some(JoinSchemaMismatch)
      else if ScalarError(condition, left.schema + right.schema).Some? then ScalarError(condition, left.schema + right.schema)
      else if IsBoolean(condition) then None else Some(NonBooleanPredicate)
    case Distinct(input) => if schema != input.schema then Some(DistinctSchemaMismatch) else None
    case DistinctOn(input, columns) =>
      if columns == [] then Some(DistinctOnEmptySelection)
      else if SelectionError(columns, input.schema, 0).Some? then SelectionError(columns, input.schema, 0)
      else if schema != Selected(columns, input.schema) then Some(DistinctOnSchemaMismatch)
      else None
    case Sort(input, keys) =>
      if schema != input.schema then Some(SortSchemaMismatch)
      else if keys == [] then Some(EmptySortKeys)
      else SortKeyError(keys, input.schema, 0)
  }

  ghost predicate KeysInScope(facts: Facts, schema: Schema) {
    facts.candidateKeys.Proven? ==>
      forall k, c :: k in facts.candidateKeys.value && c in k ==> FindColumn(schema, c).Some?
  }

  ghost predicate OperatorOk(operator: RelationOperator, schema: Schema) {
    match operator
    case Scan(_) => true
    case Filter(input, condition) => schema == input.schema && PredicateOk(condition, input.schema)
    case Project(input, projections, _) =>
      && ProjectionColumnsFit(projections, schema)
      && forall i :: 0 <= i < |schema| ==>
           ScalarOk(projections[i].expression, input.schema) && SameColumnMetadata(projections[i].expression, schema[i])
    case Join(_, left, right, condition) =>
      schema == left.schema + right.schema && PredicateOk(condition, left.schema + right.schema)
    case Distinct(input) => schema == input.schema
    case DistinctOn(input, columns) => columns != [] && SelectionOk(columns, input.schema) && schema == Selected(columns, input.schema)
    case Sort(input, keys) => schema == input.schema && keys != [] && SortKeysOk(keys, input.schema)
  }

  ghost predicate SortKeysOk(keys: seq<SortKey>, input: Schema) {
    && (forall i :: 0 <= i < |keys| ==> FindColumn(input, keys[i].column).Some?)
    && (forall i, j :: 0 <= j < i < |keys| ==> keys[j].column != keys[i].column)
  }

  ghost predicate SelectionOk(columns: seq<ColumnId>, input: Schema) {
    && (forall i :: 0 <= i < |columns| ==> FindColumn(input, columns[i]).Some?)
    && (forall i, j :: 0 <= j < i < |columns| ==> columns[j] != columns[i])
  }

  /** Everything a constructed relational expression has been checked for, at every node. */
  ghost predicate Valid(r: Relation)
    decreases r
  {
    && DistinctIds(r.schema)
    && r.facts.InCanonicalForm()
    && OperatorOk(r.operator, r.schema)
    && KeysInScope(r.facts, r.schema)
    && match r.operator
       case Scan(_) => true
       case Filter(input, _) => Valid(input)
       case Project(input, _, _) => Valid(input)
       case Join(_, left, right, _) => Valid(left) && Valid(right)
       case Distinct(input) => Valid(input)
       case DistinctOn(input, _) => Valid(input)
       case Sort(input, _) => Valid(input)
  }

  lemma {:induction false} SortKeyErrorNone(keys: seq<SortKey>, input: Schema, i: nat)
    requires i <= |keys|
    ensures SortKeyError(keys, input, i).None? <==>
            forall k :: i <= k < |keys| ==>
              FindColumn(input, keys[k].column).Some? && forall j :: 0 <= j < k ==> keys[j].column != keys[k].column
    decreases |keys| - i
  {
    if i < |keys| {
      SortKeyErrorNone(keys, input, i + 1);
    }
  }

  lemma {:induction false} SelectionErrorNone(columns: seq<ColumnId>, input: Schema, i: nat)
    requires i <= |columns|
    ensures SelectionError(columns, input, i).None? <==>
            forall k :: i <= k < |columns| ==>
              FindColumn(input, columns[k]).Some? && forall j :: 0 <= j < k ==> columns[j] != columns[k]
    decreases |columns| - i
  {
    if i < |columns| {
      SelectionErrorNone(columns, input, i + 1);
    }
  }

  lemma {:induction false} ProjectionErrorNone(projections: seq<Projection>, schema: Schema, input: Schema, i: nat)
    requires |projections| == |schema| && i <= |projections|
    ensures ProjectionError(projections, schema, input, i).None? <==>
            forall k :: i <= k < |projections| ==>
              ScalarOk(projections[k].expression, input) && SameColumnMetadata(projections[k].expression, schema[k])
    decreases |projections| - i
  {
    if i < |projections| {
      ProjectionErrorNone(projections, schema, input, i + 1);
    }
  }

  /** The constructor's check passes exactly on the well-typed operators. */
  lemma OperatorErrorMeaning(operator: RelationOperator, schema: Schema)
    ensures OperatorError(operator, schema).None? <==> OperatorOk(operator, schema)
  {
    match operator
    case Scan(_) =>
    case Filter(_, _) =>
    case Project(input, projections, _) =>
      if ProjectionColumnsFit(projections, schema) {
        ProjectionErrorNone(projections, schema, input.schema, 0);
      }
    case Join(_, _, _, _) =>
    case Distinct(_) =>
    case DistinctOn(input, columns) => SelectionErrorNone(columns, input.schema, 0);
    case Sort(input, keys) => SortKeyErrorNone(keys, input.schema, 0);
  }

  // ---------- the constructors' checking loops ----------

  /** `RelationSchema::new`. */
  method NewSchema(columns: seq<Column>) returns (r: Result<Schema, RelationError>)
    ensures r.Success? <==> DistinctIds(columns)
    ensures r.Success? ==> r.value == columns
    ensures r.Failure? ==>
              exists i, j :: 0 <= j < i < |columns| && columns[j].id == columns[i].id
                             && DistinctIds(columns[..i]) && r.error == DuplicateColumnId(columns[i].id)
  {
    var ids: set<ColumnId> := {};
    for i := 0 to |columns|
      invariant ids == set k | 0 <= k < i :: columns[k].id
      invariant DistinctIds(columns[..i])
    {
      if columns[i].id in ids {
        var j :| 0 <= j < i && columns[j].id == columns[i].id;
        return Failure(DuplicateColumnId(columns[i].id));
      }
      ids := ids + {columns[i].id};
    }
    assert columns[..|columns|] == columns;
    return Success(columns);
  }

  /** `validate_sort`. */
  method ValidateSort(input: Relation, keys: seq<SortKey>, schema: Schema) returns (e: Option<RelationError>)
    ensures e == OperatorError(Sort(input, keys), schema)
  {
    if schema != input.schema {
      return Some(SortSchemaMismatch);
    }
    if keys == [] {
      return Some(EmptySortKeys);
    }
    var seen: set<ColumnId> := {};
    for i := 0 to |keys|
      invariant seen == set k | 0 <= k < i :: keys[k].column
      invariant SortKeyError(keys, input.schema, 0) == SortKeyError(keys, input.schema, i)
    {
      var column := keys[i].column;
      if FindColumn(input.schema, column).None? {
        return Some(UnknownSortKeyColumn(column));
      }
      if column in seen {
        return Some(DuplicateSortKeyColumn(column));
      }
      seen := seen + {column};
    }
    return None;
  }

  /** `validate_distinct_on_schema`. */
  method ValidateDistinctOn(input: Relation, columns: seq<ColumnId>, schema: Schema) returns (e: Option<RelationError>)
    ensures e == OperatorError(DistinctOn(input, columns), schema)
  {
    if columns == [] {
      return Some(DistinctOnEmptySelection);
    }
    var selected: Schema := [];
    var seen: set<ColumnId> := {};
    for i := 0 to |columns|
      invariant seen == set k | 0 <= k < i :: columns[k]
      invariant selected == Selected(columns[..i], input.schema)
      invariant SelectionError(columns, input.schema, 0) == SelectionError(columns, input.schema, i)
    {
      if columns[i] in seen {
        return Some(DistinctOnDuplicateColumn(columns[i]));
      }
      var column := FindColumn(input.schema, columns[i]);
      if column.None? {
        return Some(DistinctOnUnknownColumn(columns[i]));
      }
      seen := seen + {columns[i]};
      selected := selected + [column.value];
      assert columns[..i + 1][..i] == columns[..i];
    }
    assert columns[..|columns|] == columns;
    return if schema != selected then Some(DistinctOnSchemaMismatch) else None;
  }

  /** The projection arm of `validate_relation_operator`. */
  method ValidateProject(input: Relation, projections: seq<Projection>, kind: ProjectionKind, schema: Schema)
    returns (e: Option<RelationError>)
    ensures e == OperatorError(Project(input, projections, kind), schema)
  {
    if |projections| != |schema| {
      return Some(ProjectionSchemaMismatch);
    }
    for i := 0 to |schema|
      invariant forall k :: 0 <= k < i ==> projections[k].column == schema[k].id
    {
      if projections[i].column != schema[i].id {
        return Some(ProjectionSchemaMismatch);
      }
    }
    for i := 0 to |schema|
      invariant ProjectionError(projections, schema, input.schema, 0) == ProjectionError(projections, schema, input.schema, i)
    {
      var fault := ScalarError(projections[i].expression, input.schema);
      if fault.Some? {
        return fault;
      }
      if !SameColumnMetadata(projections[i].expression, schema[i]) {
        return Some(ColumnMetadataMismatch(projections[i].column));
      }
    }
    return None;
  }

  /** `validate_expression_keys`. */
  method ValidateKeys(schema: Schema, facts: Facts) returns (e: Option<RelationError>)
    ensures e.None? <==> KeysInScope(facts, schema)
    ensures e.Some? ==> e.value.UnknownKeyColumn? && FindColumn(schema, e.value.id).None?
  {
    if facts.candidateKeys.Unknown? {
      return None;
    }
    var keys := facts.candidateKeys.value;
    for i := 0 to |keys|
      invariant forall k, c :: 0 <= k < i && c in keys[k] ==> FindColumn(schema, c).Some?
    {
      for j := 0 to |keys[i]|
        invariant forall c :: c in keys[i][..j] ==> FindColumn(schema, c).Some?
      {
        if FindColumn(schema, keys[i][j]).None? {
          assert keys[i] in keys && keys[i][j] in keys[i];
          return Some(UnknownKeyColumn(keys[i][j]));
        }
      }
      assert keys[i][..|keys[i]|] == keys[i];
    }
    return None;
  }

  /** `RelationExpression::new`. */
  method NewRelation(operator: RelationOperator, schema: Schema, facts: Facts, origin: IrOrigin)
    returns (r: Result<Relation, RelationError>)
    ensures r.Success? <==> OperatorOk(operator, schema) && KeysInScope(facts, schema)
    ensures r.Success? ==> r.value == Relation(operator, schema, facts, origin)
    ensures OperatorError(operator, schema).Some? ==> r == Failure(OperatorError(operator, schema).value)
  {
    OperatorErrorMeaning(operator, schema);
    var fault: Option<RelationError> := None;
    match operator {
      case Scan(_) =>
      case Filter(input, condition) =>
        fault := if schema != input.schema then Some(FilterSchemaMismatch)
                 else if ScalarError(condition, input.schema).Some? then ScalarError(condition, input.schema)
                 else if IsBoolean(condition) then None else Some(NonBooleanPredicate);
      case Project(input, projections, kind) => fault := ValidateProject(input, projections, kind, schema);
      case Join(_, left, right, condition) =>
        var scope := left.schema + right.schema;
        fault := if schema != scope then Some(JoinSchemaMismatch)
                 else if ScalarError(condition, scope).Some? then ScalarError(condition, scope)
                 else if IsBoolean(condition) then None else Some(NonBooleanPredicate);
      case Distinct(input) => fault := if schema != input.schema then Some(DistinctSchemaMismatch) else None;
      case DistinctOn(input, columns) => fault := ValidateDistinctOn(input, columns, schema);
      case Sort(input, keys) => fault := ValidateSort(input, keys, schema);
    }
    if fault.Some? {
      return Failure(fault.value);
    }
    fault := ValidateKeys(schema, facts);
    if fault.Some? {
      return Failure(fault.value);
    }
    return Success(Relation(operator, schema, facts, origin));
  }
}
