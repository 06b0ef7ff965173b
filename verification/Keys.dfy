/** The normal-form key as a stream of length-prefixed fragments.
    Each encoder takes the stream that follows it, so a nested value is decoded
    by peeling fragments off the front. `provenance` selects the complete
    structural key; without it origins and definition sites are left out. */
module Keys {
  import opened Basics
  import opened Orders
  import opened Text
  import opened Relational
  import opened Semantics

  // ---------- the encoders ----------

  function EncColumnId(ids: seq<ColumnId>, id: ColumnId, rest: Tokens): Tokens {
    Token("column-id", Token(PlaceText(Position(ids, id)), rest))
  }

  function PlaceText(p: Place): string {
    match p
    case Some(position) => Decimal(position)
    case None => "missing"
  }

  function EncType(t: TypeRef, rest: Tokens): Tokens
    decreases t
  {
    Token("type", Token(t.rawType, Token(Decimal(|t.arguments|), EncTypes(t.arguments, rest))))
  }

  function EncTypes(ts: seq<TypeRef>, rest: Tokens): Tokens
    decreases ts
  {
    if ts == [] then rest else EncType(ts[0], EncTypes(ts[1..], rest))
  }

  function EncMultiplicity(m: Multiplicity, rest: Tokens): Tokens {
    Token("multiplicity", Token(Decimal(m.lower), Token(UpperText(m.upper), rest)))
  }

  function UpperText(upper: Option<u32>): string {
    match upper
    case Some(bound) => Decimal(bound)
    case None => "unbounded"
  }

  function NullabilityText(n: Nullability): string {
    match n
    case NonNullable => "non-null"
    case Nullable => "nullable"
    case NullabilityUnknown => "unknown"
  }

  function ProvenanceText(p: Provenance): string {
    match p
    case Pmcd => "pmcd"
    case PureFile => "pure-file"
  }

  function EncRange(range: TextRange, rest: Tokens): Tokens {
    Token(Decimal(range.start), Token(Decimal(range.end), rest))
  }

  function EncSpan(span: Option<TextRange>, rest: Tokens): Tokens {
    match span
    case Some(range) => EncRange(range, rest)
    case None => Token("no-span", rest)
  }

  function EncAnchor(anchor: DefinitionAnchor, rest: Tokens): Tokens {
    Token("anchor", Token(Decimal(anchor.source), EncSpan(anchor.span, rest)))
  }

  /** `structural_identity_key`. */
  function IdentityText(identity: ModelOriginIdentity): string {
    match identity
    case ClassIdentity(path) => "class:" + path
    case MemberIdentity(owner, name, kind) =>
      "member:" + owner + ":" + name + ":" +
      match kind
      case Qualified(UserQualified) => "qualified:user"
      case Qualified(MilestonedPoint) => "qualified:milestoned-point"
      case Qualified(AllVersions) => "qualified:all-versions"
      case Qualified(AllVersionsInRange) => "qualified:all-versions-in-range"
      case Property => "property"
      case AssociationEnd(association) => "association-end:" + association
  }

  function ModelOriginKindText(kind: ModelOriginKind): string {
    match kind
    case ClassKind => "class"
    case MemberKindOrigin => "member"
  }

  /** `model_origin_key`. */
  function ModelOriginText(m: ModelOrigin): string {
    Render(Token(ModelOriginKindText(m.kind),
                 Token(ProvenanceText(m.provenance),
                       Token(Decimal(m.definition.source), EncSpan(m.definition.span, Token(IdentityText(m.identity), End))))))
  }

  function ModelOriginTexts(origins: seq<ModelOrigin>): seq<string> {
    seq(|origins|, i requires 0 <= i < |origins| => ModelOriginText(origins[i]))
  }

  function EncTexts(texts: seq<string>, rest: Tokens): Tokens {
    if texts == [] then rest else Token(texts[0], EncTexts(texts[1..], rest))
  }

  function EncOrigin(origin: IrOrigin, rest: Tokens): Tokens {
    var texts := Canonical(CompareText, ModelOriginTexts(origin.modelOrigins));
    Token("origin", Token(Decimal(origin.source.file),
      EncRange(origin.source.range, Token(Decimal(|texts|), EncTexts(texts, rest)))))
  }

  function EncOriginIf(provenance: bool, origin: IrOrigin, rest: Tokens): Tokens {
    if provenance then EncOrigin(origin, rest) else rest
  }

  function TemporalText(temporal: Option<Temporal>): string {
    match temporal
    case None => "non-temporal"
    case Some(Bitemporal) => "bitemporal"
    case Some(BusinessTemporal) => "business-temporal"
    case Some(ProcessingTemporal) => "processing-temporal"
  }

  function EncDefinitionIf(provenance: bool, p: Provenance, definition: DefinitionAnchor, rest: Tokens): Tokens {
    if provenance then Token(ProvenanceText(p), EncAnchor(definition, rest)) else rest
  }

  function EncClass(provenance: bool, c: ResolvedClass, rest: Tokens): Tokens {
    Token("resolved-class", Token(c.path, Token(TemporalText(c.temporal),
      EncDefinitionIf(provenance, c.provenance, c.definition, rest))))
  }

  function EncMemberKind(kind: MemberKind, rest: Tokens): Tokens {
    match kind
    case Qualified(UserQualified) => Token("qualified", Token("user", rest))
    case Qualified(MilestonedPoint) => Token("qualified", Token("milestoned-point", rest))
    case Qualified(AllVersions) => Token("qualified", Token("all-versions", rest))
    case Qualified(AllVersionsInRange) => Token("qualified", Token("all-versions-in-range", rest))
    case Property => Token("property", rest)
    case AssociationEnd(association) => Token("association-end", Token(association, rest))
  }

  function EncSignature(signature: Option<seq<TypeRef>>, rest: Tokens): Tokens {
    match signature
    case Some(types) => Token("signature", Token(Decimal(|types|), EncTypes(types, rest)))
    case None => Token("no-signature", rest)
  }

  function ArityText(arity: Option<u8>): string {
    match arity
    case Some(n) => Decimal(n)
    case None => "no-target-temporal-arity"
  }

  function EncMember(provenance: bool, m: ResolvedMember, rest: Tokens): Tokens {
    Token("resolved-member", EncClass(provenance, m.owner, Token(m.name, EncType(m.target,
      EncMultiplicity(m.multiplicity, EncMemberKind(m.kind, EncSignature(m.signature,
      Token(ArityText(m.targetTemporalArity), EncDefinitionIf(provenance, m.provenance, m.definition, rest)))))))))
  }

  function EncLiteral(l: ScalarLiteral, rest: Tokens): Tokens {
    match l
    case BooleanLiteral(b) => Token("boolean", Token(if b then "true" else "false", rest))
    case IntegerLiteral(i) => Token("integer", Token(SignedDecimal(i), rest))
    case StringLiteral(s) => Token("string", Token(s, rest))
    case NullLiteral => Token("null", rest)
  }

  function EncTotality(provenance: bool, k: Knowledge<Totality>, rest: Tokens): Tokens {
    match k
    case Unknown => Token("totality", Token("unknown", rest))
    case Proven(value, origin) =>
      Token("totality", Token("proven", Token(if value == Total then "total" else "partial", EncOriginIf(provenance, origin, rest))))
  }

  function EncScalar(provenance: bool, e: Scalar, ids: seq<ColumnId>, rest: Tokens): Tokens
    decreases e, 1
  {
    Token("scalar", EncType(e.typeRef, EncMultiplicity(e.multiplicity, Token(NullabilityText(e.nullability),
      EncTotality(provenance, e.totality, EncOriginIf(provenance, e.origin, EncScalarOperator(provenance, e, ids, rest)))))))
  }

  function EncScalarOperator(provenance: bool, e: Scalar, ids: seq<ColumnId>, rest: Tokens): Tokens
    decreases e, 0
  {
    match e.operator
    case ColumnRead(id) => Token("column", EncColumnId(ids, id, rest))
    case Literal(l) => EncLiteral(l, rest)
    case Navigation(input, navigation) =>
      Token("navigation", EncScalar(provenance, input, ids, EncMember(provenance, navigation.member, rest)))
    case Equal(left, right) => Token("equal", EncScalar(provenance, left, ids, EncScalar(provenance, right, ids, rest)))
    case Not(input) => Token("not", EncScalar(provenance, input, ids, rest))
  }

  function EncColumn(provenance: bool, c: Column, ids: seq<ColumnId>, rest: Tokens): Tokens {
    Token("column", EncColumnId(ids, c.id, Token(c.name, EncType(c.typeRef, EncMultiplicity(c.multiplicity,
      Token(NullabilityText(c.nullability), EncOriginIf(provenance, c.origin, rest)))))))
  }

  function EncColumns(provenance: bool, columns: seq<Column>, ids: seq<ColumnId>, rest: Tokens): Tokens {
    if columns == [] then rest
    else EncColumn(provenance, columns[0], ids, EncColumns(provenance, columns[1..], ids, rest))
  }

  /** The positions of a key's columns; a column outside the scope is skipped. */
  function KnownPositions(ids: seq<ColumnId>, key: CandidateKey): seq<nat> {
    if key == [] then []
    else
      match Position(ids, key[0])
      case None => KnownPositions(ids, key[1..])
      case Some(p) => [p] + KnownPositions(ids, key[1..])
  }

  /** Candidate keys as an ascending list of ascending position lists. */
  function KeyPositions(ids: seq<ColumnId>, keys: seq<CandidateKey>): seq<seq<nat>> {
    Canonical(ComparePositions, seq(|keys|, i requires 0 <= i < |keys| => Orders.Sort(CompareNat, KnownPositions(ids, keys[i]))))
  }

  function EncPositions(positions: seq<nat>, rest: Tokens): Tokens {
    if positions == [] then rest else Token(Decimal(positions[0]), EncPositions(positions[1..], rest))
  }

  function EncPositionLists(lists: seq<seq<nat>>, rest: Tokens): Tokens {
    if lists == [] then rest
    else Token(Decimal(|lists[0]|), EncPositions(lists[0], EncPositionLists(lists[1..], rest)))
  }

  function EncKeys(provenance: bool, k: Knowledge<seq<CandidateKey>>, ids: seq<ColumnId>, rest: Tokens): Tokens {
    match k
    case Unknown => Token("keys", Token("unknown", rest))
    case Proven(keys, origin) =>
      var lists := KeyPositions(ids, keys);
      Token("keys", Token("proven", Token(Decimal(|lists|), EncPositionLists(lists, EncOriginIf(provenance, origin, rest)))))
  }

  function EncRowSemantics(provenance: bool, k: Knowledge<RowSemantics>, rest: Tokens): Tokens {
    match k
    case Unknown => Token("row-semantics", Token("unknown", rest))
    case Proven(rows, origin) =>
      Token("row-semantics", Token("proven", Token(if rows == SetRows then "set" else "bag", EncOriginIf(provenance, origin, rest))))
  }

  function EncFacts(provenance: bool, f: Facts, ids: seq<ColumnId>, rest: Tokens): Tokens {
    Token("facts", EncKeys(provenance, f.candidateKeys, ids, EncRowSemantics(provenance, f.rowSemantics, rest)))
  }

  function EncProjections(provenance: bool, ps: seq<Projection>, output: seq<ColumnId>, input: seq<ColumnId>, rest: Tokens): Tokens {
    if ps == [] then rest
    else EncColumnId(output, ps[0].column,
           EncScalar(provenance, ps[0].expression, input, EncProjections(provenance, ps[1..], output, input, rest)))
  }

  function EncSelection(columns: seq<ColumnId>, ids: seq<ColumnId>, rest: Tokens): Tokens {
    if columns == [] then rest else EncColumnId(ids, columns[0], EncSelection(columns[1..], ids, rest))
  }

  function DirectionText(direction: SortDirection): string {
    match direction
    case Ascending => "ascending"
    case Descending => "descending"
  }

  function EncSortKeys(provenance: bool, keys: seq<SortKey>, ids: seq<ColumnId>, rest: Tokens): Tokens {
    if keys == [] then rest
    else Token("sort-key", EncColumnId(ids, keys[0].column,
           Token(DirectionText(keys[0].direction),
                 EncOriginIf(provenance, keys[0].origin, EncSortKeys(provenance, keys[1..], ids, rest)))))
  }

  function EncSchema(provenance: bool, schema: Schema, rest: Tokens): Tokens {
    Token("schema", Token(Decimal(|schema|), EncColumns(provenance, schema, Ids(schema), rest)))
  }

  function EncRelation(provenance: bool, r: Relation, rest: Tokens): Tokens
    decreases r, 1
  {
    Token("relation", EncSchema(provenance, r.schema, EncFacts(provenance, r.facts, Ids(r.schema),
      EncOriginIf(provenance, r.origin, EncOperator(provenance, r, rest)))))
  }

  function EncOperator(provenance: bool, r: Relation, rest: Tokens): Tokens
    decreases r, 0
  {
    match r.operator
    case Scan(c) => Token("scan", Token("class", EncClass(provenance, c, rest)))
    case Filter(input, condition) =>
      Token("filter", EncRelation(provenance, input, EncScalar(provenance, condition, Ids(input.schema), rest)))
    case Project(input, projections, kind) =>
      Token("project", Token(if kind == ScalarProjection then "scalar" else "relation",
        EncRelation(provenance, input, Token(Decimal(|projections|),
          EncProjections(provenance, projections, Ids(r.schema), Ids(input.schema), rest)))))
    case Join(_, left, right, condition) =>
      Token("join", Token("inner", EncRelation(provenance, left, EncRelation(provenance, right,
        EncScalar(provenance, condition, Ids(left.schema) + Ids(right.schema), rest)))))
    case Distinct(input) => Token("distinct", EncRelation(provenance, input, rest))
    case DistinctOn(input, columns) =>
      Token("distinct-on", EncRelation(provenance, input, Token(Decimal(|columns|), EncSelection(columns, Ids(input.schema), rest))))
    case Sort(input, keys) =>
      Token("sort", EncRelation(provenance, input, Token(Decimal(|keys|), EncSortKeys(provenance, keys, Ids(input.schema), rest))))
  }

  /** `EquivalenceKey`. */
  function EquivalenceKey(r: Relation): string {
    Render(EncRelation(false, r, End))
  }

  /** `StructuralKey`: the normal form's semantic key and its input's provenance key. */
  function StructuralKey(normal: Relation, input: Relation): string {
    Render(Token("normal-form-v1", Token(EquivalenceKey(normal),
      Token("input-provenance-v1", Token(Render(EncRelation(true, input, End)), End)))))
  }

  // ---------- what a semantic key retains ----------

  const BLANK_ORIGIN := IrOrigin(SourceSpan(0, TextRange(0, 0)), [])
  const BLANK_ANCHOR := DefinitionAnchor(0, None)

  /** A column identity replaced by its place in its scope, counted from `base`. */
  function ErasedId(ids: seq<ColumnId>, id: ColumnId, base: nat): ColumnId {
    match Position(ids, id)
    case Some(p) => base + p
    case None => base + |ids|
  }

  function EraseKnowledge<T(==)>(k: Knowledge<T>): Knowledge<T> {
    match k
    case Unknown => Unknown
    case Proven(value, _) => Proven(value, BLANK_ORIGIN)
  }

  function EraseClass(c: ResolvedClass): ResolvedClass {
    ResolvedClass(0, c.path, c.temporal, Pmcd, BLANK_ANCHOR)
  }

  function EraseMember(m: ResolvedMember): ResolvedMember {
    m.(owner := EraseClass(m.owner), provenance := Pmcd, definition := BLANK_ANCHOR)
  }

  function EraseScalar(e: Scalar, ids: seq<ColumnId>, base: nat): Scalar
    decreases e
  {
    var operator :=
      match e.operator
      case ColumnRead(id) => ColumnRead(ErasedId(ids, id, base))
      case Literal(l) => Literal(l)
      case Navigation(input, navigation) =>
        Navigation(EraseScalar(input, ids, base),
                   ResolvedNavigation(LocalValue(UnknownLocal, EXACTLY_ONE), EraseMember(navigation.member)))
      case Equal(left, right) => ScalarOperator.Equal(EraseScalar(left, ids, base), EraseScalar(right, ids, base))
      case Not(input) => Not(EraseScalar(input, ids, base));
    Scalar(operator, e.typeRef, e.multiplicity, e.nullability, EraseKnowledge(e.totality), BLANK_ORIGIN)
  }

  function EraseColumn(c: Column, ids: seq<ColumnId>, base: nat): Column {
    c.(id := ErasedId(ids, c.id, base), origin := BLANK_ORIGIN)
  }

  function EraseColumns(columns: seq<Column>, ids: seq<ColumnId>, base: nat): seq<Column> {
    seq(|columns|, i requires 0 <= i < |columns| => EraseColumn(columns[i], ids, base))
  }

  function EraseFacts(f: Facts, ids: seq<ColumnId>): Facts {
    Facts(match f.candidateKeys
          case Unknown => Unknown
          case Proven(keys, _) => Proven(KeyPositions(ids, keys), BLANK_ORIGIN),
          EraseKnowledge(f.rowSemantics))
  }

  function EraseProjections(ps: seq<Projection>, output: seq<ColumnId>, input: seq<ColumnId>, base: nat): seq<Projection> {
    seq(|ps|, i requires 0 <= i < |ps| =>
      Projection(ErasedId(output, ps[i].column, base), EraseScalar(ps[i].expression, input, base)))
  }

  function EraseSelection(columns: seq<ColumnId>, ids: seq<ColumnId>, base: nat): seq<ColumnId> {
    seq(|columns|, i requires 0 <= i < |columns| => ErasedId(ids, columns[i], base))
  }

  function EraseSortKeys(keys: seq<SortKey>, ids: seq<ColumnId>, base: nat): seq<SortKey> {
    seq(|keys|, i requires 0 <= i < |keys| => SortKey(ErasedId(ids, keys[i].column, base), keys[i].direction, BLANK_ORIGIN))
  }

  /** A relation without its column identities and origins: every column is
      named by its place, a join's right side counting on from its left. Two
      relations erase alike exactly when they are the same query up to the
      choice of identities in each scope and up to provenance. */
  function Erase(r: Relation, base: nat): Relation
    decreases r
  {
    var operator :=
      match r.operator
      case Scan(c) => Scan(EraseClass(c))
      case Filter(input, condition) => Filter(Erase(input, base), EraseScalar(condition, Ids(input.schema), base))
      case Project(input, projections, kind) =>
        Project(Erase(input, base), EraseProjections(projections, Ids(r.schema), Ids(input.schema), base), kind)
      case Join(kind, left, right, condition) =>
        Join(kind, Erase(left, base), Erase(right, base + |left.schema|),
             EraseScalar(condition, Ids(left.schema) + Ids(right.schema), base))
      case Distinct(input) => Distinct(Erase(input, base))
      case DistinctOn(input, columns) => DistinctOn(Erase(input, base), EraseSelection(columns, Ids(input.schema), base))
      case Sort(input, keys) => RelationOperator.Sort(Erase(input, base), EraseSortKeys(keys, Ids(input.schema), base));
    Relation(operator, EraseColumns(r.schema, Ids(r.schema), base), EraseFacts(r.facts, Ids(r.schema)), BLANK_ORIGIN)
  }

  // ---------- the stream determines the erased value and what follows it ----------

  lemma ColumnIdDecodes(ids1: seq<ColumnId>, id1: ColumnId, r1: Tokens, ids2: seq<ColumnId>, id2: ColumnId, r2: Tokens)
    requires EncColumnId(ids1, id1, r1) == EncColumnId(ids2, id2, r2)
    ensures Position(ids1, id1) == Position(ids2, id2) && r1 == r2
  {
    match (Position(ids1, id1), Position(ids2, id2))
    case (Some(p), Some(q)) => DecimalInjective(p, q);
    case (Some(p), None) => DecimalIsNoWord(p, "missing");
    case (None, Some(q)) => DecimalIsNoWord(q, "missing");
    case (None, None) =>
  }

  lemma {:induction false} TypeDecodes(a: TypeRef, r1: Tokens, b: TypeRef, r2: Tokens)
    requires EncType(a, r1) == EncType(b, r2)
    ensures a == b && r1 == r2
    decreases a
  {
    DecimalInjective(|a.arguments|, |b.arguments|);
    TypesDecode(a.arguments, r1, b.arguments, r2);
  }

  lemma {:induction false} TypesDecode(a: seq<TypeRef>, r1: Tokens, b: seq<TypeRef>, r2: Tokens)
    requires |a| == |b| && EncTypes(a, r1) == EncTypes(b, r2)
    ensures a == b && r1 == r2
    decreases a
  {
    if a != [] {
      TypeDecodes(a[0], EncTypes(a[1..], r1), b[0], EncTypes(b[1..], r2));
      TypesDecode(a[1..], r1, b[1..], r2);
      assert a == [a[0]] + a[1..] && b == [b[0]] + b[1..];
    }
  }

  lemma MultiplicityDecodes(a: Multiplicity, r1: Tokens, b: Multiplicity, r2: Tokens)
    requires EncMultiplicity(a, r1) == EncMultiplicity(b, r2)
    ensures a == b && r1 == r2
  {
    DecimalInjective(a.lower, b.lower);
    match (a.upper, b.upper)
    case (Some(p), Some(q)) => DecimalInjective(p, q);
    case (Some(p), None) => DecimalIsNoWord(p, "unbounded");
    case (None, Some(q)) => DecimalIsNoWord(q, "unbounded");
    case (None, None) =>
  }

  lemma ClassDecodes(a: ResolvedClass, r1: Tokens, b: ResolvedClass, r2: Tokens)
    requires EncClass(false, a, r1) == EncClass(false, b, r2)
    ensures EraseClass(a) == EraseClass(b) && r1 == r2
  {
  }

  lemma MemberKindDecodes(a: MemberKind, r1: Tokens, b: MemberKind, r2: Tokens)
    requires EncMemberKind(a, r1) == EncMemberKind(b, r2)
    ensures a == b && r1 == r2
  {
  }

  lemma SignatureDecodes(a: Option<seq<TypeRef>>, r1: Tokens, b: Option<seq<TypeRef>>, r2: Tokens)
    requires EncSignature(a, r1) == EncSignature(b, r2)
    ensures a == b && r1 == r2
  {
    if a.Some? && b.Some? {
      DecimalInjective(|a.value|, |b.value|);
      TypesDecode(a.value, r1, b.value, r2);
    }
  }

  lemma ArityDecodes(a: Option<u8>, b: Option<u8>)
    requires ArityText(a) == ArityText(b)
    ensures a == b
  {
    match (a, b)
    case (Some(p), Some(q)) => DecimalInjective(p, q);
    case (Some(p), None) => DecimalIsNoWord(p, "no-target-temporal-arity");
    case (None, Some(q)) => DecimalIsNoWord(q, "no-target-temporal-arity");
    case (None, None) =>
  }

  lemma MemberDecodes(a: ResolvedMember, r1: Tokens, b: ResolvedMember, r2: Tokens)
    requires EncMember(false, a, r1) == EncMember(false, b, r2)
    ensures EraseMember(a) == EraseMember(b) && r1 == r2
  {
    var a4, b4 := Token(ArityText(a.targetTemporalArity), r1), Token(ArityText(b.targetTemporalArity), r2);
    var a3, b3 := EncSignature(a.signature, a4), EncSignature(b.signature, b4);
    var a2, b2 := EncMemberKind(a.kind, a3), EncMemberKind(b.kind, b3);
    var a1, b1 := EncMultiplicity(a.multiplicity, a2), EncMultiplicity(b.multiplicity, b2);
    TypeDecodes(a.target, a1, b.target, b1);
    MultiplicityDecodes(a.multiplicity, a2, b.multiplicity, b2);
    MemberKindDecodes(a.kind, a3, b.kind, b3);
    SignatureDecodes(a.signature, a4, b.signature, b4);
    ArityDecodes(a.targetTemporalArity, b.targetTemporalArity);
  }

  lemma TotalityDecodes(a: Knowledge<Totality>, r1: Tokens, b: Knowledge<Totality>, r2: Tokens)
    requires EncTotality(false, a, r1) == EncTotality(false, b, r2)
    ensures EraseKnowledge(a) == EraseKnowledge(b) && r1 == r2
  {
  }

  lemma LiteralDecodes(a: ScalarLiteral, r1: Tokens, b: ScalarLiteral, r2: Tokens)
    requires EncLiteral(a, r1) == EncLiteral(b, r2)
    ensures a == b && r1 == r2
  {
    if a.IntegerLiteral? && b.IntegerLiteral? {
      SignedDecimalInjective(a.i, b.i);
    }
  }

  lemma {:induction false} ScalarDecodes(a: Scalar, ids1: seq<ColumnId>, r1: Tokens, b: Scalar, ids2: seq<ColumnId>, r2: Tokens, base: nat)
    requires |ids1| == |ids2|
    requires EncScalar(false, a, ids1, r1) == EncScalar(false, b, ids2, r2)
    ensures EraseScalar(a, ids1, base) == EraseScalar(b, ids2, base) && r1 == r2
    decreases a, 1
  {
    var a3, b3 := EncScalarOperator(false, a, ids1, r1), EncScalarOperator(false, b, ids2, r2);
    var a2, b2 := EncTotality(false, a.totality, a3), EncTotality(false, b.totality, b3);
    var a1, b1 := Token(NullabilityText(a.nullability), a2), Token(NullabilityText(b.nullability), b2);
    TypeDecodes(a.typeRef, EncMultiplicity(a.multiplicity, a1), b.typeRef, EncMultiplicity(b.multiplicity, b1));
    MultiplicityDecodes(a.multiplicity, a1, b.multiplicity, b1);
    TotalityDecodes(a.totality, a3, b.totality, b3);
    ScalarOperatorDecodes(a, ids1, r1, b, ids2, r2, base);
  }

  lemma {:induction false} ScalarOperatorDecodes(a: Scalar, ids1: seq<ColumnId>, r1: Tokens, b: Scalar, ids2: seq<ColumnId>, r2: Tokens, base: nat)
    requires |ids1| == |ids2|
    requires EncScalarOperator(false, a, ids1, r1) == EncScalarOperator(false, b, ids2, r2)
    ensures EraseScalar(a, ids1, base).operator == EraseScalar(b, ids2, base).operator && r1 == r2
    decreases a, 0
  {
    hide EncScalar, EncMember, EncColumnId, EraseMember;
    match (a.operator, b.operator)
    case (ColumnRead(i), ColumnRead(j)) => ColumnIdDecodes(ids1, i, r1, ids2, j, r2);
    case (Literal(l), Literal(m)) => LiteralDecodes(l, r1, m, r2);
    case (Navigation(i, n), Navigation(j, o)) =>
      ScalarDecodes(i, ids1, EncMember(false, n.member, r1), j, ids2, EncMember(false, o.member, r2), base);
      MemberDecodes(n.member, r1, o.member, r2);
    case (Equal(i, k), Equal(j, l)) =>
      ScalarDecodes(i, ids1, EncScalar(false, k, ids1, r1), j, ids2, EncScalar(false, l, ids2, r2), base);
      ScalarDecodes(k, ids1, r1, l, ids2, r2, base);
    case (Not(i), Not(j)) => ScalarDecodes(i, ids1, r1, j, ids2, r2, base);
    case _ =>
  }

  lemma ColumnDecodes(a: Column, ids1: seq<ColumnId>, r1: Tokens, b: Column, ids2: seq<ColumnId>, r2: Tokens, base: nat)
    requires |ids1| == |ids2|
    requires EncColumn(false, a, ids1, r1) == EncColumn(false, b, ids2, r2)
    ensures EraseColumn(a, ids1, base) == EraseColumn(b, ids2, base) && r1 == r2
  {
    var a1, b1 := Token(NullabilityText(a.nullability), r1), Token(NullabilityText(b.nullability), r2);
    var a2, b2 := EncMultiplicity(a.multiplicity, a1), EncMultiplicity(b.multiplicity, b1);
    ColumnIdDecodes(ids1, a.id, Token(a.name, EncType(a.typeRef, a2)), ids2, b.id, Token(b.name, EncType(b.typeRef, b2)));
    TypeDecodes(a.typeRef, a2, b.typeRef, b2);
    MultiplicityDecodes(a.multiplicity, a1, b.multiplicity, b1);
  }

  lemma {:induction false} ColumnsDecode(a: seq<Column>, ids1: seq<ColumnId>, r1: Tokens, b: seq<Column>, ids2: seq<ColumnId>, r2: Tokens, base: nat)
    requires |ids1| == |ids2| && |a| == |b|
    requires EncColumns(false, a, ids1, r1) == EncColumns(false, b, ids2, r2)
    ensures EraseColumns(a, ids1, base) == EraseColumns(b, ids2, base) && r1 == r2
    decreases |a|
  {
    hide EncColumn, EraseColumn;
    if a != [] {
      var s, t := EncColumns(false, a[1..], ids1, r1), EncColumns(false, b[1..], ids2, r2);
      ColumnDecodes(a[0], ids1, s, b[0], ids2, t, base);
      ColumnsDecode(a[1..], ids1, r1, b[1..], ids2, r2, base);
      assert EraseColumns(a, ids1, base) == [EraseColumn(a[0], ids1, base)] + EraseColumns(a[1..], ids1, base);
      assert EraseColumns(b, ids2, base) == [EraseColumn(b[0], ids2, base)] + EraseColumns(b[1..], ids2, base);
    }
  }

  lemma {:induction false} PositionsDecode(a: seq<nat>, r1: Tokens, b: seq<nat>, r2: Tokens)
    requires |a| == |b| && EncPositions(a, r1) == EncPositions(b, r2)
    ensures a == b && r1 == r2
  {
    if a != [] {
      DecimalInjective(a[0], b[0]);
      PositionsDecode(a[1..], r1, b[1..], r2);
      assert a == [a[0]] + a[1..] && b == [b[0]] + b[1..];
    }
  }

  lemma {:induction false} PositionListsDecode(a: seq<seq<nat>>, r1: Tokens, b: seq<seq<nat>>, r2: Tokens)
    requires |a| == |b| && EncPositionLists(a, r1) == EncPositionLists(b, r2)
    ensures a == b && r1 == r2
    decreases |a|
  {
    if a != [] {
      DecimalInjective(|a[0]|, |b[0]|);
      PositionsDecode(a[0], EncPositionLists(a[1..], r1), b[0], EncPositionLists(b[1..], r2));
      PositionListsDecode(a[1..], r1, b[1..], r2);
      assert a == [a[0]] + a[1..] && b == [b[0]] + b[1..];
    }
  }

  lemma FactsDecode(a: Facts, ids1: seq<ColumnId>, r1: Tokens, b: Facts, ids2: seq<ColumnId>, r2: Tokens)
    requires EncFacts(false, a, ids1, r1) == EncFacts(false, b, ids2, r2)
    ensures EraseFacts(a, ids1) == EraseFacts(b, ids2) && r1 == r2
  {
    if a.candidateKeys.Proven? && b.candidateKeys.Proven? {
      var k, l := KeyPositions(ids1, a.candidateKeys.value), KeyPositions(ids2, b.candidateKeys.value);
      DecimalInjective(|k|, |l|);
      PositionListsDecode(k, EncRowSemantics(false, a.rowSemantics, r1), l, EncRowSemantics(false, b.rowSemantics, r2));
    }
  }

  lemma {:induction false} ProjectionsDecode(
    a: seq<Projection>, out1: seq<ColumnId>, in1: seq<ColumnId>, r1: Tokens,
    b: seq<Projection>, out2: seq<ColumnId>, in2: seq<ColumnId>, r2: Tokens, base: nat)
    requires |a| == |b| && |out1| == |out2| && |in1| == |in2|
    requires EncProjections(false, a, out1, in1, r1) == EncProjections(false, b, out2, in2, r2)
    ensures EraseProjections(a, out1, in1, base) == EraseProjections(b, out2, in2, base) && r1 == r2
    decreases |a|
  {
    hide EncColumnId, EncScalar, EraseScalar;
    if a != [] {
      var s, t := EncProjections(false, a[1..], out1, in1, r1), EncProjections(false, b[1..], out2, in2, r2);
      ColumnIdDecodes(out1, a[0].column, EncScalar(false, a[0].expression, in1, s),
                      out2, b[0].column, EncScalar(false, b[0].expression, in2, t));
      ScalarDecodes(a[0].expression, in1, s, b[0].expression, in2, t, base);
      ProjectionsDecode(a[1..], out1, in1, r1, b[1..], out2, in2, r2, base);
      assert EraseProjections(a, out1, in1, base) == EraseProjections(a[..1], out1, in1, base) + EraseProjections(a[1..], out1, in1, base);
      assert EraseProjections(b, out2, in2, base) == EraseProjections(b[..1], out2, in2, base) + EraseProjections(b[1..], out2, in2, base);
    }
  }

  lemma {:induction false} SelectionDecodes(a: seq<ColumnId>, ids1: seq<ColumnId>, r1: Tokens, b: seq<ColumnId>, ids2: seq<ColumnId>, r2: Tokens, base: nat)
    requires |a| == |b| && |ids1| == |ids2|
    requires EncSelection(a, ids1, r1) == EncSelection(b, ids2, r2)
    ensures EraseSelection(a, ids1, base) == EraseSelection(b, ids2, base) && r1 == r2
    decreases |a|
  {
    hide EncColumnId;
    if a != [] {
      ColumnIdDecodes(ids1, a[0], EncSelection(a[1..], ids1, r1), ids2, b[0], EncSelection(b[1..], ids2, r2));
      SelectionDecodes(a[1..], ids1, r1, b[1..], ids2, r2, base);
      assert EraseSelection(a, ids1, base) == [ErasedId(ids1, a[0], base)] + EraseSelection(a[1..], ids1, base);
      assert EraseSelection(b, ids2, base) == [ErasedId(ids2, b[0], base)] + EraseSelection(b[1..], ids2, base);
    }
  }

  lemma {:induction false} SortKeysDecode(a: seq<SortKey>, ids1: seq<ColumnId>, r1: Tokens, b: seq<SortKey>, ids2: seq<ColumnId>, r2: Tokens, base: nat)
    requires |a| == |b| && |ids1| == |ids2|
    requires EncSortKeys(false, a, ids1, r1) == EncSortKeys(false, b, ids2, r2)
    ensures EraseSortKeys(a, ids1, base) == EraseSortKeys(b, ids2, base) && r1 == r2
    decreases |a|
  {
    hide EncColumnId;
    if a != [] {
      var s1 := Token(DirectionText(a[0].direction), EncSortKeys(false, a[1..], ids1, r1));
      var s2 := Token(DirectionText(b[0].direction), EncSortKeys(false, b[1..], ids2, r2));
      ColumnIdDecodes(ids1, a[0].column, s1, ids2, b[0].column, s2);
      SortKeysDecode(a[1..], ids1, r1, b[1..], ids2, r2, base);
      assert EraseSortKeys(a, ids1, base) == EraseSortKeys(a[..1], ids1, base) + EraseSortKeys(a[1..], ids1, base);
      assert EraseSortKeys(b, ids2, base) == EraseSortKeys(b[..1], ids2, base) + EraseSortKeys(b[1..], ids2, base);
    }
  }

  lemma {:induction false} RelationDecodes(a: Relation, r1: Tokens, b: Relation, r2: Tokens, base: nat)
    requires EncRelation(false, a, r1) == EncRelation(false, b, r2)
    ensures Erase(a, base) == Erase(b, base) && |a.schema| == |b.schema| && r1 == r2
    decreases a, 2
  {
    var a2, b2 := EncOperator(false, a, r1), EncOperator(false, b, r2);
    var a1, b1 := EncFacts(false, a.facts, Ids(a.schema), a2), EncFacts(false, b.facts, Ids(b.schema), b2);
    DecimalInjective(|a.schema|, |b.schema|);
    ColumnsDecode(a.schema, Ids(a.schema), a1, b.schema, Ids(b.schema), b1, base);
    FactsDecode(a.facts, Ids(a.schema), a2, b.facts, Ids(b.schema), b2);
    OperatorDecodes(a, r1, b, r2, base);
  }

  lemma {:induction false} OperatorDecodes(a: Relation, r1: Tokens, b: Relation, r2: Tokens, base: nat)
    requires |a.schema| == |b.schema|
    requires EncOperator(false, a, r1) == EncOperator(false, b, r2)
    ensures Erase(a, base).operator == Erase(b, base).operator && r1 == r2
    decreases a, 1
  {
    SameOperator(a, r1, b, r2);
    match a.operator
    case Scan(c) => ClassDecodes(c, r1, b.operator.cls, r2);
    case Filter(_, _) => FilterDecodes(a, r1, b, r2, base);
    case Project(_, _, _) => ProjectDecodes(a, r1, b, r2, base);
    case Join(_, _, _, _) => JoinDecodes(a, r1, b, r2, base);
    case Distinct(i) => RelationDecodes(i, r1, b.operator.input, r2, base);
    case DistinctOn(_, _) => DistinctOnDecodes(a, r1, b, r2, base);
    case Sort(_, _) => SortDecodes(a, r1, b, r2, base);
  }

  lemma {:induction false} FilterDecodes(a: Relation, r1: Tokens, b: Relation, r2: Tokens, base: nat)
    requires |a.schema| == |b.schema| && a.operator.Filter? && b.operator.Filter?
    requires EncOperator(false, a, r1) == EncOperator(false, b, r2)
    ensures Erase(a, base).operator == Erase(b, base).operator && r1 == r2
    decreases a, 0
  {
    hide EncRelation, EncScalar, EraseScalar;
    var i, p := a.operator.input, a.operator.predicate_;
    var j, q := b.operator.input, b.operator.predicate_;
    RelationDecodes(i, EncScalar(false, p, Ids(i.schema), r1), j, EncScalar(false, q, Ids(j.schema), r2), base);
    ScalarDecodes(p, Ids(i.schema), r1, q, Ids(j.schema), r2, base);
  }

  lemma {:induction false} ProjectDecodes(a: Relation, r1: Tokens, b: Relation, r2: Tokens, base: nat)
    requires |a.schema| == |b.schema| && a.operator.Project? && b.operator.Project?
    requires EncOperator(false, a, r1) == EncOperator(false, b, r2)
    ensures Erase(a, base).operator == Erase(b, base).operator && r1 == r2
    decreases a, 0
  {
    hide EncRelation, EncProjections, EraseProjections;
    var i, ps := a.operator.input, a.operator.projections;
    var j, qs := b.operator.input, b.operator.projections;
    var s := EncProjections(false, ps, Ids(a.schema), Ids(i.schema), r1);
    var t := EncProjections(false, qs, Ids(b.schema), Ids(j.schema), r2);
    RelationDecodes(i, Token(Decimal(|ps|), s), j, Token(Decimal(|qs|), t), base);
    DecimalInjective(|ps|, |qs|);
    ProjectionsDecode(ps, Ids(a.schema), Ids(i.schema), r1, qs, Ids(b.schema), Ids(j.schema), r2, base);
  }

  lemma {:induction false} JoinDecodes(a: Relation, r1: Tokens, b: Relation, r2: Tokens, base: nat)
    requires |a.schema| == |b.schema| && a.operator.Join? && b.operator.Join?
    requires EncOperator(false, a, r1) == EncOperator(false, b, r2)
    ensures Erase(a, base).operator == Erase(b, base).operator && r1 == r2
    decreases a, 0
  {
    hide EncRelation, EncScalar, EraseScalar;
    var i, k, p := a.operator.left, a.operator.right, a.operator.condition;
    var j, l, q := b.operator.left, b.operator.right, b.operator.condition;
    var s := EncScalar(false, p, Ids(i.schema) + Ids(k.schema), r1);
    var t := EncScalar(false, q, Ids(j.schema) + Ids(l.schema), r2);
    RelationDecodes(i, EncRelation(false, k, s), j, EncRelation(false, l, t), base);
    RelationDecodes(k, s, l, t, base + |i.schema|);
    ScalarDecodes(p, Ids(i.schema) + Ids(k.schema), r1, q, Ids(j.schema) + Ids(l.schema), r2, base);
  }

  lemma {:induction false} DistinctOnDecodes(a: Relation, r1: Tokens, b: Relation, r2: Tokens, base: nat)
    requires |a.schema| == |b.schema| && a.operator.DistinctOn? && b.operator.DistinctOn?
    requires EncOperator(false, a, r1) == EncOperator(false, b, r2)
    ensures Erase(a, base).operator == Erase(b, base).operator && r1 == r2
    decreases a, 0
  {
    hide EncRelation, EncSelection, EraseSelection;
    var i, cs := a.operator.input, a.operator.columns;
    var j, ds := b.operator.input, b.operator.columns;
    var s, t := EncSelection(cs, Ids(i.schema), r1), EncSelection(ds, Ids(j.schema), r2);
    RelationDecodes(i, Token(Decimal(|cs|), s), j, Token(Decimal(|ds|), t), base);
    DecimalInjective(|cs|, |ds|);
    SelectionDecodes(cs, Ids(i.schema), r1, ds, Ids(j.schema), r2, base);
  }

  lemma {:induction false} SortDecodes(a: Relation, r1: Tokens, b: Relation, r2: Tokens, base: nat)
    requires |a.schema| == |b.schema| && a.operator.Sort? && b.operator.Sort?
    requires EncOperator(false, a, r1) == EncOperator(false, b, r2)
    ensures Erase(a, base).operator == Erase(b, base).operator && r1 == r2
    decreases a, 0
  {
    hide EncRelation, EncSortKeys, EraseSortKeys;
    var i, ks := a.operator.input, a.operator.keys;
    var j, ls := b.operator.input, b.operator.keys;
    var s, t := EncSortKeys(false, ks, Ids(i.schema), r1), EncSortKeys(false, ls, Ids(j.schema), r2);
    RelationDecodes(i, Token(Decimal(|ks|), s), j, Token(Decimal(|ls|), t), base);
    DecimalInjective(|ks|, |ls|);
    SortKeysDecode(ks, Ids(i.schema), r1, ls, Ids(j.schema), r2, base);
  }

  lemma {:induction false} SameOperator(a: Relation, r1: Tokens, b: Relation, r2: Tokens)
    requires EncOperator(false, a, r1) == EncOperator(false, b, r2)
    ensures a.operator.Scan? == b.operator.Scan? && a.operator.Filter? == b.operator.Filter?
    ensures a.operator.Project? == b.operator.Project? && a.operator.Join? == b.operator.Join?
    ensures a.operator.Distinct? == b.operator.Distinct? && a.operator.DistinctOn? == b.operator.DistinctOn?
    ensures a.operator.Sort? == b.operator.Sort?
  {
    assert EncOperator(false, a, r1).text == OperatorTag(a.operator);
    assert EncOperator(false, b, r2).text == OperatorTag(b.operator);
  }

  function OperatorTag(operator: RelationOperator): string {
    match operator
    case Scan(_) => "scan"
    case Filter(_, _) => "filter"
    case Project(_, _, _) => "project"
    case Join(_, _, _, _) => "join"
    case Distinct(_) => "distinct"
    case DistinctOn(_, _) => "distinct-on"
    case Sort(_, _) => "sort"
  }
}
