/** Fail-closed comparison of two queries through their normal forms. */
module Comparison {
  import opened Basics
  import opened Orders
  import opened Text
  import opened Relational
  import opened Semantics
  import opened Normalization
  import opened Keys
  import opened Erasure

  datatype NormalizedQuery = NormalizedQuery(root: Relation, equivalenceKey: string, structuralKey: string)

  datatype NormalizationOutcome = Normalized(query: NormalizedQuery) | NotNormalized(failure: Refusal)

  function NormalFormOf(root: Relation): NormalizedQuery {
    var normal := Normal(root);
    NormalizedQuery(normal, EquivalenceKey(normal), StructuralKey(normal, root))
  }

  /** What normalization answers: the normal form, or the origin of the first
      node the budget or the depth bound turned away. */
  function NormalizeQuery(root: Relation, budget: nat): NormalizationOutcome {
    match Run(Visits(root, 0, Done), budget)
    case Finished(_) => Normalized(NormalFormOf(root))
    case Refused(origin) => NotNormalized(Refusal(IndMissingRewrite, origin))
  }

  datatype OutputSchemaField = NameField | TypeField | MultiplicityField | NullabilityField

  datatype DifferenceKind =
    | OutputColumnCount(primaryCount: nat, secondaryCount: nat)
    | OutputColumn(index: nat, field: OutputSchemaField)

  datatype StructuralDifference = StructuralDifference(kind: DifferenceKind, primary: IrOrigin, secondary: IrOrigin)

  datatype ComparisonOutcome =
    | Equivalent
    | NotEquivalent(difference: StructuralDifference)
    | Indecisive(indecision: Refusal)

  function NullabilityContradicts(l: Nullability, r: Nullability): bool {
    (l == NonNullable && r == Nullable) || (l == Nullable && r == NonNullable)
  }

  function ColumnFieldDifference(l: Column, r: Column): Option<OutputSchemaField> {
    if l.name != r.name then Some(NameField)
    else if l.typeRef != r.typeRef then Some(TypeField)
    else if l.multiplicity != r.multiplicity then Some(MultiplicityField)
    else if NullabilityContradicts(l.nullability, r.nullability) then Some(NullabilityField)
    else None
  }

  /** The first position from `i` on where two equally long schemas contradict. */
  function FirstColumnDifference(l: Schema, r: Schema, i: nat): Option<nat>
    requires |l| == |r| && i <= |l|
    decreases |l| - i
  {
    if i == |l| then None
    else if ColumnFieldDifference(l[i], r[i]).Some? then Some(i)
    else FirstColumnDifference(l, r, i + 1)
  }

  function Ranked<T>(left: NormalizedQuery, right: NormalizedQuery, l: T, r: T): (T, T) {
    if CompareText(left.structuralKey, right.structuralKey).Le() then (l, r) else (r, l)
  }

  function OutputSchemaDifference(left: NormalizedQuery, right: NormalizedQuery): (d: Option<StructuralDifference>) {
    var l, r := left.root.schema, right.root.schema;
    if |l| != |r| then
      var origins := Ranked(left, right, left.root.origin, right.root.origin);
      var counts := Ranked(left, right, |l|, |r|);
      Some(StructuralDifference(OutputColumnCount(counts.0, counts.1), origins.0, origins.1))
    else
      match FirstColumnDifference(l, r, 0)
      case None => None
      case Some(i) =>
        FirstColumnDifferenceIs(l, r, 0);
        var origins := Ranked(left, right, l[i].origin, r[i].origin);
        Some(StructuralDifference(OutputColumn(i, ColumnFieldDifference(l[i], r[i]).value), origins.0, origins.1))
  }

  function CompareNormalized(left: NormalizedQuery, right: NormalizedQuery): ComparisonOutcome {
    if left.equivalenceKey == right.equivalenceKey then Equivalent
    else
      match OutputSchemaDifference(left, right)
      case Some(d) => NotEquivalent(d)
      case None => Indecisive(Refusal(IndMissingRewrite, Ranked(left, right, left.root.origin, right.root.origin).0))
  }

  // ---------- the order of origins ----------

  datatype ModelOriginKey =
    ModelOriginKey(kind: string, provenance: Provenance, source: u32, span: Option<TextRange>, identity: string)

  function KeyOfModelOrigin(m: ModelOrigin): ModelOriginKey {
    ModelOriginKey(ModelOriginKindText(m.kind), m.provenance, m.definition.source, m.definition.span, IdentityText(m.identity))
  }

  function CompareProvenance(a: Provenance, b: Provenance): Order {
    CompareInt(if a == Pmcd then 0 else 1, if b == Pmcd then 0 else 1)
  }

  function CompareSpan(a: Option<TextRange>, b: Option<TextRange>): Order {
    match (a, b)
    case (None, None) => Order.Equal
    case (None, Some(_)) => Less
    case (Some(_), None) => Greater
    case (Some(x), Some(y)) => CompareInt(x.start, y.start).Then(CompareInt(x.end, y.end))
  }

  function CompareModelOriginKey(a: ModelOriginKey, b: ModelOriginKey): Order {
    CompareText(a.kind, b.kind)
    .Then(CompareProvenance(a.provenance, b.provenance))
    .Then(CompareInt(a.source, b.source))
    .Then(CompareSpan(a.span, b.span))
    .Then(CompareText(a.identity, b.identity))
  }

  function ModelOriginKeys(origins: seq<ModelOrigin>): seq<ModelOriginKey> {
    Canonical(CompareModelOriginKey, seq(|origins|, i requires 0 <= i < |origins| => KeyOfModelOrigin(origins[i])))
  }

  function CompareOrigins(l: IrOrigin, r: IrOrigin): Order {
    CompareInt(l.source.file, r.source.file)
    .Then(CompareInt(l.source.range.start, r.source.range.start))
    .Then(CompareInt(l.source.range.end, r.source.range.end))
    .Then(Lex(CompareModelOriginKey, ModelOriginKeys(l.modelOrigins), ModelOriginKeys(r.modelOrigins)))
  }

  /** `canonical_failure_indecision` and `canonical_opaque_indecision`. */
  function CanonicalRefusal(l: Refusal, r: Refusal): Refusal {
    if CompareText(l.reason.Id(), r.reason.Id()).Then(CompareOrigins(l.origin, r.origin)).Le() then l else r
  }

  /** `compare_relational_queries_with_budget`. */
  function Compare(left: Relation, right: Relation, budget: nat): ComparisonOutcome {
    match (NormalizeQuery(left, budget), NormalizeQuery(right, budget))
    case (Normalized(l), Normalized(r)) => CompareNormalized(l, r)
    case (NotNormalized(l), NotNormalized(r)) => Indecisive(CanonicalRefusal(l, r))
    case (NotNormalized(failure), Normalized(_)) => Indecisive(failure)
    case (Normalized(_), NotNormalized(failure)) => Indecisive(failure)
  }

  datatype RelationalOutcome = Supported(root: Relation) | Opaque(refusal: Refusal)

  /** `compare_lowered_queries_with_budget`. */
  function CompareLowered(left: RelationalOutcome, right: RelationalOutcome, budget: nat): ComparisonOutcome {
    match (left, right)
    case (Supported(l), Supported(r)) => Compare(l, r, budget)
    case (Opaque(l), Opaque(r)) => Indecisive(CanonicalRefusal(l, r))
    case (Opaque(o), Supported(_)) => Indecisive(o)
    case (Supported(_), Opaque(o)) => Indecisive(o)
  }

  // ---------- soundness ----------

  /** Normalization answers exactly the queries that fit both budgets. */
  lemma NormalizesExactlyWithin(root: Relation, budget: nat)
    ensures NormalizeQuery(root, budget).Normalized? <==>
            Count(root) <= budget && Height(root) <= MAX_RELATIONAL_RECURSION_DEPTH
    ensures NormalizeQuery(root, budget).Normalized? ==> NormalizeQuery(root, budget).query == NormalFormOf(root)
  {
    RunFinishes(root, budget);
  }

  /** `Equivalent` is answered exactly for queries that normalize within budget
      to the same query up to column identities and origins. */
  lemma {:induction false} EquivalentExactly(left: Relation, right: Relation, budget: nat)
    ensures Compare(left, right, budget) == Equivalent <==>
            && Count(left) <= budget && Height(left) <= MAX_RELATIONAL_RECURSION_DEPTH
            && Count(right) <= budget && Height(right) <= MAX_RELATIONAL_RECURSION_DEPTH
            && Erase(Normal(left), 0) == Erase(Normal(right), 0)
  {
    hide Normal, Erase, EquivalenceKey, StructuralKey, Run, Visits, Count, Height, NormalizeQuery;
    NormalizesExactlyWithin(left, budget);
    NormalizesExactlyWithin(right, budget);
    KeyIsComplete(Normal(left), Normal(right));
  }

  /** Soundness: an `Equivalent` verdict means the two original queries return
      the same ordered rows under the same column descriptions, whatever the
      database. */
  lemma {:induction false} EquivalentIsSound(left: Relation, right: Relation, budget: nat)
    requires Valid(left) && Valid(right)
    ensures CompareLowered(Supported(left), Supported(right), budget) == Equivalent ==>
            (forall db :: Denote(db, left) == Denote(db, right)) && Describe(left.schema) == Describe(right.schema)
  {
    hide Normal, Denote, Erase, EquivalenceKey, StructuralKey, Valid, Run, Visits, Count, Height, NormalizeQuery;
    NormalizesExactlyWithin(left, budget);
    NormalizesExactlyWithin(right, budget);
    NormalIsValid(left);
    NormalIsValid(right);
    if CompareLowered(Supported(left), Supported(right), budget) == Equivalent {
      forall db ensures Denote(db, left) == Denote(db, right) {
        NormalPreservesMeaning(db, left);
        NormalPreservesMeaning(db, right);
        EqualKeysMeanTheSame(db, Normal(left), Normal(right));
      }
    }
    KeyIsComplete(Normal(left), Normal(right));
    IdsOfErased(Normal(left), 0);
    IdsOfErased(Normal(right), 0);
  }

  // ---------- honest refutation ----------

  /** A field on which two columns cannot both be right. */
  ghost predicate FieldContradicts(field: OutputSchemaField, l: Column, r: Column) {
    match field
    case NameField => l.name != r.name
    case TypeField => l.typeRef != r.typeRef
    case MultiplicityField => l.multiplicity != r.multiplicity
    case NullabilityField =>
      l.nullability != NullabilityUnknown && r.nullability != NullabilityUnknown && l.nullability != r.nullability
  }

  ghost predicate ColumnsContradict(l: Column, r: Column) {
    exists field :: FieldContradicts(field, l, r)
  }

  ghost predicate SchemasContradict(l: Schema, r: Schema) {
    |l| != |r| || exists i :: 0 <= i < |l| && ColumnsContradict(l[i], r[i])
  }

  /** The first contradicted field, in the order name, type, multiplicity, nullability. */
  ghost predicate IsFirstField(field: OutputSchemaField, l: Column, r: Column) {
    && FieldContradicts(field, l, r)
    && (field != NameField ==> !FieldContradicts(NameField, l, r))
    && (field.MultiplicityField? || field.NullabilityField? ==> !FieldContradicts(TypeField, l, r))
    && (field.NullabilityField? ==> !FieldContradicts(MultiplicityField, l, r))
  }

  lemma ColumnFieldDifferenceIs(l: Column, r: Column)
    ensures ColumnFieldDifference(l, r).Some? <==> ColumnsContradict(l, r)
    ensures ColumnFieldDifference(l, r).Some? ==> IsFirstField(ColumnFieldDifference(l, r).value, l, r)
  {
    if ColumnFieldDifference(l, r).Some? {
      assert FieldContradicts(ColumnFieldDifference(l, r).value, l, r);
    }
  }

  lemma {:induction false} FirstColumnDifferenceIs(l: Schema, r: Schema, i: nat)
    requires |l| == |r| && i <= |l|
    ensures match FirstColumnDifference(l, r, i)
            case None => forall k :: i <= k < |l| ==> ColumnFieldDifference(l[k], r[k]).None?
            case Some(p) =>
              && i <= p < |l| && ColumnFieldDifference(l[p], r[p]).Some?
              && forall k :: i <= k < p ==> ColumnFieldDifference(l[k], r[k]).None?
    decreases |l| - i
  {
    if i < |l| {
      FirstColumnDifferenceIs(l, r, i + 1);
    }
  }

  ghost predicate SamePair<T>(a: (T, T), l: T, r: T) {
    a == (l, r) || a == (r, l)
  }

  /** What a refutation of two original queries may say. */
  ghost predicate NamesFirstDisagreement(d: StructuralDifference, left: Relation, right: Relation) {
    var l, r := left.schema, right.schema;
    match d.kind
    case OutputColumnCount(p, s) => |l| != |r| && SamePair((p, s), |l|, |r|)
    case OutputColumn(i, field) =>
      && |l| == |r| && i < |l|
      && (forall k :: 0 <= k < i ==> !ColumnsContradict(l[k], r[k]))
      && IsFirstField(field, l[i], r[i])
      && SamePair((d.primary, d.secondary), l[i].origin, r[i].origin)
  }

  /** `NotEquivalent` is answered exactly when both queries fit the budgets and
      their original output schemas contradict, and it names their first
      disagreement. */
  lemma {:induction false} RefutationIsHonest(left: Relation, right: Relation, budget: nat)
    requires Valid(left) && Valid(right)
    ensures Compare(left, right, budget).NotEquivalent? <==>
            && Count(left) <= budget && Height(left) <= MAX_RELATIONAL_RECURSION_DEPTH
            && Count(right) <= budget && Height(right) <= MAX_RELATIONAL_RECURSION_DEPTH
            && SchemasContradict(left.schema, right.schema)
    ensures Compare(left, right, budget).NotEquivalent? ==>
            NamesFirstDisagreement(Compare(left, right, budget).difference, left, right)
  {
    hide Normal, Denote, Erase, EquivalenceKey, StructuralKey, Valid, Run, Visits, Count, Height, NormalizeQuery;
    NormalizesExactlyWithin(left, budget);
    NormalizesExactlyWithin(right, budget);
    NormalIsValid(left);
    NormalIsValid(right);
    var l, r := left.schema, right.schema;
    if |l| == |r| {
      FirstColumnDifferenceIs(l, r, 0);
      forall k | 0 <= k < |l|
        ensures ColumnFieldDifference(l[k], r[k]).Some? <==> ColumnsContradict(l[k], r[k])
        ensures ColumnFieldDifference(l[k], r[k]).Some? ==> IsFirstField(ColumnFieldDifference(l[k], r[k]).value, l[k], r[k])
      {
        ColumnFieldDifferenceIs(l[k], r[k]);
      }
    }
    if EquivalenceKey(Normal(left)) == EquivalenceKey(Normal(right)) {
      KeyIsComplete(Normal(left), Normal(right));
      IdsOfErased(Normal(left), 0);
      IdsOfErased(Normal(right), 0);
      SameDescriptionsAgree(l, r);
    }
  }

  lemma SameDescriptionsAgree(l: Schema, r: Schema)
    requires Describe(l) == Describe(r)
    ensures !SchemasContradict(l, r)
  {
    assert |l| == |Describe(l)| == |r|;
    forall i | 0 <= i < |l| ensures !ColumnsContradict(l[i], r[i]) {
      assert FactsOfColumn(l[i]) == Describe(l)[i] == FactsOfColumn(r[i]);
    }
  }

  // ---------- symmetry ----------

  /** Equal structural keys hold equal equivalence keys. */
  lemma {:induction false} StructuralKeysTellApart(left: Relation, right: Relation)
    ensures NormalFormOf(left).structuralKey == NormalFormOf(right).structuralKey ==>
            NormalFormOf(left).equivalenceKey == NormalFormOf(right).equivalenceKey
  {
    hide Normal, EncRelation;
    var a, b := NormalFormOf(left), NormalFormOf(right);
    var s := Token("normal-form-v1", Token(a.equivalenceKey, Token("input-provenance-v1", Token(Render(EncRelation(true, left, End)), End))));
    var t := Token("normal-form-v1", Token(b.equivalenceKey, Token("input-provenance-v1", Token(Render(EncRelation(true, right, End)), End))));
    assert Render(s) == a.structuralKey && Render(t) == b.structuralKey;
    if a.structuralKey == b.structuralKey {
      RenderInjective(s, t);
    }
  }

  lemma ColumnFieldDifferenceSymmetric(l: Column, r: Column)
    ensures ColumnFieldDifference(l, r) == ColumnFieldDifference(r, l)
  {
  }

  lemma {:induction false} FirstColumnDifferenceSymmetric(l: Schema, r: Schema, i: nat)
    requires |l| == |r| && i <= |l|
    ensures FirstColumnDifference(l, r, i) == FirstColumnDifference(r, l, i)
    decreases |l| - i
  {
    if i < |l| {
      ColumnFieldDifferenceSymmetric(l[i], r[i]);
      FirstColumnDifferenceSymmetric(l, r, i + 1);
    }
  }

  lemma CompareTextFlips(a: string, b: string)
    ensures CompareText(b, a) == CompareText(a, b).Flip()
    ensures CompareText(a, b) == Order.Equal <==> a == b
  {
    CompareTextTotal();
  }

  /** Swapping two normalizable inputs gives the identical outcome. */
  lemma {:induction false} NormalizedComparisonIsSymmetric(left: Relation, right: Relation)
    ensures CompareNormalized(NormalFormOf(left), NormalFormOf(right)) == CompareNormalized(NormalFormOf(right), NormalFormOf(left))
  {
    hide Normal, EquivalenceKey, StructuralKey, CompareText, Antisymmetric;
    var l, r := NormalFormOf(left), NormalFormOf(right);
    if l.equivalenceKey != r.equivalenceKey {
      StructuralKeysTellApart(left, right);
      CompareTextFlips(l.structuralKey, r.structuralKey);
      if |l.root.schema| == |r.root.schema| {
        FirstColumnDifferenceSymmetric(l.root.schema, r.root.schema, 0);
        FirstColumnDifferenceIs(l.root.schema, r.root.schema, 0);
        match FirstColumnDifference(l.root.schema, r.root.schema, 0)
        case Some(i) => ColumnFieldDifferenceSymmetric(l.root.schema[i], r.root.schema[i]);
        case None =>
      }
    }
  }

  lemma CompareModelOriginKeyAntisymmetric()
    ensures Antisymmetric(CompareModelOriginKey)
  {
    CompareTextTotal();
    forall a, b
      ensures CompareModelOriginKey(b, a) == CompareModelOriginKey(a, b).Flip()
      ensures CompareModelOriginKey(a, b) == Order.Equal <==> a == b
    {
      CompareModelOriginKeyPair(a, b);
    }
  }

  lemma CompareModelOriginKeyPair(a: ModelOriginKey, b: ModelOriginKey)
    requires Antisymmetric(CompareText)
    ensures CompareModelOriginKey(b, a) == CompareModelOriginKey(a, b).Flip()
    ensures CompareModelOriginKey(a, b) == Order.Equal <==> a == b
  {
    assert CompareText(b.kind, a.kind) == CompareText(a.kind, b.kind).Flip();
    assert CompareText(b.identity, a.identity) == CompareText(a.identity, b.identity).Flip();
    assert CompareSpan(b.span, a.span) == CompareSpan(a.span, b.span).Flip();
    assert CompareSpan(a.span, b.span) == Order.Equal <==> a.span == b.span;
  }

  /** Origins that the comparison cannot rank: the same query span and, as
      sets, the same model-definition keys. */
  ghost predicate Tied(l: IrOrigin, r: IrOrigin) {
    l.source == r.source && ModelOriginKeys(l.modelOrigins) == ModelOriginKeys(r.modelOrigins)
  }

  lemma CompareOriginsFlips(l: IrOrigin, r: IrOrigin)
    ensures CompareOrigins(r, l) == CompareOrigins(l, r).Flip()
    ensures CompareOrigins(l, r) == Order.Equal <==> Tied(l, r)
  {
    CompareModelOriginKeyAntisymmetric();
    LexFlips(CompareModelOriginKey, ModelOriginKeys(l.modelOrigins), ModelOriginKeys(r.modelOrigins));
  }

  lemma ReasonIdsDistinct(a: ReasonCode, b: ReasonCode)
    requires a.Id() == b.Id()
    ensures a == b
  {
  }

  lemma CanonicalRefusalSymmetric(l: Refusal, r: Refusal)
    ensures CanonicalRefusal(l, r) == CanonicalRefusal(r, l) <==> !(l.reason == r.reason && Tied(l.origin, r.origin) && l != r)
  {
    CompareTextTotal();
    CompareOriginsFlips(l.origin, r.origin);
    assert CompareText(r.reason.Id(), l.reason.Id()) == CompareText(l.reason.Id(), r.reason.Id()).Flip();
    if l.reason.Id() == r.reason.Id() {
      ReasonIdsDistinct(l.reason, r.reason);
    }
  }

  /** The refusal an input brings to a comparison, if it brings one. */
  function RefusalOf(outcome: RelationalOutcome, budget: nat): Option<Refusal> {
    match outcome
    case Opaque(refusal) => Some(refusal)
    case Supported(root) =>
      match NormalizeQuery(root, budget)
      case NotNormalized(failure) => Some(failure)
      case Normalized(_) => None
  }

  /** Comparison is symmetric, except when both inputs are refused alike with
      origins that are tied and still differ. */
  lemma ComparisonIsSymmetricExactly(left: RelationalOutcome, right: RelationalOutcome, budget: nat)
    ensures CompareLowered(left, right, budget) == CompareLowered(right, left, budget) <==>
            !(&& left.Opaque? == right.Opaque?
              && RefusalOf(left, budget).Some? && RefusalOf(right, budget).Some?
              && RefusalOf(left, budget) != RefusalOf(right, budget)
              && RefusalOf(left, budget).value.reason == RefusalOf(right, budget).value.reason
              && Tied(RefusalOf(left, budget).value.origin, RefusalOf(right, budget).value.origin))
  {
    if left.Opaque? && right.Opaque? {
      CanonicalRefusalSymmetric(left.refusal, right.refusal);
    } else if left.Supported? && right.Supported? {
      var l, r := NormalizeQuery(left.root, budget), NormalizeQuery(right.root, budget);
      if l.Normalized? && r.Normalized? {
        NormalizedComparisonIsSymmetric(left.root, right.root);
      } else if l.NotNormalized? && r.NotNormalized? {
        CanonicalRefusalSymmetric(l.failure, r.failure);
      }
    }
  }
}
