/** Normalization and origins: what a normal form owes to where its parts came
    from, and exactly when it owes nothing. */
module Origins {
  import opened Basics
  import opened Relational
  import opened Semantics
  import opened Normalization
  import opened Keys

  // ---------- relabelling origins ----------

  type Relabeling = IrOrigin -> IrOrigin

  function RelabelKnowledge<T(==)>(f: Relabeling, k: Knowledge<T>): Knowledge<T> {
    match k
    case Unknown => Unknown
    case Proven(value, origin) => Proven(value, f(origin))
  }

  function RelabelColumn(f: Relabeling, c: Column): Column {
    c.(origin := f(c.origin))
  }

  function RelabelSchema(f: Relabeling, schema: Schema): Schema {
    seq(|schema|, i requires 0 <= i < |schema| => RelabelColumn(f, schema[i]))
  }

  function RelabelFacts(f: Relabeling, facts: Facts): Facts {
    Facts(RelabelKnowledge(f, facts.candidateKeys), RelabelKnowledge(f, facts.rowSemantics))
  }

  function RelabelScalar(f: Relabeling, e: Scalar): Scalar
    decreases e
  {
    var operator :=
      match e.operator
      case ColumnRead(id) => ColumnRead(id)
      case Literal(l) => Literal(l)
      case Navigation(input, navigation) => Navigation(RelabelScalar(f, input), navigation)
      case Equal(left, right) => ScalarOperator.Equal(RelabelScalar(f, left), RelabelScalar(f, right))
      case Not(input) => Not(RelabelScalar(f, input));
    Scalar(operator, e.typeRef, e.multiplicity, e.nullability, RelabelKnowledge(f, e.totality), f(e.origin))
  }

  function RelabelProjections(f: Relabeling, ps: seq<Projection>): seq<Projection> {
    seq(|ps|, i requires 0 <= i < |ps| => Projection(ps[i].column, RelabelScalar(f, ps[i].expression)))
  }

  function RelabelKeys(f: Relabeling, keys: seq<SortKey>): seq<SortKey> {
    seq(|keys|, i requires 0 <= i < |keys| => SortKey(keys[i].column, keys[i].direction, f(keys[i].origin)))
  }

  function Relabel(f: Relabeling, r: Relation): Relation
    decreases r
  {
    var operator :=
      match r.operator
      case Scan(c) => Scan(c)
      case Filter(input, condition) => Filter(Relabel(f, input), RelabelScalar(f, condition))
      case Project(input, ps, kind) => Project(Relabel(f, input), RelabelProjections(f, ps), kind)
      case Join(kind, left, right, condition) => Join(kind, Relabel(f, left), Relabel(f, right), RelabelScalar(f, condition))
      case Distinct(input) => Distinct(Relabel(f, input))
      case DistinctOn(input, columns) => DistinctOn(Relabel(f, input), columns)
      case Sort(input, keys) => Sort(Relabel(f, input), RelabelKeys(f, keys));
    Relation(operator, RelabelSchema(f, r.schema), RelabelFacts(f, r.facts), f(r.origin))
  }

  function Blank(origin: IrOrigin): IrOrigin {
    BLANK_ORIGIN
  }

  /** The relation with every origin blanked. */
  function Strip(r: Relation): Relation {
    Relabel(Blank, r)
  }

  // ---------- what origins hold back ----------

  lemma BlankFacts(a: Facts, b: Facts)
    ensures RelabelFacts(Blank, a) == RelabelFacts(Blank, b) <==> a.Matches(b)
  {
  }

  predicate IsTrue(e: Scalar) {
    e.totality.Unknown? && e.operator == Literal(BooleanLiteral(true))
  }

  predicate ReadsItself(schema: Schema, ps: seq<Projection>) {
    |ps| == |schema| && forall i :: 0 <= i < |schema| ==> IsIdentityRead(ps[i], schema[i])
  }

  /** Only origins stand between this node and its removal: a true filter whose
      facts are its input's, or a project that reads its input's own columns
      under its input's own facts, but with another provenance than the
      normalized input's. */
  predicate HeldHere(r: Relation) {
    match r.operator
    case Filter(input, condition) => IsTrue(condition) && r.facts.Matches(input.facts) && r.facts != Normal(input).facts
    case Project(input, ps, _) =>
      && ReadsItself(r.schema, ps) && r.facts.Matches(input.facts)
      && RelabelSchema(Blank, r.schema) == RelabelSchema(Blank, input.schema)
      && !(r.schema == input.schema && r.facts == Normal(input).facts)
    case _ => false
  }

  predicate HeldByOrigins(r: Relation)
    decreases r
  {
    || HeldHere(r)
    || match r.operator
       case Scan(_) => false
       case Filter(input, _) => HeldByOrigins(input)
       case Project(input, _, _) => HeldByOrigins(input)
       case Join(_, left, right, _) => HeldByOrigins(left) || HeldByOrigins(right)
       case Distinct(input) => HeldByOrigins(input)
       case DistinctOn(input, _) => HeldByOrigins(input)
       case Sort(input, _) => HeldByOrigins(input)
  }

  // ---------- the guards without origins ----------

  lemma TrueIsTrue(e: Scalar)
    ensures IsTrue(RelabelScalar(Blank, e)) <==> IsTrue(e)
  {
  }

  lemma IdentityStaysIdentity(schema: Schema, ps: seq<Projection>)
    ensures ReadsItself(RelabelSchema(Blank, schema), RelabelProjections(Blank, ps)) <==> ReadsItself(schema, ps)
  {
    var s, q := RelabelSchema(Blank, schema), RelabelProjections(Blank, ps);
    assert |s| == |schema| && |q| == |ps|;
    if |ps| == |schema| {
      forall i | 0 <= i < |schema| ensures IsIdentityRead(q[i], s[i]) <==> IsIdentityRead(ps[i], schema[i]) {
      }
    }
  }

  /** Without origins, normalization keeps schema and facts to the letter. */
  lemma {:induction false} StrippedKeeps(r: Relation)
    requires Valid(r)
    ensures Normal(Strip(r)).schema == RelabelSchema(Blank, r.schema)
    ensures Normal(Strip(r)).facts == RelabelFacts(Blank, r.facts)
    decreases r
  {
    hide RelabelScalar, RelabelProjections, RelabelKeys, DistinctIds, KeysInScope, IsIdentityRead, PredicateOk, RelabelSchema;
    match r.operator
    case Distinct(input) =>
      StrippedKeeps(input);
      var n := Normal(Strip(input));
      BlankFacts(r.facts, input.facts);
      if IsRepeatedDistinct(n, RelabelSchema(Blank, r.schema), RelabelFacts(Blank, r.facts)) {
        BlanksMatch(r.facts, input.facts);
      }
    case _ =>
  }

  lemma BlanksMatch(a: Facts, b: Facts)
    requires RelabelFacts(Blank, a).Matches(RelabelFacts(Blank, b))
    ensures RelabelFacts(Blank, a) == RelabelFacts(Blank, b)
  {
  }

  lemma FilterGuards(r: Relation, input: Relation, condition: Scalar)
    requires Valid(r) && r.operator == Filter(input, condition)
    ensures IsLiteralTrueFilter(Normal(Strip(input)), RelabelSchema(Blank, r.schema), RelabelFacts(Blank, r.facts), RelabelScalar(Blank, condition)) <==>
            IsLiteralTrueFilter(Normal(input), r.schema, r.facts, condition) || HeldHere(r)
    ensures !(IsLiteralTrueFilter(Normal(input), r.schema, r.facts, condition) && HeldHere(r))
  {
    hide Normal, Relabel, RelabelScalar, RelabelFacts, RelabelSchema, DistinctIds, KeysInScope, PredicateOk;
    StrippedKeeps(input);
    NormalIsValid(input);
    TrueIsTrue(condition);
    BlankFacts(r.facts, input.facts);
  }

  lemma ProjectGuards(r: Relation, input: Relation, ps: seq<Projection>)
    requires Valid(r) && r.operator.Project? && r.operator.input == input && r.operator.projections == ps
    ensures IsIdentityProject(Normal(Strip(input)), RelabelSchema(Blank, r.schema), RelabelFacts(Blank, r.facts), RelabelProjections(Blank, ps)) <==>
            IsIdentityProject(Normal(input), r.schema, r.facts, ps) || HeldHere(r)
    ensures !(IsIdentityProject(Normal(input), r.schema, r.facts, ps) && HeldHere(r))
  {
    hide Normal, Relabel, RelabelProjections, RelabelFacts, RelabelSchema, DistinctIds, KeysInScope, ProjectionColumnsFit, ScalarError, IsIdentityRead;
    StrippedKeeps(input);
    NormalIsValid(input);
    IdentityStaysIdentity(r.schema, ps);
    BlankFacts(r.facts, input.facts);
    assert IsIdentityProject(Normal(input), r.schema, r.facts, ps) ==> r.facts.Matches(input.facts);
  }

  lemma DistinctGuards(r: Relation, input: Relation)
    requires Valid(r) && r.operator == Distinct(input)
    ensures IsRepeatedDistinct(Normal(Strip(input)), RelabelSchema(Blank, r.schema), RelabelFacts(Blank, r.facts)) <==>
            r.facts.Matches(input.facts) && Normal(Strip(input)).operator.Distinct?
    ensures IsRepeatedDistinct(Normal(input), r.schema, r.facts) <==> r.facts.Matches(input.facts) && Normal(input).operator.Distinct?
  {
    hide Normal, Relabel, RelabelSchema, DistinctIds, KeysInScope;
    StrippedKeeps(input);
    NormalIsValid(input);
    BlankFacts(r.facts, input.facts);
    if RelabelFacts(Blank, r.facts).Matches(RelabelFacts(Blank, input.facts)) {
      BlanksMatch(r.facts, input.facts);
    }
  }

  // ---------- the comparison with the normal form ----------

  lemma {:induction false} SameOperators(f: Relabeling, r: Relation)
    ensures Operators(Relabel(f, r)) == Operators(r)
    decreases r
  {
    hide RelabelScalar, RelabelProjections, RelabelKeys, RelabelFacts, RelabelSchema;
    match r.operator
    case Scan(_) =>
    case Filter(input, _) => SameOperators(f, input);
    case Project(input, _, _) => SameOperators(f, input);
    case Join(_, left, right, _) =>
      SameOperators(f, left);
      SameOperators(f, right);
    case Distinct(input) => SameOperators(f, input);
    case DistinctOn(input, _) => SameOperators(f, input);
    case Sort(input, _) => SameOperators(f, input);
  }

  /** How the normal form without origins stands to the normal form: never larger,
      smaller exactly when something is held, and the same if nothing is. */
  ghost predicate Compares(r: Relation) {
    var stripped, n := Normal(Strip(r)), Normal(r);
    && Operators(stripped) <= Operators(n)
    && (HeldByOrigins(r) ==> Operators(stripped) < Operators(n))
    && (!HeldByOrigins(r) ==> stripped == Strip(n))
    && (n.operator.Distinct? ==> stripped.operator.Distinct?)
  }

  lemma FilterCompares(r: Relation, input: Relation, condition: Scalar)
    requires Valid(r) && r.operator == Filter(input, condition) && Compares(input)
    ensures Compares(r)
  {
    hide RelabelScalar, RelabelFacts, RelabelSchema, IsLiteralTrueFilter, HeldHere, Valid;
    FilterGuards(r, input, condition);
  }

  lemma ProjectCompares(r: Relation, input: Relation, ps: seq<Projection>)
    requires Valid(r) && r.operator.Project? && r.operator.input == input && r.operator.projections == ps && Compares(input)
    ensures Compares(r)
  {
    hide RelabelProjections, RelabelFacts, RelabelSchema, IsIdentityProject, HeldHere, Valid;
    ProjectGuards(r, input, ps);
  }

  lemma DistinctCompares(r: Relation, input: Relation)
    requires Valid(r) && r.operator == Distinct(input) && Compares(input)
    ensures Compares(r)
  {
    hide RelabelFacts, RelabelSchema, IsRepeatedDistinct, Valid;
    DistinctGuards(r, input);
    StripKeepsKind(Normal(input));
  }

  lemma StripKeepsKind(r: Relation)
    ensures Strip(r).operator.Distinct? <==> r.operator.Distinct?
  {
  }

  lemma {:induction false} AllCompare(r: Relation)
    requires Valid(r)
    ensures Compares(r)
    decreases r
  {
    hide RelabelScalar, RelabelProjections, RelabelKeys, RelabelFacts, RelabelSchema, DistinctIds, OperatorOk, KeysInScope, IsLiteralTrueFilter, IsIdentityProject,
         IsRepeatedDistinct;
    match r.operator
    case Scan(_) =>
    case Filter(input, condition) =>
      AllCompare(input);
      FilterCompares(r, input, condition);
    case Project(input, ps, _) =>
      AllCompare(input);
      ProjectCompares(r, input, ps);
    case Join(_, left, right, _) =>
      AllCompare(left);
      AllCompare(right);
    case Distinct(input) =>
      AllCompare(input);
      DistinctCompares(r, input);
    case DistinctOn(input, _) => AllCompare(input);
    case Sort(input, _) => AllCompare(input);
  }

  /** Normalization ignores origins, whatever the valid relation, exactly when no
      filter and no project is held back by them alone. */
  lemma NormalizationIgnoresOriginsExactly(r: Relation)
    requires Valid(r)
    ensures Normal(Strip(r)) == Strip(Normal(r)) <==> !HeldByOrigins(r)
  {
    hide Normal, Relabel, HeldByOrigins, Operators, Valid;
    AllCompare(r);
    SameOperators(Blank, Normal(r));
  }
}
