/** Which identities the lowerer hands out makes no difference. */
module Renaming {
  import opened Basics
  import opened Orders
  import opened Text
  import opened Relational
  import opened Semantics
  import opened Normalization
  import opened Keys
  import opened Comparison

  type Allocation = ColumnId -> ColumnId

  ghost predicate Injective(f: Allocation) {
    forall x, y :: f(x) == f(y) ==> x == y
  }

  function MapIds(f: Allocation, ids: seq<ColumnId>): seq<ColumnId> {
    seq(|ids|, i requires 0 <= i < |ids| => f(ids[i]))
  }

  function RenameScalar(f: Allocation, e: Scalar): Scalar
    decreases e
  {
    e.(operator :=
      match e.operator
      case ColumnRead(id) => ColumnRead(f(id))
      case Literal(l) => Literal(l)
      case Navigation(input, navigation) => Navigation(RenameScalar(f, input), navigation)
      case Equal(left, right) => ScalarOperator.Equal(RenameScalar(f, left), RenameScalar(f, right))
      case Not(input) => Not(RenameScalar(f, input)))
  }

  function RenameSchema(f: Allocation, schema: Schema): Schema {
    seq(|schema|, i requires 0 <= i < |schema| => schema[i].(id := f(schema[i].id)))
  }

  function RenameKey(f: Allocation, key: CandidateKey): CandidateKey {
    NewCandidateKey(MapIds(f, key))
  }

  function RenameKeys(f: Allocation, keys: seq<CandidateKey>): seq<CandidateKey> {
    seq(|keys|, i requires 0 <= i < |keys| => RenameKey(f, keys[i]))
  }

  /** Renamed keys are put back in canonical form by their constructors. */
  function RenameFacts(f: Allocation, facts: Facts): Facts {
    match facts.candidateKeys
    case Unknown => facts
    case Proven(keys, origin) => NewFacts(Proven(RenameKeys(f, keys), origin), facts.rowSemantics)
  }

  function RenameProjections(f: Allocation, ps: seq<Projection>): seq<Projection> {
    seq(|ps|, i requires 0 <= i < |ps| => Projection(f(ps[i].column), RenameScalar(f, ps[i].expression)))
  }

  function RenameSortKeys(f: Allocation, keys: seq<SortKey>): seq<SortKey> {
    seq(|keys|, i requires 0 <= i < |keys| => keys[i].(column := f(keys[i].column)))
  }

  function Rename(f: Allocation, r: Relation): Relation
    decreases r
  {
    Relation(
      match r.operator
      case Scan(c) => Scan(c)
      case Filter(input, condition) => Filter(Rename(f, input), RenameScalar(f, condition))
      case Project(input, projections, kind) => Project(Rename(f, input), RenameProjections(f, projections), kind)
      case Join(kind, left, right, condition) => Join(kind, Rename(f, left), Rename(f, right), RenameScalar(f, condition))
      case Distinct(input) => Distinct(Rename(f, input))
      case DistinctOn(input, columns) => DistinctOn(Rename(f, input), MapIds(f, columns))
      case Sort(input, keys) => RelationOperator.Sort(Rename(f, input), RenameSortKeys(f, keys)),
      RenameSchema(f, r.schema), RenameFacts(f, r.facts), r.origin)
  }

  // ---------- the key does not see identities ----------

  lemma {:induction false} PositionRenamed(f: Allocation, ids: seq<ColumnId>, id: ColumnId)
    requires Injective(f)
    ensures Position(MapIds(f, ids), f(id)) == Position(ids, id)
  {
    if ids != [] {
      PositionRenamed(f, ids[..|ids| - 1], id);
      assert MapIds(f, ids)[..|ids| - 1] == MapIds(f, ids[..|ids| - 1]);
    }
  }

  lemma {:induction false} EncScalarRenamed(f: Allocation, provenance: bool, e: Scalar, ids: seq<ColumnId>, rest: Tokens)
    requires Injective(f)
    ensures EncScalar(provenance, RenameScalar(f, e), MapIds(f, ids), rest) == EncScalar(provenance, e, ids, rest)
    decreases e
  {
    match e.operator
    case ColumnRead(id) => PositionRenamed(f, ids, id);
    case Literal(_) =>
    case Navigation(input, n) => EncScalarRenamed(f, provenance, input, ids, EncMember(provenance, n.member, rest));
    case Equal(left, right) =>
      EncScalarRenamed(f, provenance, right, ids, rest);
      EncScalarRenamed(f, provenance, left, ids, EncScalar(provenance, right, ids, rest));
    case Not(input) => EncScalarRenamed(f, provenance, input, ids, rest);
  }

  lemma {:induction false} EncColumnsRenamed(f: Allocation, provenance: bool, columns: seq<Column>, ids: seq<ColumnId>, rest: Tokens)
    requires Injective(f)
    ensures EncColumns(provenance, RenameSchema(f, columns), MapIds(f, ids), rest) == EncColumns(provenance, columns, ids, rest)
  {
    if columns != [] {
      PositionRenamed(f, ids, columns[0].id);
      EncColumnsRenamed(f, provenance, columns[1..], ids, rest);
      assert RenameSchema(f, columns)[1..] == RenameSchema(f, columns[1..]);
    }
  }

  lemma {:induction false} EncProjectionsRenamed(f: Allocation, provenance: bool, ps: seq<Projection>, output: seq<ColumnId>, input: seq<ColumnId>, rest: Tokens)
    requires Injective(f)
    ensures EncProjections(provenance, RenameProjections(f, ps), MapIds(f, output), MapIds(f, input), rest) ==
            EncProjections(provenance, ps, output, input, rest)
  {
    if ps != [] {
      PositionRenamed(f, output, ps[0].column);
      EncProjectionsRenamed(f, provenance, ps[1..], output, input, rest);
      EncScalarRenamed(f, provenance, ps[0].expression, input, EncProjections(provenance, ps[1..], output, input, rest));
      assert RenameProjections(f, ps)[1..] == RenameProjections(f, ps[1..]);
    }
  }

  lemma {:induction false} EncSelectionRenamed(f: Allocation, columns: seq<ColumnId>, ids: seq<ColumnId>, rest: Tokens)
    requires Injective(f)
    ensures EncSelection(MapIds(f, columns), MapIds(f, ids), rest) == EncSelection(columns, ids, rest)
  {
    if columns != [] {
      PositionRenamed(f, ids, columns[0]);
      EncSelectionRenamed(f, columns[1..], ids, rest);
      assert MapIds(f, columns)[1..] == MapIds(f, columns[1..]);
    }
  }

  lemma {:induction false} EncSortKeysRenamed(f: Allocation, provenance: bool, keys: seq<SortKey>, ids: seq<ColumnId>, rest: Tokens)
    requires Injective(f)
    ensures EncSortKeys(provenance, RenameSortKeys(f, keys), MapIds(f, ids), rest) == EncSortKeys(provenance, keys, ids, rest)
  {
    if keys != [] {
      PositionRenamed(f, ids, keys[0].column);
      EncSortKeysRenamed(f, provenance, keys[1..], ids, rest);
      assert RenameSortKeys(f, keys)[1..] == RenameSortKeys(f, keys[1..]);
    }
  }

  // ---------- candidate keys ----------

  lemma {:induction false} KnownPositionsMembers(ids: seq<ColumnId>, key: CandidateKey)
    ensures forall p :: p in KnownPositions(ids, key) <==> exists c :: c in key && Position(ids, c) == Some(p)
  {
    if key != [] {
      KnownPositionsMembers(ids, key[1..]);
      assert forall c :: c in key <==> c == key[0] || c in key[1..];
    }
  }

  lemma {:induction false} KnownPositionsDistinct(ids: seq<ColumnId>, key: CandidateKey)
    requires NoRepeats(key)
    ensures NoRepeats(KnownPositions(ids, key))
  {
    if key != [] {
      KnownPositionsDistinct(ids, key[1..]);
      KnownPositionsMembers(ids, key[1..]);
      var tail := KnownPositions(ids, key[1..]);
      forall i | 0 <= i < |tail| ensures Position(ids, key[0]) != Some(tail[i]) {
        assert tail[i] in tail;
        var c :| c in key[1..] && Position(ids, c) == Some(tail[i]);
        assert c != key[0];
      }
    }
  }

  lemma {:induction false} SortDistinct(s: seq<nat>)
    requires NoRepeats(s)
    ensures StrictlyAscending(CompareNat, Orders.Sort(CompareNat, s))
  {
    if s != [] {
      SortDistinct(s[1..]);
      CompareNatTotal();
      SortFacts(CompareNat, s[1..]);
      InsertDistinct(s[0], Orders.Sort(CompareNat, s[1..]));
    }
  }

  lemma {:induction false} InsertDistinct(x: nat, s: seq<nat>)
    requires StrictlyAscending(CompareNat, s) && x !in s
    ensures StrictlyAscending(CompareNat, Insert(CompareNat, x, s))
  {
    if s != [] && !CompareNat(x, s[0]).Le() {
      InsertDistinct(x, s[1..]);
      CompareNatTotal();
      InsertFacts(CompareNat, x, s[1..]);
      var t := Insert(CompareNat, x, s[1..]);
      forall j | 0 <= j < |t| ensures CompareNat(s[0], t[j]) == Less {
        assert t[j] in t;
      }
    }
  }

  lemma RenameKeyMembers(f: Allocation, key: CandidateKey)
    ensures StrictlyAscending(CompareNat, RenameKey(f, key))
    ensures forall y :: y in RenameKey(f, key) <==> exists c :: c in key && f(c) == y
  {
    CompareNatTotal();
    CanonicalFacts(CompareNat, MapIds(f, key));
    forall y ensures y in MapIds(f, key) <==> exists c :: c in key && f(c) == y {
      if y in MapIds(f, key) {
        var i :| 0 <= i < |key| && MapIds(f, key)[i] == y;
        assert key[i] in key;
      }
      if exists c :: c in key && f(c) == y {
        var c :| c in key && f(c) == y;
        var i :| 0 <= i < |key| && key[i] == c;
        assert MapIds(f, key)[i] == y;
      }
    }
  }

  /** One key's sorted positions, before and after renaming. */
  lemma KeyPositionRenamed(f: Allocation, ids: seq<ColumnId>, key: CandidateKey)
    requires Injective(f) && StrictlyAscending(CompareNat, key)
    ensures Orders.Sort(CompareNat, KnownPositions(MapIds(f, ids), RenameKey(f, key))) ==
            Orders.Sort(CompareNat, KnownPositions(ids, key))
  {
    var renamed := RenameKey(f, key);
    RenameKeyMembers(f, key);
    AscendingHasNoRepeats(key);
    AscendingHasNoRepeats(renamed);
    var a, b := KnownPositions(MapIds(f, ids), renamed), KnownPositions(ids, key);
    KnownPositionsMembers(MapIds(f, ids), renamed);
    KnownPositionsMembers(ids, key);
    forall p ensures p in a <==> p in b {
      if p in a {
        var y :| y in renamed && Position(MapIds(f, ids), y) == Some(p);
        var c :| c in key && f(c) == y;
        PositionRenamed(f, ids, c);
      }
      if p in b {
        var c :| c in key && Position(ids, c) == Some(p);
        PositionRenamed(f, ids, c);
        assert f(c) in renamed;
      }
    }
    KnownPositionsDistinct(MapIds(f, ids), renamed);
    KnownPositionsDistinct(ids, key);
    SortDistinct(a);
    SortDistinct(b);
    CompareNatTotal();
    SortFacts(CompareNat, a);
    SortFacts(CompareNat, b);
    AscendingUnique(CompareNat, Orders.Sort(CompareNat, a), Orders.Sort(CompareNat, b));
  }

  lemma AscendingHasNoRepeats(s: seq<nat>)
    requires StrictlyAscending(CompareNat, s)
    ensures NoRepeats(s)
  {
  }

  function SortedPositions(ids: seq<ColumnId>, key: CandidateKey): seq<nat> {
    Orders.Sort(CompareNat, KnownPositions(ids, key))
  }

  lemma KeyPositionsMembers(ids: seq<ColumnId>, keys: seq<CandidateKey>)
    ensures StrictlyAscending(ComparePositions, KeyPositions(ids, keys))
    ensures forall l :: l in KeyPositions(ids, keys) <==> exists k :: k in keys && SortedPositions(ids, k) == l
  {
    ComparePositionsTotal();
    var lists := seq(|keys|, i requires 0 <= i < |keys| => Orders.Sort(CompareNat, KnownPositions(ids, keys[i])));
    CanonicalFacts(ComparePositions, lists);
    forall l ensures l in lists <==> exists k :: k in keys && SortedPositions(ids, k) == l {
      if l in lists {
        var i :| 0 <= i < |lists| && lists[i] == l;
        assert keys[i] in keys && SortedPositions(ids, keys[i]) == l;
      }
      if exists k :: k in keys && SortedPositions(ids, k) == l {
        var k :| k in keys && SortedPositions(ids, k) == l;
        var i :| 0 <= i < |keys| && keys[i] == k;
        assert lists[i] == l;
      }
    }
  }

  lemma RenamedKeysMembers(f: Allocation, keys: seq<CandidateKey>)
    ensures StrictlyAscending(ComparePositions, Canonical(ComparePositions, RenameKeys(f, keys)))
    ensures forall l :: l in Canonical(ComparePositions, RenameKeys(f, keys)) <==> exists k :: k in keys && RenameKey(f, k) == l
  {
    ComparePositionsTotal();
    CanonicalFacts(ComparePositions, RenameKeys(f, keys));
    forall l ensures l in RenameKeys(f, keys) <==> exists k :: k in keys && RenameKey(f, k) == l {
      if l in RenameKeys(f, keys) {
        var i :| 0 <= i < |keys| && RenameKeys(f, keys)[i] == l;
        assert keys[i] in keys;
      }
      if exists k :: k in keys && RenameKey(f, k) == l {
        var k :| k in keys && RenameKey(f, k) == l;
        var i :| 0 <= i < |keys| && keys[i] == k;
        assert RenameKeys(f, keys)[i] == l;
      }
    }
  }

  ghost predicate KeysCanonical(keys: seq<CandidateKey>) {
    StrictlyAscending(ComparePositions, keys) && forall k :: k in keys ==> StrictlyAscending(CompareNat, k)
  }

  lemma KeyPositionsRenamed(f: Allocation, ids: seq<ColumnId>, keys: seq<CandidateKey>)
    requires Injective(f) && KeysCanonical(keys)
    ensures KeyPositions(MapIds(f, ids), Canonical(ComparePositions, RenameKeys(f, keys))) == KeyPositions(ids, keys)
  {
    hide KeyPositions, Canonical, KnownPositions, RenameKeys;
    var renamed := Canonical(ComparePositions, RenameKeys(f, keys));
    RenamedKeysMembers(f, keys);
    KeyPositionsMembers(MapIds(f, ids), renamed);
    KeyPositionsMembers(ids, keys);
    var a, b := KeyPositions(MapIds(f, ids), renamed), KeyPositions(ids, keys);
    forall k | k in keys ensures SortedPositions(MapIds(f, ids), RenameKey(f, k)) == SortedPositions(ids, k) {
      KeyPositionRenamed(f, ids, k);
    }
    forall l ensures l in a <==> l in b {
      if l in a {
        var n :| n in renamed && SortedPositions(MapIds(f, ids), n) == l;
        var k :| k in keys && RenameKey(f, k) == n;
      }
      if l in b {
        var k :| k in keys && SortedPositions(ids, k) == l;
        assert RenameKey(f, k) in renamed;
      }
    }
    ComparePositionsTotal();
    AscendingUnique(ComparePositions, a, b);
  }

  lemma EncFactsRenamed(f: Allocation, provenance: bool, facts: Facts, ids: seq<ColumnId>, rest: Tokens)
    requires Injective(f) && facts.InCanonicalForm()
    ensures EncFacts(provenance, RenameFacts(f, facts), MapIds(f, ids), rest) == EncFacts(provenance, facts, ids, rest)
  {
    if facts.candidateKeys.Proven? {
      KeyPositionsRenamed(f, ids, facts.candidateKeys.value);
    }
  }

  lemma IdsRenamed(f: Allocation, schema: Schema)
    ensures Ids(RenameSchema(f, schema)) == MapIds(f, Ids(schema))
  {
  }

  lemma {:induction false} EncRelationRenamed(f: Allocation, provenance: bool, r: Relation, rest: Tokens)
    requires Injective(f) && Valid(r)
    ensures EncRelation(provenance, Rename(f, r), rest) == EncRelation(provenance, r, rest)
    decreases r, 1
  {
    hide EncFacts, EncColumns, RenameFacts, RenameSchema, Ids, EncOperator;
    var tail := EncOriginIf(provenance, r.origin, EncOperator(provenance, r, rest));
    EncOperatorRenamed(f, provenance, r, rest);
    IdsRenamed(f, r.schema);
    EncFactsRenamed(f, provenance, r.facts, Ids(r.schema), tail);
    EncColumnsRenamed(f, provenance, r.schema, Ids(r.schema), EncFacts(provenance, r.facts, Ids(r.schema), tail));
    assert |RenameSchema(f, r.schema)| == |r.schema| by { RenamedWidth(f, r.schema); }
  }

  lemma RenamedWidth(f: Allocation, schema: Schema)
    ensures |RenameSchema(f, schema)| == |schema|
  {
  }

  lemma {:induction false} EncOperatorRenamed(f: Allocation, provenance: bool, r: Relation, rest: Tokens)
    requires Injective(f) && Valid(r)
    ensures EncOperator(provenance, Rename(f, r), rest) == EncOperator(provenance, r, rest)
    decreases r, 0
  {
    hide EncRelation, EncScalar, EncProjections, EncSelection, EncSortKeys;
    hide RenameScalar, RenameFacts, RenameSchema, Ids;
    IdsRenamed(f, r.schema);
    match r.operator
    case Scan(_) =>
    case Filter(i, p) =>
      IdsRenamed(f, i.schema);
      EncRelationRenamed(f, provenance, i, EncScalar(provenance, p, Ids(i.schema), rest));
      EncScalarRenamed(f, provenance, p, Ids(i.schema), rest);
    case Project(i, ps, _) =>
      IdsRenamed(f, i.schema);
      EncRelationRenamed(f, provenance, i, Token(Decimal(|ps|), EncProjections(provenance, ps, Ids(r.schema), Ids(i.schema), rest)));
      EncProjectionsRenamed(f, provenance, ps, Ids(r.schema), Ids(i.schema), rest);
    case Join(_, i, k, p) =>
      IdsRenamed(f, i.schema);
      IdsRenamed(f, k.schema);
      var tail := EncScalar(provenance, p, Ids(i.schema) + Ids(k.schema), rest);
      EncRelationRenamed(f, provenance, i, EncRelation(provenance, k, tail));
      EncRelationRenamed(f, provenance, k, tail);
      EncScalarRenamed(f, provenance, p, Ids(i.schema) + Ids(k.schema), rest);
      assert MapIds(f, Ids(i.schema) + Ids(k.schema)) == MapIds(f, Ids(i.schema)) + MapIds(f, Ids(k.schema));
    case Distinct(i) => EncRelationRenamed(f, provenance, i, rest);
    case DistinctOn(i, cs) =>
      IdsRenamed(f, i.schema);
      EncRelationRenamed(f, provenance, i, Token(Decimal(|cs|), EncSelection(cs, Ids(i.schema), rest)));
      EncSelectionRenamed(f, cs, Ids(i.schema), rest);
    case Sort(i, ks) =>
      IdsRenamed(f, i.schema);
      EncRelationRenamed(f, provenance, i, Token(Decimal(|ks|), EncSortKeys(provenance, ks, Ids(i.schema), rest)));
      EncSortKeysRenamed(f, provenance, ks, Ids(i.schema), rest);
  }

  // ---------- renaming commutes with normalization ----------

  lemma RenameSchemaInjective(f: Allocation, a: Schema, b: Schema)
    requires Injective(f)
    ensures RenameSchema(f, a) == RenameSchema(f, b) <==> a == b
  {
    if RenameSchema(f, a) == RenameSchema(f, b) {
      assert |a| == |RenameSchema(f, a)| == |b|;
      forall i | 0 <= i < |a| ensures a[i] == b[i] {
        assert RenameSchema(f, a)[i] == RenameSchema(f, b)[i];
      }
    }
  }

  lemma RenameKeyInjective(f: Allocation, a: CandidateKey, b: CandidateKey)
    requires Injective(f) && StrictlyAscending(CompareNat, a) && StrictlyAscending(CompareNat, b)
    requires RenameKey(f, a) == RenameKey(f, b)
    ensures a == b
  {
    RenameKeyMembers(f, a);
    RenameKeyMembers(f, b);
    forall c ensures c in a <==> c in b {
      if c in a {
        assert f(c) in RenameKey(f, b);
      }
      if c in b {
        assert f(c) in RenameKey(f, a);
      }
    }
    CompareNatTotal();
    AscendingUnique(CompareNat, a, b);
  }

  lemma RenameKeysWithin(f: Allocation, a: seq<CandidateKey>, b: seq<CandidateKey>)
    requires Injective(f) && KeysCanonical(a) && KeysCanonical(b)
    requires Canonical(ComparePositions, RenameKeys(f, a)) == Canonical(ComparePositions, RenameKeys(f, b))
    ensures forall k :: k in a ==> k in b
  {
    RenamedKeysMembers(f, a);
    RenamedKeysMembers(f, b);
    forall k | k in a ensures k in b {
      assert RenameKey(f, k) in Canonical(ComparePositions, RenameKeys(f, a));
      var l :| l in b && RenameKey(f, l) == RenameKey(f, k);
      RenameKeyInjective(f, k, l);
    }
  }

  lemma RenameFactsInjective(f: Allocation, a: Facts, b: Facts)
    requires Injective(f) && a.InCanonicalForm() && b.InCanonicalForm()
    ensures RenameFacts(f, a) == RenameFacts(f, b) <==> a == b
    ensures RenameFacts(f, a).Matches(RenameFacts(f, b)) <==> a.Matches(b)
  {
    if a.candidateKeys.Proven? && b.candidateKeys.Proven? {
      var k, l := a.candidateKeys.value, b.candidateKeys.value;
      if Canonical(ComparePositions, RenameKeys(f, k)) == Canonical(ComparePositions, RenameKeys(f, l)) {
        RenameKeysWithin(f, k, l);
        RenameKeysWithin(f, l, k);
        ComparePositionsTotal();
        AscendingUnique(ComparePositions, k, l);
      }
    }
  }

  lemma IdentityProjectRenamed(f: Allocation, input: Relation, schema: Schema, facts: Facts, ps: seq<Projection>)
    requires Injective(f) && input.facts.InCanonicalForm() && facts.InCanonicalForm()
    ensures IsIdentityProject(Rename(f, input), RenameSchema(f, schema), RenameFacts(f, facts), RenameProjections(f, ps)) <==>
            IsIdentityProject(input, schema, facts, ps)
  {
    hide RenameFacts;
    RenameSchemaInjective(f, schema, input.schema);
    RenameFactsInjective(f, facts, input.facts);
    if |ps| == |schema| {
      forall i | 0 <= i < |ps|
        ensures IsIdentityRead(RenameProjections(f, ps)[i], RenameSchema(f, schema)[i]) <==> IsIdentityRead(ps[i], schema[i]) {
      }
    }
  }

  lemma {:induction false} NormalRenamed(f: Allocation, r: Relation)
    requires Injective(f) && Valid(r)
    ensures Normal(Rename(f, r)) == Rename(f, Normal(r))
    decreases r
  {
    hide IsIdentityProject, RenameFacts, RenameSchema, RenameProjections, RenameSortKeys, MapIds;
    match r.operator
    case Scan(_) =>
    case Filter(input, condition) =>
      NormalRenamed(f, input);
      NormalIsValid(input);
      RenameSchemaInjective(f, r.schema, Normal(input).schema);
      RenameFactsInjective(f, r.facts, Normal(input).facts);
    case Project(input, projections, _) =>
      NormalRenamed(f, input);
      NormalIsValid(input);
      IdentityProjectRenamed(f, Normal(input), r.schema, r.facts, projections);
    case Join(_, left, right, _) =>
      NormalRenamed(f, left);
      NormalRenamed(f, right);
    case Distinct(input) =>
      NormalRenamed(f, input);
      NormalIsValid(input);
      RenameSchemaInjective(f, r.schema, Normal(input).schema);
      RenameFactsInjective(f, r.facts, Normal(input).facts);
    case DistinctOn(input, _) => NormalRenamed(f, input);
    case Sort(input, _) => NormalRenamed(f, input);
  }

  lemma {:induction false} ScalarVisitsRenamed(f: Allocation, e: Scalar, depth: nat, rest: Trace)
    ensures ScalarVisits(RenameScalar(f, e), depth, rest) == ScalarVisits(e, depth, rest)
    decreases e
  {
    match e.operator
    case ColumnRead(_) =>
    case Literal(_) =>
    case Navigation(input, _) => ScalarVisitsRenamed(f, input, depth + 1, rest);
    case Equal(left, right) =>
      ScalarVisitsRenamed(f, right, depth + 1, rest);
      ScalarVisitsRenamed(f, left, depth + 1, ScalarVisits(right, depth + 1, rest));
    case Not(input) => ScalarVisitsRenamed(f, input, depth + 1, rest);
  }

  lemma {:induction false} ProjectionVisitsRenamed(f: Allocation, ps: seq<Projection>, depth: nat, rest: Trace)
    ensures ProjectionVisits(RenameProjections(f, ps), depth, rest) == ProjectionVisits(ps, depth, rest)
  {
    if ps != [] {
      ProjectionVisitsRenamed(f, ps[1..], depth, rest);
      ScalarVisitsRenamed(f, ps[0].expression, depth, ProjectionVisits(ps[1..], depth, rest));
      assert RenameProjections(f, ps)[1..] == RenameProjections(f, ps[1..]);
    }
  }

  lemma {:induction false} VisitsRenamed(f: Allocation, r: Relation, depth: nat, rest: Trace)
    ensures Visits(Rename(f, r), depth, rest) == Visits(r, depth, rest)
    decreases r
  {
    hide RenameScalar, RenameProjections, RenameFacts, RenameSchema;
    var d := depth + 1;
    match r.operator
    case Scan(_) =>
    case Filter(input, condition) =>
      ScalarVisitsRenamed(f, condition, d, rest);
      VisitsRenamed(f, input, d, ScalarVisits(condition, d, rest));
    case Project(input, projections, _) =>
      ProjectionVisitsRenamed(f, projections, d, rest);
      VisitsRenamed(f, input, d, ProjectionVisits(projections, d, rest));
    case Join(_, left, right, condition) =>
      ScalarVisitsRenamed(f, condition, d, rest);
      VisitsRenamed(f, right, d, ScalarVisits(condition, d, rest));
      VisitsRenamed(f, left, d, Visits(right, d, ScalarVisits(condition, d, rest)));
    case Distinct(input) => VisitsRenamed(f, input, d, rest);
    case DistinctOn(input, _) => VisitsRenamed(f, input, d, rest);
    case Sort(input, _) => VisitsRenamed(f, input, d, rest);
  }

  /** Renaming a query's columns renames its normal form, leaves both keys and
      every refusal as they are, and commutes with normalization. */
  lemma {:induction false} NormalizationIgnoresAllocation(f: Allocation, r: Relation, budget: nat)
    requires Injective(f) && Valid(r)
    ensures NormalizeQuery(Rename(f, r), budget) ==
            match NormalizeQuery(r, budget)
            case Normalized(q) => Normalized(q.(root := Rename(f, q.root)))
            case NotNormalized(failure) => NotNormalized(failure)
  {
    hide Rename, Normal, EncRelation, Valid, Visits;
    VisitsRenamed(f, r, 0, Done);
    NormalRenamed(f, r);
    NormalIsValid(r);
    EncRelationRenamed(f, true, r, End);
    EncRelationRenamed(f, false, Normal(r), End);
  }

  lemma {:induction false} FirstColumnDifferenceRenamed(f: Allocation, g: Allocation, l: Schema, r: Schema, i: nat)
    requires |l| == |r| && i <= |l|
    ensures FirstColumnDifference(RenameSchema(f, l), RenameSchema(g, r), i) == FirstColumnDifference(l, r, i)
    decreases |l| - i
  {
    if i < |l| {
      FirstColumnDifferenceRenamed(f, g, l, r, i + 1);
    }
  }

  /** Comparison answers the same whatever identities either side was given. */
  lemma {:induction false} ComparisonIgnoresAllocation(f: Allocation, g: Allocation, l: Relation, r: Relation, budget: nat)
    requires Injective(f) && Injective(g) && Valid(l) && Valid(r)
    ensures Compare(Rename(f, l), Rename(g, r), budget) == Compare(l, r, budget)
  {
    hide Normal, EquivalenceKey, StructuralKey, Valid, Run, NormalizeQuery;
    NormalizationIgnoresAllocation(f, l, budget);
    NormalizationIgnoresAllocation(g, r, budget);
    match (NormalizeQuery(l, budget), NormalizeQuery(r, budget))
    case (Normalized(a), Normalized(b)) =>
      if |a.root.schema| == |b.root.schema| {
        FirstColumnDifferenceRenamed(f, g, a.root.schema, b.root.schema, 0);
        FirstColumnDifferenceIs(a.root.schema, b.root.schema, 0);
      }
    case _ =>
  }
}
