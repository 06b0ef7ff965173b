/** The semantic key is complete: equal keys, equal erased queries, equal meaning. */
module Erasure {
  import opened Basics
  import opened Text
  import opened Relational
  import opened Semantics
  import opened Keys

  // ---------- equal erasures have equal streams ----------

  lemma PlaceRecovered(ids1: seq<ColumnId>, id1: ColumnId, ids2: seq<ColumnId>, id2: ColumnId, base: nat)
    requires |ids1| == |ids2| && ErasedId(ids1, id1, base) == ErasedId(ids2, id2, base)
    ensures Position(ids1, id1) == Position(ids2, id2)
  {
  }

  lemma MemberEncodes(a: ResolvedMember, b: ResolvedMember, rest: Tokens)
    requires EraseMember(a) == EraseMember(b)
    ensures EncMember(false, a, rest) == EncMember(false, b, rest)
  {
    assert EraseClass(a.owner) == EraseClass(b.owner);
  }

  lemma TotalityEncodes(a: Knowledge<Totality>, b: Knowledge<Totality>, rest: Tokens)
    requires EraseKnowledge(a) == EraseKnowledge(b)
    ensures EncTotality(false, a, rest) == EncTotality(false, b, rest)
  {
  }

  lemma {:induction false} ScalarEncodes(a: Scalar, ids1: seq<ColumnId>, b: Scalar, ids2: seq<ColumnId>, base: nat, rest: Tokens)
    requires |ids1| == |ids2| && EraseScalar(a, ids1, base) == EraseScalar(b, ids2, base)
    ensures EncScalar(false, a, ids1, rest) == EncScalar(false, b, ids2, rest)
    decreases a
  {
    hide EncMember, EncType, EncMultiplicity, EncTotality, EncLiteral;
    TotalityEncodes(a.totality, b.totality, EncScalarOperator(false, a, ids1, rest));
    match a.operator
    case ColumnRead(id) => PlaceRecovered(ids1, id, ids2, b.operator.id, base);
    case Literal(_) =>
    case Navigation(input, n) =>
      var m := b.operator.navigation.member;
      MemberEncodes(n.member, m, rest);
      ScalarEncodes(input, ids1, b.operator.input, ids2, base, EncMember(false, m, rest));
    case Equal(left, right) =>
      ScalarEncodes(right, ids1, b.operator.right, ids2, base, rest);
      ScalarEncodes(left, ids1, b.operator.left, ids2, base, EncScalar(false, right, ids1, rest));
    case Not(input) => ScalarEncodes(input, ids1, b.operator.input, ids2, base, rest);
  }

  lemma {:induction false} ColumnsEncode(a: seq<Column>, ids1: seq<ColumnId>, b: seq<Column>, ids2: seq<ColumnId>, base: nat, rest: Tokens)
    requires |ids1| == |ids2| && EraseColumns(a, ids1, base) == EraseColumns(b, ids2, base)
    ensures EncColumns(false, a, ids1, rest) == EncColumns(false, b, ids2, rest)
    decreases |a|
  {
    assert |a| == |EraseColumns(a, ids1, base)| == |b|;
    if a != [] {
      assert EraseColumn(a[0], ids1, base) == EraseColumns(a, ids1, base)[0] == EraseColumn(b[0], ids2, base);
      PlaceRecovered(ids1, a[0].id, ids2, b[0].id, base);
      assert EraseColumns(a[1..], ids1, base) == EraseColumns(a, ids1, base)[1..];
      assert EraseColumns(b[1..], ids2, base) == EraseColumns(b, ids2, base)[1..];
      ColumnsEncode(a[1..], ids1, b[1..], ids2, base, rest);
    }
  }

  lemma {:induction false} ProjectionsEncode(
    a: seq<Projection>, out1: seq<ColumnId>, in1: seq<ColumnId>,
    b: seq<Projection>, out2: seq<ColumnId>, in2: seq<ColumnId>, base: nat, rest: Tokens)
    requires |out1| == |out2| && |in1| == |in2|
    requires EraseProjections(a, out1, in1, base) == EraseProjections(b, out2, in2, base)
    ensures |a| == |b| && EncProjections(false, a, out1, in1, rest) == EncProjections(false, b, out2, in2, rest)
    decreases |a|
  {
    var ea, eb := EraseProjections(a, out1, in1, base), EraseProjections(b, out2, in2, base);
    assert |a| == |ea| == |b|;
    if a != [] {
      assert ea[0] == eb[0];
      PlaceRecovered(out1, a[0].column, out2, b[0].column, base);
      assert EraseProjections(a[1..], out1, in1, base) == ea[1..] && EraseProjections(b[1..], out2, in2, base) == eb[1..];
      ProjectionsEncode(a[1..], out1, in1, b[1..], out2, in2, base, rest);
      ScalarEncodes(a[0].expression, in1, b[0].expression, in2, base, EncProjections(false, a[1..], out1, in1, rest));
    }
  }

  lemma {:induction false} SelectionEncodes(a: seq<ColumnId>, ids1: seq<ColumnId>, b: seq<ColumnId>, ids2: seq<ColumnId>, base: nat, rest: Tokens)
    requires |ids1| == |ids2| && EraseSelection(a, ids1, base) == EraseSelection(b, ids2, base)
    ensures |a| == |b| && EncSelection(a, ids1, rest) == EncSelection(b, ids2, rest)
    decreases |a|
  {
    var ea, eb := EraseSelection(a, ids1, base), EraseSelection(b, ids2, base);
    assert |a| == |ea| == |b|;
    if a != [] {
      assert ea[0] == eb[0];
      PlaceRecovered(ids1, a[0], ids2, b[0], base);
      assert EraseSelection(a[1..], ids1, base) == ea[1..] && EraseSelection(b[1..], ids2, base) == eb[1..];
      SelectionEncodes(a[1..], ids1, b[1..], ids2, base, rest);
    }
  }

  lemma {:induction false} SortKeysEncode(a: seq<SortKey>, ids1: seq<ColumnId>, b: seq<SortKey>, ids2: seq<ColumnId>, base: nat, rest: Tokens)
    requires |ids1| == |ids2| && EraseSortKeys(a, ids1, base) == EraseSortKeys(b, ids2, base)
    ensures |a| == |b| && EncSortKeys(false, a, ids1, rest) == EncSortKeys(false, b, ids2, rest)
    decreases |a|
  {
    var ea, eb := EraseSortKeys(a, ids1, base), EraseSortKeys(b, ids2, base);
    assert |a| == |ea| == |b|;
    if a != [] {
      assert ea[0] == eb[0];
      PlaceRecovered(ids1, a[0].column, ids2, b[0].column, base);
      assert EraseSortKeys(a[1..], ids1, base) == ea[1..] && EraseSortKeys(b[1..], ids2, base) == eb[1..];
      SortKeysEncode(a[1..], ids1, b[1..], ids2, base, rest);
    }
  }

  lemma FactsEncode(a: Facts, ids1: seq<ColumnId>, b: Facts, ids2: seq<ColumnId>, rest: Tokens)
    requires EraseFacts(a, ids1) == EraseFacts(b, ids2)
    ensures EncFacts(false, a, ids1, rest) == EncFacts(false, b, ids2, rest)
  {
  }

  lemma {:induction false} RelationEncodes(a: Relation, b: Relation, base: nat, rest: Tokens)
    requires Erase(a, base) == Erase(b, base)
    ensures |a.schema| == |b.schema|
    ensures EncRelation(false, a, rest) == EncRelation(false, b, rest)
    decreases a, 1
  {
    assert |a.schema| == |Erase(a, base).schema| == |b.schema|;
    OperatorEncodes(a, b, base, rest);
    FactsEncode(a.facts, Ids(a.schema), b.facts, Ids(b.schema), EncOperator(false, a, rest));
    ColumnsEncode(a.schema, Ids(a.schema), b.schema, Ids(b.schema), base,
                  EncFacts(false, a.facts, Ids(a.schema), EncOperator(false, a, rest)));
  }

  lemma {:induction false} OperatorEncodes(a: Relation, b: Relation, base: nat, rest: Tokens)
    requires |a.schema| == |b.schema| && Erase(a, base).operator == Erase(b, base).operator
    ensures EncOperator(false, a, rest) == EncOperator(false, b, rest)
    decreases a, 0
  {
    hide EncRelation, EncScalar, EncProjections, EncSelection, EncSortKeys;
    hide EraseScalar, EraseProjections, EraseSelection, EraseSortKeys;
    match a.operator
    case Scan(c) => assert EraseClass(c) == EraseClass(b.operator.cls);
    case Filter(i, p) =>
      var j, q := b.operator.input, b.operator.predicate_;
      RelationEncodes(i, j, base, EncScalar(false, p, Ids(i.schema), rest));
      ScalarEncodes(p, Ids(i.schema), q, Ids(j.schema), base, rest);
    case Project(i, ps, _) =>
      var j, qs := b.operator.input, b.operator.projections;
      var tail := EncProjections(false, ps, Ids(a.schema), Ids(i.schema), rest);
      RelationEncodes(i, j, base, Token(Decimal(|ps|), tail));
      ProjectionsEncode(ps, Ids(a.schema), Ids(i.schema), qs, Ids(b.schema), Ids(j.schema), base, rest);
    case Join(_, i, k, p) =>
      var j, l, q := b.operator.left, b.operator.right, b.operator.condition;
      var tail := EncScalar(false, p, Ids(i.schema) + Ids(k.schema), rest);
      RelationEncodes(i, j, base, EncRelation(false, k, tail));
      RelationEncodes(k, l, base + |i.schema|, tail);
      ScalarEncodes(p, Ids(i.schema) + Ids(k.schema), q, Ids(j.schema) + Ids(l.schema), base, rest);
    case Distinct(i) => RelationEncodes(i, b.operator.input, base, rest);
    case DistinctOn(i, cs) =>
      var j, ds := b.operator.input, b.operator.columns;
      RelationEncodes(i, j, base, Token(Decimal(|cs|), EncSelection(cs, Ids(i.schema), rest)));
      SelectionEncodes(cs, Ids(i.schema), ds, Ids(j.schema), base, rest);
    case Sort(i, ks) =>
      var j, ls := b.operator.input, b.operator.keys;
      RelationEncodes(i, j, base, Token(Decimal(|ks|), EncSortKeys(false, ks, Ids(i.schema), rest)));
      SortKeysEncode(ks, Ids(i.schema), ls, Ids(j.schema), base, rest);
  }

  /** Complete key: two relations have the same equivalence key exactly when
      they are equal up to per-scope column identity and origins. */
  lemma {:induction false} KeyIsComplete(a: Relation, b: Relation)
    ensures EquivalenceKey(a) == EquivalenceKey(b) <==> Erase(a, 0) == Erase(b, 0)
  {
    if EquivalenceKey(a) == EquivalenceKey(b) {
      RenderInjective(EncRelation(false, a, End), EncRelation(false, b, End));
      RelationDecodes(a, End, b, End, 0);
    }
    if Erase(a, 0) == Erase(b, 0) {
      RelationEncodes(a, b, 0, End);
    }
  }

  // ---------- erasure keeps the meaning ----------

  function ErasedIds(ids: seq<ColumnId>, base: nat): seq<ColumnId> {
    seq(|ids|, i requires 0 <= i < |ids| => ErasedId(ids, ids[i], base))
  }

  lemma IdsOfErased(r: Relation, base: nat)
    ensures Ids(Erase(r, base).schema) == ErasedIds(Ids(r.schema), base)
    ensures Describe(Erase(r, base).schema) == Describe(r.schema)
    ensures |Ids(r.schema)| == |r.schema|
  {
  }

  /** The erased scope resolves each erased identity to the place it came from. */
  ghost predicate SamePlaces(erased: seq<ColumnId>, ids: seq<ColumnId>, base: nat) {
    forall id :: Position(erased, ErasedId(ids, id, base)) == Position(ids, id)
  }

  lemma LastIs(ids: seq<ColumnId>, id: ColumnId, p: nat)
    requires p < |ids| && ids[p] == id && forall k :: p < k < |ids| ==> ids[k] != id
    ensures Position(ids, id) == Some(p)
  {
  }

  lemma ErasedIdsSamePlaces(ids: seq<ColumnId>, base: nat)
    ensures SamePlaces(ErasedIds(ids, base), ids, base)
  {
    var erased := ErasedIds(ids, base);
    forall id ensures Position(erased, ErasedId(ids, id, base)) == Position(ids, id) {
      match Position(ids, id)
      case Some(p) => LastIs(erased, base + p, p);
      case None =>
    }
  }

  lemma {:induction false} PositionJoined(left: seq<ColumnId>, right: seq<ColumnId>, id: ColumnId)
    ensures Position(left + right, id) ==
            match Position(right, id)
            case Some(p) => Some(|left| + p)
            case None => Position(left, id)
    decreases |right|
  {
    if right == [] {
      assert left + right == left;
    } else {
      assert (left + right)[..|left + right| - 1] == left + right[..|right| - 1];
      PositionJoined(left, right[..|right| - 1], id);
    }
  }

  lemma ErasedIdsRange(ids: seq<ColumnId>, base: nat)
    ensures |ErasedIds(ids, base)| == |ids|
    ensures forall x :: x in ErasedIds(ids, base) ==> base <= x < base + |ids|
  {
  }

  lemma JoinedPlace(left: seq<ColumnId>, right: seq<ColumnId>, base: nat, id: ColumnId)
    ensures Position(ErasedIds(left, base) + ErasedIds(right, base + |left|), ErasedId(left + right, id, base)) ==
            Position(left + right, id)
  {
    hide ErasedIds, Position;
    var l, r := ErasedIds(left, base), ErasedIds(right, base + |left|);
    var erased := ErasedId(left + right, id, base);
    ErasedIdsSamePlaces(left, base);
    ErasedIdsSamePlaces(right, base + |left|);
    ErasedIdsRange(left, base);
    ErasedIdsRange(right, base + |left|);
    PositionJoined(left, right, id);
    PositionJoined(l, r, erased);
    assert Position(r, ErasedId(right, id, base + |left|)) == Position(right, id);
    assert Position(l, ErasedId(left, id, base)) == Position(left, id);
    assert Position(r, erased).Some? ==> erased in r;
    assert Position(l, erased).Some? ==> erased in l;
  }

  lemma JoinedIdsSamePlaces(left: seq<ColumnId>, right: seq<ColumnId>, base: nat)
    ensures SamePlaces(ErasedIds(left, base) + ErasedIds(right, base + |left|), left + right, base)
  {
    forall id
      ensures Position(ErasedIds(left, base) + ErasedIds(right, base + |left|), ErasedId(left + right, id, base)) ==
              Position(left + right, id)
    {
      JoinedPlace(left, right, base, id);
    }
  }

  lemma {:induction false} EraseScalarKeepsValue(db: Database, erased: seq<ColumnId>, ids: seq<ColumnId>, base: nat, row: Row, e: Scalar)
    requires SamePlaces(erased, ids, base)
    ensures Eval(db, erased, row, EraseScalar(e, ids, base)) == Eval(db, ids, row, e)
    decreases e
  {
    match e.operator
    case ColumnRead(_) =>
    case Literal(_) =>
    case Navigation(input, _) => EraseScalarKeepsValue(db, erased, ids, base, row, input);
    case Equal(left, right) =>
      EraseScalarKeepsValue(db, erased, ids, base, row, left);
      EraseScalarKeepsValue(db, erased, ids, base, row, right);
    case Not(input) => EraseScalarKeepsValue(db, erased, ids, base, row, input);
  }

  lemma {:induction false} EraseFilterKeepsRows(db: Database, erased: seq<ColumnId>, ids: seq<ColumnId>, base: nat, e: Scalar, rows: seq<Row>)
    requires SamePlaces(erased, ids, base)
    ensures FilterRows(db, erased, EraseScalar(e, ids, base), rows) == FilterRows(db, ids, e, rows)
  {
    if rows != [] {
      EraseScalarKeepsValue(db, erased, ids, base, rows[0], e);
      EraseFilterKeepsRows(db, erased, ids, base, e, rows[1..]);
    }
  }

  lemma EraseProjectKeepsRows(db: Database, erased: seq<ColumnId>, input: seq<ColumnId>, output: seq<ColumnId>, base: nat, ps: seq<Projection>, rows: seq<Row>)
    requires SamePlaces(erased, input, base)
    ensures ProjectRows(db, erased, EraseProjections(ps, output, input, base), rows) == ProjectRows(db, input, ps, rows)
  {
    var es := EraseProjections(ps, output, input, base);
    forall i | 0 <= i < |rows| ensures ProjectRow(db, erased, es, rows[i]) == ProjectRow(db, input, ps, rows[i]) {
      forall j | 0 <= j < |ps|
        ensures Eval(db, erased, rows[i], es[j].expression) == Eval(db, input, rows[i], ps[j].expression) {
        EraseScalarKeepsValue(db, erased, input, base, rows[i], ps[j].expression);
      }
    }
  }

  lemma SamePlacesSelect(erased: seq<ColumnId>, ids: seq<ColumnId>, columns: seq<ColumnId>, base: nat)
    requires SamePlaces(erased, ids, base)
    ensures Places(erased, EraseSelection(columns, ids, base)) == Places(ids, columns)
  {
  }

  lemma SamePlacesOrder(erased: seq<ColumnId>, ids: seq<ColumnId>, keys: seq<SortKey>, base: nat)
    requires SamePlaces(erased, ids, base)
    ensures OrderingOf(erased, EraseSortKeys(keys, ids, base)) == OrderingOf(ids, keys)
  {
  }

  /** Identities and origins carry no meaning. */
  lemma {:induction false} EraseKeepsMeaning(db: Database, r: Relation, base: nat)
    ensures Denote(db, Erase(r, base)) == Denote(db, r)
    decreases r, 1
  {
    hide SamePlaces, EraseScalar, FilterRows, ProjectRows, PairRows, SelectRows, SortRows, FirstOccurrences;
    hide ErasedIds, Ids, EraseFacts, EraseProjections, EraseSelection, EraseSortKeys, Places, OrderingOf, Describe;
    IdsOfErased(r, base);
    match r.operator
    case Scan(_) =>
    case Filter(input, condition) =>
      EraseKeepsMeaning(db, input, base);
      IdsOfErased(input, base);
      ErasedIdsSamePlaces(Ids(input.schema), base);
      EraseFilterKeepsRows(db, ErasedIds(Ids(input.schema), base), Ids(input.schema), base, condition, Denote(db, input));
    case Project(input, projections, _) =>
      EraseKeepsMeaning(db, input, base);
      IdsOfErased(input, base);
      ErasedIdsSamePlaces(Ids(input.schema), base);
      EraseProjectKeepsRows(db, ErasedIds(Ids(input.schema), base), Ids(input.schema), Ids(r.schema), base, projections, Denote(db, input));
    case Join(_, _, _, _) => EraseJoinKeepsMeaning(db, r, base);
    case Distinct(input) => EraseKeepsMeaning(db, input, base);
    case DistinctOn(input, columns) =>
      EraseKeepsMeaning(db, input, base);
      IdsOfErased(input, base);
      ErasedIdsSamePlaces(Ids(input.schema), base);
      SamePlacesSelect(ErasedIds(Ids(input.schema), base), Ids(input.schema), columns, base);
    case Sort(input, keys) =>
      EraseKeepsMeaning(db, input, base);
      IdsOfErased(input, base);
      ErasedIdsSamePlaces(Ids(input.schema), base);
      SamePlacesOrder(ErasedIds(Ids(input.schema), base), Ids(input.schema), keys, base);
  }

  lemma {:induction false} EraseJoinKeepsMeaning(db: Database, r: Relation, base: nat)
    requires r.operator.Join?
    ensures Denote(db, Erase(r, base)) == Denote(db, r)
    decreases r, 0
  {
    hide SamePlaces, EraseScalar, FilterRows, PairRows, ErasedIds, Ids, EraseFacts, Describe, EraseColumns;
    var left, right, condition := r.operator.left, r.operator.right, r.operator.condition;
    EraseKeepsMeaning(db, left, base);
    EraseKeepsMeaning(db, right, base + |left.schema|);
    IdsOfErased(left, base);
    IdsOfErased(right, base + |left.schema|);
    JoinedIdsSamePlaces(Ids(left.schema), Ids(right.schema), base);
    EraseFilterKeepsRows(db, ErasedIds(Ids(left.schema), base) + ErasedIds(Ids(right.schema), base + |left.schema|),
                         Ids(left.schema) + Ids(right.schema), base, condition, PairRows(Denote(db, left), Denote(db, right)));
  }

  /** Equal keys mean the same rows and the same column descriptions on every database. */
  lemma {:induction false} EqualKeysMeanTheSame(db: Database, a: Relation, b: Relation)
    requires EquivalenceKey(a) == EquivalenceKey(b)
    ensures Denote(db, a) == Denote(db, b)
    ensures Describe(a.schema) == Describe(b.schema)
  {
    KeyIsComplete(a, b);
    EraseKeepsMeaning(db, a, 0);
    EraseKeepsMeaning(db, b, 0);
    IdsOfErased(a, 0);
    IdsOfErased(b, 0);
  }
}
