/** The validators are sound: on a conforming database a constructed expression
    never reads a missing column, and its rows keep every promise of its schema. */
module Typing {
  import opened Basics
  import opened Relational
  import opened Semantics

  ghost predicate InRange(n: nat, m: Multiplicity) {
    m.lower <= n && (m.upper.Some? ==> n <= m.upper.value)
  }

  ghost predicate CellConforms(db: Database, c: Cell, t: TypeRef, m: Multiplicity, nullability: Nullability) {
    && c.Values?
    && InRange(|c.values|, m)
    && (forall v :: v in c.values ==> db.hasType(v, t))
    && (nullability == NonNullable ==> NullValue !in c.values)
  }

  ghost predicate FitsColumn(db: Database, c: Cell, column: ColumnFacts) {
    CellConforms(db, c, column.typeRef, column.multiplicity, column.nullability)
  }

  ghost predicate RowConforms(db: Database, row: Row, schema: Schema) {
    |row| == |schema| && forall i :: 0 <= i < |row| ==> FitsColumn(db, row[i], FactsOfColumn(schema[i]))
  }

  ghost predicate PrimitivesTyped(db: Database) {
    && (forall b :: db.hasType(BooleanValue(b), TypeRef(BOOLEAN_TYPE, [])))
    && (forall i :: db.hasType(IntegerValue(i), TypeRef(INTEGER_TYPE, [])))
    && (forall s :: db.hasType(StringValue(s), TypeRef(STRING_TYPE, [])))
    && (forall t :: db.hasType(NullValue, t))
    && (forall v :: db.hasType(v, TypeRef(BOOLEAN_TYPE, [])) ==> v.BooleanValue? || v.NullValue?)
  }

  ghost predicate NavigationTyped(db: Database) {
    forall m, v ::
      && InRange(|db.navigate(m, v)|, m.multiplicity)
      && forall w :: w in db.navigate(m, v) ==> db.hasType(w, m.target)
  }

  ghost predicate ScansTyped(db: Database) {
    forall c, columns, i, j :: 0 <= i < db.extent(c, columns) && 0 <= j < |columns| ==>
      FitsColumn(db, db.cell(c, columns, i, j), columns[j])
  }

  /** A database whose stored cells and navigations keep the declared types,
      multiplicities and nullability. */
  ghost predicate Conforms(db: Database) {
    PrimitivesTyped(db) && NavigationTyped(db) && ScansTyped(db)
  }

  /** The least a column allows, `true` in Boolean columns and an object elsewhere. */
  function LeastCell(t: TypeRef, m: Multiplicity): Cell {
    Values(seq(m.lower, i => if t == TypeRef(BOOLEAN_TYPE, []) then BooleanValue(true) else ObjectValue(0)))
  }

  /** Databases with any number of rows conform. */
  lemma ConformingDatabaseExists(rows: nat)
    ensures exists db :: Conforms(db) && forall c, columns :: db.extent(c, columns) == rows
  {
    var db := Database(
      (c: ClassFacts, columns: seq<ColumnFacts>) => rows,
      (c: ClassFacts, columns: seq<ColumnFacts>, i: nat, j: nat) =>
        if j < |columns| then LeastCell(columns[j].typeRef, columns[j].multiplicity) else Missing,
      (m: MemberFacts, v: Value) => LeastCell(m.target, m.multiplicity).values,
      (a: seq<Value>, b: seq<Value>) => a == b,
      (a: Cell, b: Cell) => true,
      (v: Value, t: TypeRef) => t != TypeRef(BOOLEAN_TYPE, []) || v.BooleanValue? || v.NullValue?);
    assert ScansTyped(db);
    assert NavigationTyped(db);
    assert PrimitivesTyped(db);
  }

  // ---------- composed multiplicity ----------

  lemma MulMonotone(a: nat, b: nat, c: nat, d: nat)
    requires a <= c && b <= d
    ensures a * b <= c * d
  {
    assert a * b <= c * b <= c * d;
  }

  ghost predicate Overflows(a: nat, b: nat) {
    a * b >= U32_LIMIT
  }

  /** The composition is absent exactly when one of its two bounds does not fit
      in 32 bits, and otherwise its bounds are the products of the operands'. */
  lemma ComposeExactly(receiver: Multiplicity, member: Multiplicity)
    ensures ComposeNavigationMultiplicity(receiver, member).None? <==>
            || Overflows(receiver.lower, member.lower)
            || (receiver.upper.Some? && member.upper.Some? && Overflows(receiver.upper.value, member.upper.value))
    ensures ComposeNavigationMultiplicity(receiver, member).Some? ==>
            var m := ComposeNavigationMultiplicity(receiver, member).value;
            && m.lower == receiver.lower * member.lower
            && m.upper == (if receiver.upper == Some(0) || member.upper == Some(0) then Some(0)
                           else if receiver.upper.Some? && member.upper.Some? then Some(receiver.upper.value * member.upper.value)
                           else None)
  {
    if receiver.upper.Some? && member.upper.Some? {
      MulMonotone(receiver.lower, member.lower, receiver.upper.value, member.upper.value);
    }
    if receiver.upper == Some(0) {
      assert receiver.lower * member.lower == 0;
    }
    if member.upper == Some(0) {
      assert receiver.lower * member.lower == 0;
    }
  }

  /** The lower bound alone can overflow, with neither upper bound finite. */
  lemma UnboundedCompositionCanBeAbsent()
    ensures ComposeNavigationMultiplicity(Bounds(0x10000, None), Bounds(0x10000, None)) == None
  {
  }

  lemma {:induction false} NavigateAllTyped(db: Database, m: MemberFacts, values: seq<Value>)
    requires NavigationTyped(db)
    ensures |values| * m.multiplicity.lower <= |NavigateAll(db, m, values)|
    ensures m.multiplicity.upper.Some? ==> |NavigateAll(db, m, values)| <= |values| * m.multiplicity.upper.value
    ensures forall w :: w in NavigateAll(db, m, values) ==> db.hasType(w, m.target)
  {
    if values != [] {
      NavigateAllTyped(db, m, values[1..]);
      var here := db.navigate(m, values[0]);
      assert InRange(|here|, m.multiplicity);
      assert |values| * m.multiplicity.lower == m.multiplicity.lower + |values[1..]| * m.multiplicity.lower;
      if m.multiplicity.upper.Some? {
        var u := m.multiplicity.upper.value;
        assert |values| * u == u + |values[1..]| * u;
      }
    }
  }

  /** Navigating from a count within the receiver's multiplicity yields a count
      within the composed one. */
  lemma NavigationCounts(db: Database, m: MemberFacts, values: seq<Value>, receiver: Multiplicity)
    requires NavigationTyped(db) && InRange(|values|, receiver)
    requires ComposeNavigationMultiplicity(receiver, m.multiplicity).Some?
    ensures InRange(|NavigateAll(db, m, values)|, ComposeNavigationMultiplicity(receiver, m.multiplicity).value)
  {
    NavigateAllTyped(db, m, values);
    ComposeExactly(receiver, m.multiplicity);
    MulMonotone(receiver.lower, m.multiplicity.lower, |values|, m.multiplicity.lower);
    if receiver.upper.Some? && m.multiplicity.upper.Some? {
      MulMonotone(|values|, m.multiplicity.upper.value, receiver.upper.value, m.multiplicity.upper.value);
    } else if receiver.upper == Some(0) {
      assert values == [];
    } else if m.multiplicity.upper == Some(0) {
      assert |values| * 0 == 0;
    }
  }

  // ---------- scalars ----------

  /** A validated scalar is defined on every conforming row and keeps its own
      declared type, multiplicity and nullability. */
  lemma {:induction false} ScalarIsSound(db: Database, scope: Schema, row: Row, e: Scalar)
    requires Conforms(db) && DistinctIds(scope) && RowConforms(db, row, scope) && ScalarOk(e, scope)
    ensures CellConforms(db, Eval(db, Ids(scope), row, e), e.typeRef, e.multiplicity, e.nullability)
    decreases e
  {
    match e.operator
    case ColumnRead(id) =>
      FindColumnAt(scope, id);
      assert FitsColumn(db, row[Position(Ids(scope), id).value], FactsOfColumn(scope[Position(Ids(scope), id).value]));
    case Literal(l) => LiteralIsSound(db, e, l);
    case Navigation(input, navigation) =>
      ScalarIsSound(db, scope, row, input);
      var m := FactsOfMember(navigation.member);
      var values := Eval(db, Ids(scope), row, input).values;
      NavigateAllTyped(db, m, values);
      NavigationCounts(db, m, values, input.multiplicity);
    case Equal(left, right) =>
      ScalarIsSound(db, scope, row, left);
      ScalarIsSound(db, scope, row, right);
      BooleanTyped(db, e, db.equal(Eval(db, Ids(scope), row, left).values, Eval(db, Ids(scope), row, right).values));
    case Not(input) =>
      ScalarIsSound(db, scope, row, input);
      BooleanCell(db, Eval(db, Ids(scope), row, input), input);
      BooleanTyped(db, e, !Eval(db, Ids(scope), row, input).values[0].b);
  }

  lemma LiteralIsSound(db: Database, e: Scalar, l: ScalarLiteral)
    requires PrimitivesTyped(db) && LiteralFits(e, l)
    ensures CellConforms(db, Values([LiteralValue(l)]), e.typeRef, e.multiplicity, e.nullability)
  {
    match l
    case BooleanLiteral(_) => assert e.typeRef == TypeRef(BOOLEAN_TYPE, []);
    case IntegerLiteral(_) => assert e.typeRef == TypeRef(INTEGER_TYPE, []);
    case StringLiteral(_) => assert e.typeRef == TypeRef(STRING_TYPE, []);
    case NullLiteral =>
  }

  lemma BooleanTyped(db: Database, e: Scalar, b: bool)
    requires PrimitivesTyped(db) && IsBoolean(e)
    ensures CellConforms(db, Values([BooleanValue(b)]), e.typeRef, e.multiplicity, e.nullability)
  {
    assert e.typeRef == TypeRef(BOOLEAN_TYPE, []);
  }

  lemma BooleanCell(db: Database, c: Cell, e: Scalar)
    requires PrimitivesTyped(db) && IsBoolean(e)
    requires CellConforms(db, c, e.typeRef, e.multiplicity, e.nullability)
    ensures |c.values| == 1 && c.values[0].BooleanValue?
  {
    assert e.typeRef == TypeRef(BOOLEAN_TYPE, []);
    assert c.values[0] in c.values;
  }

  /** A validated predicate is true or false on every conforming row. */
  lemma PredicateDecides(db: Database, scope: Schema, row: Row, condition: Scalar)
    requires Conforms(db) && DistinctIds(scope) && RowConforms(db, row, scope) && PredicateOk(condition, scope)
    ensures Eval(db, Ids(scope), row, condition) == TRUE_CELL ||
            Eval(db, Ids(scope), row, condition) == Values([BooleanValue(false)])
  {
    ScalarIsSound(db, scope, row, condition);
    var c := Eval(db, Ids(scope), row, condition);
    BooleanCell(db, c, condition);
    assert c.values == [BooleanValue(c.values[0].b)];
  }

  // ---------- relations ----------

  ghost predicate RowsConform(db: Database, rows: seq<Row>, schema: Schema) {
    forall i :: 0 <= i < |rows| ==> RowConforms(db, rows[i], schema)
  }

  lemma RowsFromConform(db: Database, rows: seq<Row>, source: seq<Row>, schema: Schema)
    requires RowsFrom(rows, source) && RowsConform(db, source, schema)
    ensures RowsConform(db, rows, schema)
  {
    forall i | 0 <= i < |rows| ensures RowConforms(db, rows[i], schema) {
      assert rows[i] in source;
      var k :| 0 <= k < |source| && source[k] == rows[i];
    }
  }

  lemma ProjectedConform(db: Database, input: Schema, schema: Schema, ps: seq<Projection>, rows: seq<Row>)
    requires Conforms(db) && DistinctIds(input) && RowsConform(db, rows, input)
    requires |ps| == |schema|
    requires forall i :: 0 <= i < |schema| ==> ScalarOk(ps[i].expression, input) && SameColumnMetadata(ps[i].expression, schema[i])
    ensures RowsConform(db, ProjectRows(db, Ids(input), ps, rows), schema)
  {
    forall i | 0 <= i < |rows| ensures RowConforms(db, ProjectRow(db, Ids(input), ps, rows[i]), schema) {
      forall j | 0 <= j < |ps| ensures FitsColumn(db, ProjectRow(db, Ids(input), ps, rows[i])[j], FactsOfColumn(schema[j])) {
        ScalarIsSound(db, input, rows[i], ps[j].expression);
      }
    }
  }

  lemma PairedConform(db: Database, left: Schema, right: Schema, l: seq<Row>, r: seq<Row>)
    requires RowsConform(db, l, left) && RowsConform(db, r, right)
    ensures RowsConform(db, PairRows(l, r), left + right)
  {
    PairRowsFrom(l, r);
    var pairs := PairRows(l, r);
    forall i | 0 <= i < |pairs| ensures RowConforms(db, pairs[i], left + right) {
      assert IsPair(pairs[i], l, r);
      var a, b :| 0 <= a < |l| && 0 <= b < |r| && pairs[i] == l[a] + r[b];
      assert RowConforms(db, l[a], left) && RowConforms(db, r[b], right);
    }
  }

  lemma SelectedConform(db: Database, input: Schema, columns: seq<ColumnId>, rows: seq<Row>)
    requires DistinctIds(input) && RowsConform(db, rows, input) && SelectionOk(columns, input)
    ensures RowsConform(db, SelectRows(Places(Ids(input), columns), rows), Selected(columns, input))
  {
    SelectedWidth(columns, input);
    var places := Places(Ids(input), columns);
    forall i | 0 <= i < |rows| ensures RowConforms(db, SelectRow(places, rows[i]), Selected(columns, input)) {
      forall j | 0 <= j < |columns| ensures FitsColumn(db, SelectRow(places, rows[i])[j], FactsOfColumn(Selected(columns, input)[j])) {
        FindColumnAt(input, columns[j]);
        assert RowConforms(db, rows[i], input);
      }
    }
  }

  /** Validator soundness: every row of a constructed expression conforms to
      its schema, with no cell missing. */
  lemma {:induction false} RelationIsSound(db: Database, r: Relation)
    requires Conforms(db) && Valid(r)
    ensures RowsConform(db, Denote(db, r), r.schema)
    decreases r
  {
    hide FilterRows, PairRows, SelectRows, SortRows, FirstOccurrences, ProjectRows, RowConforms, Selected, Eval, Places, OrderingOf, Ids;
    match r.operator
    case Scan(c) => ScanConforms(db, FactsOfClass(c), r.schema);
    case Filter(input, condition) =>
      RelationIsSound(db, input);
      FilterRowsFrom(db, Ids(input.schema), condition, Denote(db, input));
      RowsFromConform(db, Denote(db, r), Denote(db, input), r.schema);
    case Project(input, projections, _) =>
      RelationIsSound(db, input);
      ProjectedConform(db, input.schema, r.schema, projections, Denote(db, input));
    case Join(_, left, right, condition) =>
      RelationIsSound(db, left);
      RelationIsSound(db, right);
      var pairs := PairRows(Denote(db, left), Denote(db, right));
      PairedConform(db, left.schema, right.schema, Denote(db, left), Denote(db, right));
      FilterRowsFrom(db, Ids(left.schema) + Ids(right.schema), condition, pairs);
      RowsFromConform(db, Denote(db, r), pairs, r.schema);
    case Distinct(input) =>
      RelationIsSound(db, input);
      FirstOccurrencesFrom(Denote(db, input));
      RowsFromConform(db, Denote(db, r), Denote(db, input), r.schema);
    case DistinctOn(input, columns) =>
      RelationIsSound(db, input);
      SelectedConform(db, input.schema, columns, Denote(db, input));
      var selected := SelectRows(Places(Ids(input.schema), columns), Denote(db, input));
      FirstOccurrencesFrom(selected);
      RowsFromConform(db, Denote(db, r), selected, r.schema);
    case Sort(input, keys) =>
      RelationIsSound(db, input);
      SortRowsFrom(db, OrderingOf(Ids(input.schema), keys), Denote(db, input));
      RowsFromConform(db, Denote(db, r), Denote(db, input), r.schema);
  }

  lemma ScanConforms(db: Database, c: ClassFacts, schema: Schema)
    requires ScansTyped(db)
    ensures RowsConform(db, ScanRows(db, c, Describe(schema)), schema)
  {
    var columns := Describe(schema);
    forall i | 0 <= i < db.extent(c, columns) ensures RowConforms(db, ScanRows(db, c, columns)[i], schema) {
      forall j | 0 <= j < |columns| ensures FitsColumn(db, db.cell(c, columns, i, j), FactsOfColumn(schema[j])) {
        assert columns[j] == FactsOfColumn(schema[j]);
      }
    }
  }
}
