/** What a query means: an ordered list of positional rows for every database.
    A cell holds the values of one column in one row, or `Missing` when the
    expression that should have filled it read a column that is not there or
    negated something that is no Boolean. */
module Semantics {
  import opened Basics
  import opened Relational

  datatype Value = BooleanValue(b: bool) | IntegerValue(i: int) | StringValue(s: string) | NullValue | ObjectValue(id: nat)

  datatype Cell = Missing | Values(values: seq<Value>)

  type Row = seq<Cell>

  /** The facts of a class that identify what a scan reads. */
  datatype ClassFacts = ClassFacts(path: string, temporal: Option<Temporal>)

  /** The facts of a member that identify what a navigation reads. */
  datatype MemberFacts =
    MemberFacts(owner: ClassFacts, name: string, target: TypeRef, multiplicity: Multiplicity, kind: MemberKind,
                signature: Option<seq<TypeRef>>, targetTemporalArity: Option<u8>)

  datatype ColumnFacts = ColumnFacts(name: string, typeRef: TypeRef, multiplicity: Multiplicity, nullability: Nullability)

  /** A database interprets the primitives: class extents, member navigation,
      value equality, the order sorts use, and typing. Nothing else is assumed
      of them, so results hold for every reading of null equality or collation. */
  datatype Database = Database(
    extent: (ClassFacts, seq<ColumnFacts>) -> nat,
    cell: (ClassFacts, seq<ColumnFacts>, nat, nat) -> Cell,
    navigate: (MemberFacts, Value) -> seq<Value>,
    equal: (seq<Value>, seq<Value>) -> bool,
    atMost: (Cell, Cell) -> bool,
    hasType: (Value, TypeRef) -> bool)

  function FactsOfClass(c: ResolvedClass): ClassFacts {
    ClassFacts(c.path, c.temporal)
  }

  function FactsOfMember(m: ResolvedMember): MemberFacts {
    MemberFacts(FactsOfClass(m.owner), m.name, m.target, m.multiplicity, m.kind, m.signature, m.targetTemporalArity)
  }

  function FactsOfColumn(c: Column): ColumnFacts {
    ColumnFacts(c.name, c.typeRef, c.multiplicity, c.nullability)
  }

  /** The column descriptions an observer sees: everything but identity and origin. */
  function Describe(schema: Schema): seq<ColumnFacts> {
    seq(|schema|, i requires 0 <= i < |schema| => FactsOfColumn(schema[i]))
  }

  /** `ColumnScope::position`: a later column with the same identity wins. */
  function Position(ids: seq<ColumnId>, id: ColumnId): (p: Option<nat>)
    ensures p.Some? ==> p.value < |ids| && ids[p.value] == id && forall k :: p.value < k < |ids| ==> ids[k] != id
    ensures p.None? ==> id !in ids
  {
    if ids == [] then None
    else if ids[|ids| - 1] == id then Some(|ids| - 1)
    else Position(ids[..|ids| - 1], id)
  }

  function CellAt(row: Row, p: Option<nat>): Cell {
    if p.Some? && p.value < |row| then row[p.value] else Missing
  }

  function LiteralValue(l: ScalarLiteral): Value {
    match l
    case BooleanLiteral(b) => BooleanValue(b)
    case IntegerLiteral(i) => IntegerValue(i)
    case StringLiteral(s) => StringValue(s)
    case NullLiteral => NullValue
  }

  function NavigateAll(db: Database, m: MemberFacts, values: seq<Value>): seq<Value> {
    if values == [] then [] else db.navigate(m, values[0]) + NavigateAll(db, m, values[1..])
  }

  function NavigateCell(db: Database, m: MemberFacts, c: Cell): Cell {
    if c.Missing? then Missing else Values(NavigateAll(db, m, c.values))
  }

  function EqualCells(db: Database, l: Cell, r: Cell): Cell {
    if l.Missing? || r.Missing? then Missing else Values([BooleanValue(db.equal(l.values, r.values))])
  }

  function NegateCell(c: Cell): Cell {
    if c.Values? && |c.values| == 1 && c.values[0].BooleanValue? then Values([BooleanValue(!c.values[0].b)]) else Missing
  }

  const TRUE_CELL := Values([BooleanValue(true)])

  function Eval(db: Database, ids: seq<ColumnId>, row: Row, e: Scalar): Cell
    decreases e
  {
    match e.operator
    case ColumnRead(id) => CellAt(row, Position(ids, id))
    case Literal(l) => Values([LiteralValue(l)])
    case Navigation(input, navigation) =>
      NavigateCell(db, FactsOfMember(navigation.member), Eval(db, ids, row, input))
    case Equal(left, right) => EqualCells(db, Eval(db, ids, row, left), Eval(db, ids, row, right))
    case Not(input) => NegateCell(Eval(db, ids, row, input))
  }

  function ScanRows(db: Database, c: ClassFacts, columns: seq<ColumnFacts>): seq<Row> {
    seq(db.extent(c, columns), i requires 0 <= i < db.extent(c, columns) =>
      seq(|columns|, j requires 0 <= j < |columns| => db.cell(c, columns, i, j)))
  }

  function FilterRows(db: Database, ids: seq<ColumnId>, condition: Scalar, rows: seq<Row>): seq<Row> {
    if rows == [] then []
    else (if Eval(db, ids, rows[0], condition) == TRUE_CELL then [rows[0]] else []) + FilterRows(db, ids, condition, rows[1..])
  }

  function ProjectRow(db: Database, ids: seq<ColumnId>, projections: seq<Projection>, row: Row): Row {
    seq(|projections|, i requires 0 <= i < |projections| => Eval(db, ids, row, projections[i].expression))
  }

  function ProjectRows(db: Database, ids: seq<ColumnId>, projections: seq<Projection>, rows: seq<Row>): seq<Row> {
    seq(|rows|, i requires 0 <= i < |rows| => ProjectRow(db, ids, projections, rows[i]))
  }

  /** Every left row followed by every right row, left-major. */
  function PairRows(left: seq<Row>, right: seq<Row>): seq<Row> {
    if left == [] then []
    else seq(|right|, i requires 0 <= i < |right| => left[0] + right[i]) + PairRows(left[1..], right)
  }

  type Place = Option<nat>

  function Places(ids: seq<ColumnId>, columns: seq<ColumnId>): seq<Place> {
    seq(|columns|, i requires 0 <= i < |columns| => Position(ids, columns[i]))
  }

  function SelectRow(places: seq<Place>, row: Row): Row {
    seq(|places|, i requires 0 <= i < |places| => CellAt(row, places[i]))
  }

  function SelectRows(places: seq<Place>, rows: seq<Row>): seq<Row> {
    seq(|rows|, i requires 0 <= i < |rows| => SelectRow(places, rows[i]))
  }

  /** Keeps the first occurrence of each row. */
  function FirstOccurrences(rows: seq<Row>): seq<Row> {
    if rows == [] then []
    else
      var earlier := FirstOccurrences(rows[..|rows| - 1]);
      if rows[|rows| - 1] in earlier then earlier else earlier + [rows[|rows| - 1]]
  }

  type Ordering = seq<(Place, SortDirection)>

  function OrderingOf(ids: seq<ColumnId>, keys: seq<SortKey>): Ordering {
    seq(|keys|, i requires 0 <= i < |keys| => (Position(ids, keys[i].column), keys[i].direction))
  }

  /** Whether `a` may stand before `b`: the first key that tells them apart decides. */
  function MayPrecede(db: Database, keys: Ordering, a: Row, b: Row): bool {
    if keys == [] then true
    else
      var x, y := CellAt(a, keys[0].0), CellAt(b, keys[0].0);
      var low, high := db.atMost(x, y), db.atMost(y, x);
      if low && high then MayPrecede(db, keys[1..], a, b)
      else if keys[0].1 == Ascending then low else high
  }

  function InsertRow(db: Database, keys: Ordering, row: Row, rows: seq<Row>): seq<Row> {
    if rows == [] || MayPrecede(db, keys, row, rows[0]) then [row] + rows
    else [rows[0]] + InsertRow(db, keys, row, rows[1..])
  }

  /** Stable sort: each row is placed before the later rows it may precede. */
  function SortRows(db: Database, keys: Ordering, rows: seq<Row>): seq<Row> {
    if rows == [] then [] else InsertRow(db, keys, rows[0], SortRows(db, keys, rows[1..]))
  }

  function Denote(db: Database, r: Relation): seq<Row>
    decreases r
  {
    match r.operator
    case Scan(c) => ScanRows(db, FactsOfClass(c), Describe(r.schema))
    case Filter(input, condition) => FilterRows(db, Ids(input.schema), condition, Denote(db, input))
    case Project(input, projections, _) => ProjectRows(db, Ids(input.schema), projections, Denote(db, input))
    case Join(_, left, right, condition) =>
      FilterRows(db, Ids(left.schema) + Ids(right.schema), condition, PairRows(Denote(db, left), Denote(db, right)))
    case Distinct(input) => FirstOccurrences(Denote(db, input))
    case DistinctOn(input, columns) => FirstOccurrences(SelectRows(Places(Ids(input.schema), columns), Denote(db, input)))
    case Sort(input, keys) => SortRows(db, OrderingOf(Ids(input.schema), keys), Denote(db, input))
  }

  // ---------- facts about positions and rows ----------

  ghost predicate NoRepeats(ids: seq<ColumnId>) {
    forall i, j :: 0 <= i < j < |ids| ==> ids[i] != ids[j]
  }

  lemma {:induction false} PositionOf(ids: seq<ColumnId>, p: nat)
    requires NoRepeats(ids) && p < |ids|
    ensures Position(ids, ids[p]) == Some(p)
  {
    var q := Position(ids, ids[p]);
    assert ids[p] in ids;
    assert q.Some? && ids[q.value] == ids[p];
  }

  /** The first column with an identity sits at that identity's position. */
  lemma {:induction false} FindColumnAt(schema: Schema, id: ColumnId)
    requires DistinctIds(schema)
    ensures FindColumn(schema, id).Some? <==> Position(Ids(schema), id).Some?
    ensures FindColumn(schema, id).Some? ==>
              FindColumn(schema, id).value == schema[Position(Ids(schema), id).value]
  {
    var ids := Ids(schema);
    if FindColumn(schema, id).Some? {
      var c := FindColumn(schema, id).value;
      var k :| 0 <= k < |schema| && schema[k] == c;
      assert NoRepeats(ids) && ids[k] == id;
      PositionOf(ids, k);
    }
    assert Position(ids, id).Some? ==> schema[Position(ids, id).value] in schema;
  }

  ghost predicate AllOfWidth(rows: seq<Row>, n: nat) {
    forall i :: 0 <= i < |rows| ==> |rows[i]| == n
  }

  ghost predicate RowsFrom(rows: seq<Row>, source: seq<Row>) {
    forall i :: 0 <= i < |rows| ==> rows[i] in source
  }

  lemma {:induction false} FilterRowsFrom(db: Database, ids: seq<ColumnId>, condition: Scalar, rows: seq<Row>)
    ensures RowsFrom(FilterRows(db, ids, condition, rows), rows)
  {
    if rows != [] {
      FilterRowsFrom(db, ids, condition, rows[1..]);
      var f := FilterRows(db, ids, condition, rows);
      var t := FilterRows(db, ids, condition, rows[1..]);
      forall i | 0 <= i < |f| ensures f[i] in rows {
        if f[i] != rows[0] {
          assert f[i] in t;
          assert f[i] in rows[1..];
        }
      }
    }
  }

  lemma {:induction false} FirstOccurrencesFrom(rows: seq<Row>)
    ensures RowsFrom(FirstOccurrences(rows), rows)
    ensures NoRowTwice(FirstOccurrences(rows))
  {
    if rows != [] {
      FirstOccurrencesFrom(rows[..|rows| - 1]);
      assert RowsFrom(FirstOccurrences(rows[..|rows| - 1]), rows);
    }
  }

  ghost predicate NoRowTwice(rows: seq<Row>) {
    forall i, j :: 0 <= i < j < |rows| ==> rows[i] != rows[j]
  }

  lemma {:induction false} FirstOccurrencesFixed(rows: seq<Row>)
    requires NoRowTwice(rows)
    ensures FirstOccurrences(rows) == rows
  {
    if rows != [] {
      FirstOccurrencesFixed(rows[..|rows| - 1]);
      assert rows == rows[..|rows| - 1] + [rows[|rows| - 1]];
    }
  }

  lemma DistinctTwice(rows: seq<Row>)
    ensures FirstOccurrences(FirstOccurrences(rows)) == FirstOccurrences(rows)
  {
    FirstOccurrencesFrom(rows);
    FirstOccurrencesFixed(FirstOccurrences(rows));
  }

  lemma {:induction false} InsertRowFrom(db: Database, keys: Ordering, row: Row, rows: seq<Row>)
    ensures multiset(InsertRow(db, keys, row, rows)) == multiset(rows) + multiset{row}
  {
    if rows != [] && !MayPrecede(db, keys, row, rows[0]) {
      InsertRowFrom(db, keys, row, rows[1..]);
      assert rows == [rows[0]] + rows[1..];
    }
  }

  lemma {:induction false} SortRowsFrom(db: Database, keys: Ordering, rows: seq<Row>)
    ensures multiset(SortRows(db, keys, rows)) == multiset(rows)
    ensures RowsFrom(SortRows(db, keys, rows), rows)
  {
    if rows != [] {
      SortRowsFrom(db, keys, rows[1..]);
      InsertRowFrom(db, keys, rows[0], SortRows(db, keys, rows[1..]));
      assert rows == [rows[0]] + rows[1..];
    }
    var sorted := SortRows(db, keys, rows);
    forall i | 0 <= i < |sorted| ensures sorted[i] in rows {
      assert sorted[i] in multiset(sorted);
    }
  }

  ghost predicate IsPair(row: Row, left: seq<Row>, right: seq<Row>) {
    exists a, b :: 0 <= a < |left| && 0 <= b < |right| && row == left[a] + right[b]
  }

  lemma {:induction false} PairRowsFrom(left: seq<Row>, right: seq<Row>)
    ensures forall i :: 0 <= i < |PairRows(left, right)| ==> IsPair(PairRows(left, right)[i], left, right)
  {
    if left != [] {
      PairRowsFrom(left[1..], right);
      var pairs, rest := PairRows(left, right), PairRows(left[1..], right);
      forall i | 0 <= i < |pairs| ensures IsPair(pairs[i], left, right) {
        if i < |right| {
          assert pairs[i] == left[0] + right[i];
        } else {
          assert pairs[i] == rest[i - |right|] && IsPair(rest[i - |right|], left[1..], right);
          var a, b :| 0 <= a < |left[1..]| && 0 <= b < |right| && pairs[i] == left[1..][a] + right[b];
          assert pairs[i] == left[a + 1] + right[b];
        }
      }
    }
  }

  /** Every row is as wide as the schema. */
  lemma {:induction false} RowWidth(db: Database, r: Relation)
    requires Valid(r)
    ensures AllOfWidth(Denote(db, r), |r.schema|)
    decreases r
  {
    hide FilterRows, FirstOccurrences, SortRows, PairRows, Selected, Eval;
    match r.operator
    case Scan(_) =>
    case Filter(input, condition) =>
      RowWidth(db, input);
      FilterRowsFrom(db, Ids(input.schema), condition, Denote(db, input));
    case Project(_, _, _) =>
    case Join(_, left, right, condition) =>
      RowWidth(db, left);
      RowWidth(db, right);
      PairRowsFrom(Denote(db, left), Denote(db, right));
      FilterRowsFrom(db, Ids(left.schema) + Ids(right.schema), condition, PairRows(Denote(db, left), Denote(db, right)));
    case Distinct(input) =>
      RowWidth(db, input);
      FirstOccurrencesFrom(Denote(db, input));
    case DistinctOn(input, columns) =>
      SelectedWidth(columns, input.schema);
      FirstOccurrencesFrom(SelectRows(Places(Ids(input.schema), columns), Denote(db, input)));
    case Sort(input, keys) =>
      RowWidth(db, input);
      SortRowsFrom(db, OrderingOf(Ids(input.schema), keys), Denote(db, input));
  }

  lemma {:induction false} SelectedWidth(columns: seq<ColumnId>, input: Schema)
    requires SelectionOk(columns, input)
    ensures |Selected(columns, input)| == |columns|
    ensures forall i :: 0 <= i < |columns| ==> Selected(columns, input)[i] == FindColumn(input, columns[i]).value
  {
    if columns != [] {
      SelectedWidth(columns[..|columns| - 1], input);
    }
  }
}
