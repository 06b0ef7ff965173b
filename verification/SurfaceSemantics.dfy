/** What a surface query means: names are resolved first, lambdas bind their
    own parameters, columns are found by name, and then rows are computed. */
module SurfaceSemantics {
  import opened Basics
  import opened Relational
  import opened Semantics
  import opened Surface

  /** The resolver a query is read against. */
  datatype Model = Model(
    classAt: string -> Option<ResolvedClass>,
    memberAt: (TypeRef, string) -> Option<ResolvedMember>)

  type NamedType = (string, TypeRef)

  /** What a lambda parameter is bound to: one value, or a row with named columns. */
  datatype Shape = ElementShape(typeRef: TypeRef) | RowShape(columns: seq<NamedType>)

  /** Each parameter in scope, and where its cells start in the current row. */
  type Scope = map<string, (Shape, nat)>

  /** An expression with every name resolved. */
  datatype Core =
    | ReadPlace(place: nat)
    | Constant(value: Value)
    | Navigate(input: Core, member: MemberFacts)
    | Same(left: Core, right: Core)
    | Differ(left: Core, right: Core)

  function FirstNamed(columns: seq<NamedType>, name: string): (p: Option<nat>)
    ensures p.Some? ==> p.value < |columns| && columns[p.value].0 == name
    ensures p.None? ==> forall k :: 0 <= k < |columns| ==> columns[k].0 != name
  {
    if columns == [] then None
    else if columns[0].0 == name then Some(0)
    else
      match FirstNamed(columns[1..], name)
      case None => None
      case Some(p) => Some(p + 1)
  }

  /** The one column with this name; none if there is no such column or more than one. */
  function PlaceOfName(columns: seq<NamedType>, name: string): (p: Option<nat>)
    ensures p.Some? ==> p.value < |columns| && columns[p.value].0 == name
  {
    match FirstNamed(columns, name)
    case None => None
    case Some(p) => if FirstNamed(columns[p + 1..], name).None? then Some(p) else None
  }

  const BOOLEAN := TypeRef(BOOLEAN_TYPE, [])

  function Elaborate(model: Model, scope: Scope, root: Root, members: seq<string>): Option<(Core, TypeRef)>
    decreases root, |members|
  {
    if members == [] then
      match root
      case Variable(name) =>
        if name in scope && scope[name].0.ElementShape? then Some((ReadPlace(scope[name].1), scope[name].0.typeRef)) else None
      case BooleanRoot(b) => Some((Constant(BooleanValue(b)), BOOLEAN))
      case IntegerRoot(i) => Some((Constant(IntegerValue(i)), TypeRef(INTEGER_TYPE, [])))
      case StringRoot(s) => Some((Constant(StringValue(s)), TypeRef(STRING_TYPE, [])))
      case EqualRoot(left, right) =>
        var l := Elaborate(model, scope, left.root, left.members);
        var r := Elaborate(model, scope, right.root, right.members);
        if l.Some? && r.Some? then Some((Same(l.value.0, r.value.0), BOOLEAN)) else None
      case NotEqualRoot(left, right) =>
        var l := Elaborate(model, scope, left.root, left.members);
        var r := Elaborate(model, scope, right.root, right.members);
        if l.Some? && r.Some? then Some((Differ(l.value.0, r.value.0), BOOLEAN)) else None
    else
      var name := members[|members| - 1];
      if |members| == 1 && root.Variable? && root.name in scope && scope[root.name].0.RowShape? then
        var columns := scope[root.name].0.columns;
        match PlaceOfName(columns, name)
        case None => None
        case Some(p) => Some((ReadPlace(scope[root.name].1 + p), columns[p].1))
      else
        match Elaborate(model, scope, root, members[..|members| - 1])
        case None => None
        case Some(input) =>
          match model.memberAt(input.1, name)
          case None => None
          case Some(m) => Some((Navigate(input.0, FactsOfMember(m)), m.target))
  }

  function ElaborateExpr(model: Model, scope: Scope, e: Expr): Option<(Core, TypeRef)> {
    Elaborate(model, scope, e.root, e.members)
  }

  function RunCore(db: Database, row: Row, core: Core): Cell {
    match core
    case ReadPlace(place) => CellAt(row, Some(place))
    case Constant(value) => Values([value])
    case Navigate(input, member) => NavigateCell(db, member, RunCore(db, row, input))
    case Same(left, right) => EqualCells(db, RunCore(db, row, left), RunCore(db, row, right))
    case Differ(left, right) => NegateCell(EqualCells(db, RunCore(db, row, left), RunCore(db, row, right)))
  }

  /** What the next step's lambda parameter ranges over. */
  datatype Kind = ElementKind | RowKind | PairKind

  datatype Table = Table(columns: seq<NamedType>, kind: Kind, rows: seq<Row>)

  function ParameterShape(t: Table): Option<Shape> {
    match t.kind
    case ElementKind => if |t.columns| == 1 then Some(ElementShape(t.columns[0].1)) else None
    case RowKind => Some(RowShape(t.columns))
    case PairKind => None
  }

  function KeepRows(db: Database, core: Core, rows: seq<Row>): seq<Row> {
    if rows == [] then []
    else (if RunCore(db, rows[0], core) == TRUE_CELL then [rows[0]] else []) + KeepRows(db, core, rows[1..])
  }

  function RunCores(db: Database, cores: seq<Core>, row: Row): Row {
    seq(|cores|, i requires 0 <= i < |cores| => RunCore(db, row, cores[i]))
  }

  function MapRows(db: Database, cores: seq<Core>, rows: seq<Row>): seq<Row> {
    seq(|rows|, i requires 0 <= i < |rows| => RunCores(db, cores, rows[i]))
  }

  /** Each output column's computation and its named type. */
  function ElaborateSpecs(model: Model, shape: Shape, specs: seq<ColumnSpec>): Option<(seq<Core>, seq<NamedType>)> {
    if specs == [] then Some(([], []))
    else
      var first := ElaborateExpr(model, map[specs[0].parameter := (shape, 0)], specs[0].body);
      var others := ElaborateSpecs(model, shape, specs[1..]);
      if first.Some? && others.Some?
      then Some(([first.value.0] + others.value.0, [(specs[0].alias, first.value.1)] + others.value.1))
      else None
  }

  function PlacesOfNames(columns: seq<NamedType>, names: seq<string>): Option<seq<nat>> {
    if names == [] then Some([])
    else
      var first := PlaceOfName(columns, names[0]);
      var others := PlacesOfNames(columns, names[1..]);
      if first.Some? && others.Some? then Some([first.value] + others.value) else None
  }

  function AsPlaces(places: seq<nat>): seq<Place> {
    seq(|places|, i requires 0 <= i < |places| => Some(places[i]))
  }

  function PickColumns(columns: seq<NamedType>, places: seq<nat>): seq<NamedType>
    requires forall p :: p in places ==> p < |columns|
  {
    seq(|places|, i requires 0 <= i < |places| => assert places[i] in places; columns[places[i]])
  }

  function NamedOrdering(columns: seq<NamedType>, keys: seq<KeySpec>): Option<Ordering> {
    if keys == [] then Some([])
    else
      var first := PlaceOfName(columns, keys[0].column);
      var others := NamedOrdering(columns, keys[1..]);
      if first.Some? && others.Some? then Some([(first, keys[0].direction)] + others.value) else None
  }

  lemma {:induction false} PlacesInRange(columns: seq<NamedType>, names: seq<string>)
    ensures PlacesOfNames(columns, names).Some? ==>
              |PlacesOfNames(columns, names).value| == |names|
              && forall p :: p in PlacesOfNames(columns, names).value ==> p < |columns|
  {
    if names != [] {
      PlacesInRange(columns, names[1..]);
    }
  }

  /** `path.all()`: one column of the class, holding the instance itself. */
  function Extent(db: Database, model: Model, path: string): Option<Table> {
    match model.classAt(path)
    case None => None
    case Some(c) =>
      var element := TypeRef(path, []);
      var column := ColumnFacts(SimpleName(path), element, EXACTLY_ONE, NullabilityUnknown);
      Some(Table([(SimpleName(path), element)], ElementKind, ScanRows(db, FactsOfClass(c), [column])))
  }

  function MapTo(db: Database, t: Table, name: string, result: Option<(Core, TypeRef)>): Option<Table> {
    match result
    case None => None
    case Some(r) => Some(Table([(name, r.1)], ElementKind, MapRows(db, [r.0], t.rows)))
  }

  function Apply(db: Database, model: Model, t: Table, step: Step): Option<Table>
    decreases step, 0
  {
    match step
    case PropertyStep(name) =>
      if t.kind != ElementKind || |t.columns| != 1 then None
      else MapTo(db, t, name, Elaborate(model, map["" := (ElementShape(t.columns[0].1), 0)], Variable(""), [name]))
    case FilterStep(parameter, body) =>
      (match ParameterShape(t)
       case None => None
       case Some(shape) =>
         match ElaborateExpr(model, map[parameter := (shape, 0)], body)
         case None => None
         case Some(r) => Some(t.(rows := KeepRows(db, r.0, t.rows))))
    case MapStep(parameter, body) =>
      (match ParameterShape(t)
       case None => None
       case Some(shape) =>
         MapTo(db, t, MAP_VALUE_COLUMN_NAME, ElaborateExpr(model, map[parameter := (shape, 0)], body)))
    case ProjectStep(specs) =>
      if t.kind != ElementKind || ParameterShape(t).None? then None
      else
        (match ElaborateSpecs(model, ParameterShape(t).value, specs)
         case None => None
         case Some(r) => Some(Table(r.1, RowKind, MapRows(db, r.0, t.rows))))
    case JoinStep(right, _, l, r, condition) =>
      (match EvaluateQuery(db, model, right)
       case None => None
       case Some(u) =>
         if t.kind != ElementKind || u.kind != ElementKind || |t.columns| != 1 || |u.columns| != 1 || l == r then None
         else
           var scope := map[l := (ElementShape(t.columns[0].1), 0), r := (ElementShape(u.columns[0].1), 1)];
           match ElaborateExpr(model, scope, condition)
           case None => None
           case Some(c) => Some(Table(t.columns + u.columns, PairKind, KeepRows(db, c.0, PairRows(t.rows, u.rows)))))
    case DistinctStep => Some(t.(rows := FirstOccurrences(t.rows)))
    case DistinctOnStep(names) =>
      PlacesInRange(t.columns, names);
      (match PlacesOfNames(t.columns, names)
       case None => None
       case Some(places) =>
         Some(Table(PickColumns(t.columns, places), t.kind, FirstOccurrences(SelectRows(AsPlaces(places), t.rows)))))
    case SortStep(keys) =>
      (match NamedOrdering(t.columns, keys)
       case None => None
       case Some(ordering) => Some(t.(rows := SortRows(db, ordering, t.rows))))
  }

  function EvaluateSteps(db: Database, model: Model, path: string, steps: seq<Step>): Option<Table>
    decreases steps, 1
  {
    if steps == [] then Extent(db, model, path)
    else
      match EvaluateSteps(db, model, path, steps[..|steps| - 1])
      case None => None
      case Some(t) => Apply(db, model, t, steps[|steps| - 1])
  }

  /** The table a surface query returns; none if a name does not resolve. */
  function EvaluateQuery(db: Database, model: Model, q: Query): Option<Table>
    decreases q, 2
  {
    EvaluateSteps(db, model, q.path, q.steps)
  }
}
