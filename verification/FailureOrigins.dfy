/** Where a refused query is said to fail: the origin lowering last marked, step by
    step. It is marked on the way in, so it has a value after success as well,
    and that value is what a later refusal without a mark of its own reports. */
module FailureOrigins {
  import opened Basics
  import opened Relational
  import opened Surface
  import opened Lowering

  function Unmerged(span: SourceSpan): IrOrigin {
    IrOrigin(span, [])
  }

  // ---------- scalars ----------

  function NavigationMark(resolver: Resolver, span: SourceSpan, input: LoweredScalar, name: string): IrOrigin {
    var outcome := Navigate(resolver, LocalValue(input.local.kind, input.expression.multiplicity), name);
    if name !in RESERVED && outcome.Hop? && outcome.target.MemberTarget?
    then Merged(span, [input.expression.origin], [OriginOfMember(outcome.target.member)])
    else Merged(span, [input.expression.origin], [])
  }

  function RelationColumnMark(resolver: Resolver, span: SourceSpan, local: LocalValue, columns: seq<BoundColumn>, name: string): IrOrigin {
    var r := LowerRelationColumn(resolver, span, local, columns, name);
    if r.Success? then r.value.expression.origin else Unmerged(span)
  }

  function BinaryMark(span: SourceSpan, left: Lowering<LoweredValue>, leftMark: IrOrigin, right: Lowering<LoweredValue>, rightMark: IrOrigin,
                      negated: bool): IrOrigin {
    match (AsScalar(left), AsScalar(right))
    case (Failure(_), _) => leftMark
    case (Success(_), Failure(_)) => rightMark
    case (Success(l), Success(r)) =>
      if LowerComparison(span, l, r, negated).Failure? then Merged(span, [l.expression.origin, r.expression.origin], []) else rightMark
  }

  function VariableMark(span: SourceSpan, element: Option<BoundElement>): IrOrigin {
    match element
    case Some(ColumnElement(b)) => Merged(span, [b.column.origin], [])
    case Some(RowElement(_, _)) => Unmerged(span)
    case None => Unmerged(span)
  }

  function RootMark(resolver: Resolver, node: Site, bindings: Bindings, root: Root): IrOrigin
    decreases root, 0
  {
    match root
    case Variable(name) => VariableMark(node.Span(), Lookup(bindings, name))
    case BooleanRoot(_) => Unmerged(node.Span())
    case IntegerRoot(_) => Unmerged(node.Span())
    case StringRoot(_) => Unmerged(node.Span())
    case EqualRoot(left, right) =>
      BinaryMark(node.Span(), LowerValue(resolver, node.Child(0), bindings, left.root, left.members),
                 ValueMark(resolver, node.Child(0), bindings, left.root, left.members),
                 LowerValue(resolver, node.Child(1), bindings, right.root, right.members),
                 ValueMark(resolver, node.Child(1), bindings, right.root, right.members), false)
    case NotEqualRoot(left, right) =>
      BinaryMark(node.Span(), LowerValue(resolver, node.Child(0), bindings, left.root, left.members),
                 ValueMark(resolver, node.Child(0), bindings, left.root, left.members),
                 LowerValue(resolver, node.Child(1), bindings, right.root, right.members),
                 ValueMark(resolver, node.Child(1), bindings, right.root, right.members), true)
  }

  /** The mark after `lower_value_nodes`. */
  function ValueMark(resolver: Resolver, site: Site, bindings: Bindings, root: Root, members: seq<string>): IrOrigin
    decreases root, |members| + 1
  {
    if members == [] then RootMark(resolver, site.Child(0), bindings, root)
    else
      var span := site.Child(|members|).Span();
      match LowerValue(resolver, site, bindings, root, members[..|members| - 1])
      case Failure(_) => ValueMark(resolver, site, bindings, root, members[..|members| - 1])
      case Success(ScalarValue(input)) => NavigationMark(resolver, span, input, members[|members| - 1])
      case Success(RowValue(local, columns)) => RelationColumnMark(resolver, span, local, columns, members[|members| - 1])
  }

  function ScalarMark(resolver: Resolver, site: Site, bindings: Bindings, x: Expr): IrOrigin {
    ValueMark(resolver, site, bindings, x.root, x.members)
  }

  // ---------- steps ----------

  /** A step is marked with its input's origin before anything else. */
  function StepMark(span: SourceSpan, s: RelationState): IrOrigin {
    Merged(span, [s.expression.origin], [])
  }

  function FilterMark(resolver: Resolver, site: Site, s: RelationState, parameter: string, body: Expr): IrOrigin {
    if s.element.None? then StepMark(site.Span(), s)
    else ScalarMark(resolver, site.Child(0), [(parameter, s.element.value)], body)
  }

  function ScalarProjectMark(span: SourceSpan, s: RelationState, scalar: LoweredScalar): IrOrigin {
    Merged(span, [s.expression.origin, scalar.expression.origin], [])
  }

  function MapMark(resolver: Resolver, site: Site, s: RelationState, parameter: string, body: Expr): IrOrigin {
    if s.element.None? then StepMark(site.Span(), s)
    else
      match LowerScalar(resolver, site.Child(0), [(parameter, s.element.value)], body)
      case Failure(_) => ScalarMark(resolver, site.Child(0), [(parameter, s.element.value)], body)
      case Success(scalar) => ScalarProjectMark(site.Span(), s, scalar)
  }

  function PropertyMark(resolver: Resolver, span: SourceSpan, s: RelationState, name: string): IrOrigin {
    if !BindsColumn(s) then StepMark(span, s)
    else
      var b := s.element.value.bound;
      match LowerNavigation(resolver, span, ReadColumn(b, b.column.origin), name)
      case Failure(_) => NavigationMark(resolver, span, ReadColumn(b, b.column.origin), name)
      case Success(scalar) => ScalarProjectMark(span, s, scalar)
  }

  function SpecsMark(resolver: Resolver, site: Site, element: BoundElement, specs: seq<ColumnSpec>, next: u32, before: IrOrigin): IrOrigin {
    if specs == [] then before
    else if LowerSpecs(resolver, site, element, specs[..|specs| - 1], next).Failure?
    then SpecsMark(resolver, site, element, specs[..|specs| - 1], next, before)
    else
      var spec := specs[|specs| - 1];
      ScalarMark(resolver, site.Child(|specs| - 1).Child(0), [(spec.parameter, element)], spec.body)
  }

  ghost function RelationProjectMark(resolver: Resolver, site: Site, s: RelationState, specs: seq<ColumnSpec>, next: u32): IrOrigin {
    if !BindsColumn(s) || specs == [] || !AliasesAreUnique(specs) then StepMark(site.Span(), s)
    else SpecsMark(resolver, site, s.element.value, specs, next, StepMark(site.Span(), s))
  }

  /** The selector that stopped the resolution: a repeated one by its own span, a
      missing or ambiguous one by its name's. */
  function SelectorFault(site: Site, names: seq<string>, schema: Schema): Option<SourceSpan> {
    if names == [] then None
    else
      var n := |names| - 1;
      if ResolveSelectors(names[..n], schema).Failure? then SelectorFault(site, names[..n], schema)
      else if names[n] in names[..n] then Some(site.Child(n).Span())
      else if |ColumnsNamed(schema, names[n])| != 1 then Some(site.Child(n).Child(0).Span())
      else None
  }

  /** The array of selectors is child 0 of its step; an empty one is marked itself. */
  function DistinctOnMark(site: Site, s: RelationState, names: seq<string>): IrOrigin {
    if names == [] then Merged(site.Child(0).Span(), [s.expression.origin], [])
    else
      match SelectorFault(site.Child(0), names, s.expression.schema)
      case Some(span) => Merged(span, [s.expression.origin], [])
      case None => StepMark(site.Span(), s)
  }

  function KeysMark(site: Site, keys: seq<KeySpec>, schema: Schema, input: IrOrigin, before: IrOrigin): IrOrigin {
    if keys == [] then before
    else
      var n := |keys| - 1;
      if LowerKeys(site, keys[..n], schema, input).Failure? then KeysMark(site, keys[..n], schema, input, before)
      else if |ColumnsNamed(schema, keys[n].column)| != 1 then Merged(site.Child(n).Child(0).Span(), [input], [])
      else Merged(site.Child(n).Span(), [input], [])
  }

  function SortMark(site: Site, s: RelationState, keys: seq<KeySpec>): IrOrigin {
    KeysMark(site, keys, s.expression.schema, s.expression.origin, StepMark(site.Span(), s))
  }

  /** After the right operand, which left `before` marked. */
  function JoinedMark(resolver: Resolver, site: Site, left: RelationState, right: RelationState, l: string, r: string, body: Expr, before: IrOrigin): IrOrigin
    requires BindsColumn(left)
  {
    if !BindsColumn(right) then before
    else
      var bindings := [(l, left.element.value), (r, right.element.value)];
      match LowerScalar(resolver, site.Child(0), bindings, body)
      case Failure(_) => ScalarMark(resolver, site.Child(0), bindings, body)
      case Success(condition) =>
        var c := condition.expression;
        if !ReferencesColumn(c, left.element.value.bound.column.id) || !ReferencesColumn(c, right.element.value.bound.column.id)
        then Merged(site.Span(), [left.expression.origin, right.expression.origin, c.origin], [])
        else ScalarMark(resolver, site.Child(0), bindings, body)
  }

  ghost function MarkAfterStep(resolver: Resolver, site: Site, a: Allocated, step: Step): IrOrigin
    decreases step, 0
  {
    match step
    case PropertyStep(name) => PropertyMark(resolver, site.Span(), a.state, name)
    case FilterStep(parameter, body) => FilterMark(resolver, site, a.state, parameter, body)
    case MapStep(parameter, body) => MapMark(resolver, site, a.state, parameter, body)
    case ProjectStep(specs) => RelationProjectMark(resolver, site, a.state, specs, a.next)
    case JoinStep(right, grouped, l, r, condition) =>
      if !BindsColumn(a.state) || !IsOneNode(right, grouped) || l == r then StepMark(site.Span(), a.state)
      else
        var before := MarkAfterQuery(resolver, site.Child(1), right, a.next);
        (match LowerQuery(resolver, site.Child(1), right, a.next)
         case Failure(_) => before
         case Success(b) => JoinedMark(resolver, site, a.state, b.state, l, r, condition, before))
    case DistinctStep => StepMark(site.Span(), a.state)
    case DistinctOnStep(names) => DistinctOnMark(site, a.state, names)
    case SortStep(keys) => SortMark(site, a.state, keys)
  }

  ghost function MarkAfterSteps(resolver: Resolver, site: Site, path: string, steps: seq<Step>, next: u32): IrOrigin
    decreases steps, 1
  {
    if steps == [] then Unmerged(site.Child(0).Span())
    else
      match LowerSteps(resolver, site, path, steps[..|steps| - 1], next)
      case Failure(_) => MarkAfterSteps(resolver, site, path, steps[..|steps| - 1], next)
      case Success(a) => MarkAfterStep(resolver, site.Child(|steps|), a, steps[|steps| - 1])
  }

  /** What `failure_origin` holds once the query has been lowered or refused. */
  ghost function MarkAfterQuery(resolver: Resolver, site: Site, q: Query, next: u32): IrOrigin
    decreases q, 2
  {
    MarkAfterSteps(resolver, site, q.path, q.steps, next)
  }

  // ---------- a refusal points into its query ----------

  /** The span is that of a node at or below the site. */
  ghost predicate PointsInto(site: Site, span: SourceSpan) {
    exists below: seq<nat> :: span == site.spans(site.address + below)
  }

  lemma PointsAt(site: Site)
    ensures PointsInto(site, site.Span())
  {
    assert site.address + [] == site.address;
  }

  lemma PointsBelow(site: Site, i: nat, span: SourceSpan)
    requires PointsInto(site.Child(i), span)
    ensures PointsInto(site, span)
  {
    var below: seq<nat> :| span == site.Child(i).spans(site.Child(i).address + below);
    assert site.Child(i).address + below == site.address + ([i] + below);
  }

  lemma PointsAtChild(site: Site, i: nat)
    ensures PointsInto(site, site.Child(i).Span())
  {
    PointsAt(site.Child(i));
    PointsBelow(site, i, site.Child(i).Span());
  }

  lemma PointsTwoBelow(site: Site, i: nat, j: nat, span: SourceSpan)
    requires PointsInto(site.Child(i).Child(j), span)
    ensures PointsInto(site, span)
  {
    hide PointsInto;
    PointsBelow(site.Child(i), j, span);
    PointsBelow(site, i, span);
  }

  lemma RelationColumnMarkSpan(resolver: Resolver, span: SourceSpan, local: LocalValue, columns: seq<BoundColumn>, name: string)
    ensures RelationColumnMark(resolver, span, local, columns, name).source == span
  {
  }

  lemma {:induction false} ValueMarkPoints(resolver: Resolver, site: Site, bindings: Bindings, root: Root, members: seq<string>)
    ensures PointsInto(site, ValueMark(resolver, site, bindings, root, members).source)
    decreases root, |members|
  {
    hide PointsInto, LowerValue, LowerComparison, AsScalar, Lookup, RelationColumnMark, Navigate;
    if members == [] {
      var node := site.Child(0);
      PointsAtChild(site, 0);
      match root
      case Variable(_) =>
      case BooleanRoot(_) =>
      case IntegerRoot(_) =>
      case StringRoot(_) =>
      case EqualRoot(left, right) =>
        ValueMarkPoints(resolver, node.Child(0), bindings, left.root, left.members);
        ValueMarkPoints(resolver, node.Child(1), bindings, right.root, right.members);
        PointsTwoBelow(site, 0, 0, ValueMark(resolver, node.Child(0), bindings, left.root, left.members).source);
        PointsTwoBelow(site, 0, 1, ValueMark(resolver, node.Child(1), bindings, right.root, right.members).source);
      case NotEqualRoot(left, right) =>
        ValueMarkPoints(resolver, node.Child(0), bindings, left.root, left.members);
        ValueMarkPoints(resolver, node.Child(1), bindings, right.root, right.members);
        PointsTwoBelow(site, 0, 0, ValueMark(resolver, node.Child(0), bindings, left.root, left.members).source);
        PointsTwoBelow(site, 0, 1, ValueMark(resolver, node.Child(1), bindings, right.root, right.members).source);
    } else {
      var span := site.Child(|members|).Span();
      PointsAtChild(site, |members|);
      ValueMarkPoints(resolver, site, bindings, root, members[..|members| - 1]);
      match LowerValue(resolver, site, bindings, root, members[..|members| - 1])
      case Failure(_) =>
      case Success(ScalarValue(_)) =>
      case Success(RowValue(local, columns)) => RelationColumnMarkSpan(resolver, span, local, columns, members[|members| - 1]);
    }
  }

  lemma ScalarMarkPoints(resolver: Resolver, site: Site, i: nat, bindings: Bindings, x: Expr)
    ensures PointsInto(site, ScalarMark(resolver, site.Child(i), bindings, x).source)
  {
    hide PointsInto, ValueMark;
    ValueMarkPoints(resolver, site.Child(i), bindings, x.root, x.members);
    PointsBelow(site, i, ScalarMark(resolver, site.Child(i), bindings, x).source);
  }

  lemma {:induction false} SpecsMarkPoints(resolver: Resolver, site: Site, element: BoundElement, specs: seq<ColumnSpec>, next: u32, before: IrOrigin)
    requires PointsInto(site, before.source)
    ensures PointsInto(site, SpecsMark(resolver, site, element, specs, next, before).source)
    decreases |specs|
  {
    hide PointsInto, ScalarMark, LowerSpecs;
    if specs != [] {
      var n := |specs| - 1;
      SpecsMarkPoints(resolver, site, element, specs[..n], next, before);
      ScalarMarkPoints(resolver, site.Child(n), 0, [(specs[n].parameter, element)], specs[n].body);
      PointsBelow(site, n, ScalarMark(resolver, site.Child(n).Child(0), [(specs[n].parameter, element)], specs[n].body).source);
    }
  }

  lemma {:induction false} SelectorFaultPoints(site: Site, i: nat, names: seq<string>, schema: Schema)
    ensures var fault := SelectorFault(site.Child(i), names, schema); fault.Some? ==> PointsInto(site, fault.value)
    decreases |names|
  {
    hide PointsInto, ResolveSelectors, ColumnsNamed;
    if names != [] {
      var n := |names| - 1;
      SelectorFaultPoints(site, i, names[..n], schema);
      PointsAtChild(site.Child(i), n);
      PointsBelow(site, i, site.Child(i).Child(n).Span());
      PointsAtChild(site.Child(i).Child(n), 0);
      PointsTwoBelow(site, i, n, site.Child(i).Child(n).Child(0).Span());
    }
  }

  lemma {:induction false} KeysMarkPoints(site: Site, keys: seq<KeySpec>, schema: Schema, input: IrOrigin, before: IrOrigin)
    requires PointsInto(site, before.source)
    ensures PointsInto(site, KeysMark(site, keys, schema, input, before).source)
    decreases |keys|
  {
    hide PointsInto, LowerKeys, ColumnsNamed;
    if keys != [] {
      var n := |keys| - 1;
      KeysMarkPoints(site, keys[..n], schema, input, before);
      PointsAtChild(site, n);
      PointsAtChild(site.Child(n), 0);
      PointsBelow(site, n, site.Child(n).Child(0).Span());
    }
  }

  lemma JoinedMarkPoints(resolver: Resolver, site: Site, left: RelationState, right: RelationState, l: string, r: string, body: Expr, before: IrOrigin)
    requires BindsColumn(left) && PointsInto(site, before.source)
    ensures PointsInto(site, JoinedMark(resolver, site, left, right, l, r, body, before).source)
  {
    hide PointsInto, ScalarMark, LowerScalar, ReferencesColumn;
    PointsAt(site);
    if BindsColumn(right) {
      ScalarMarkPoints(resolver, site, 0, [(l, left.element.value), (r, right.element.value)], body);
    }
  }

  lemma {:induction false} StepMarkPoints(resolver: Resolver, site: Site, a: Allocated, step: Step)
    ensures PointsInto(site, MarkAfterStep(resolver, site, a, step).source)
    decreases step, 0
  {
    hide PointsInto, ScalarMark, LowerScalar, LowerNavigation, ReadColumn, SpecsMark, SelectorFault, KeysMark, JoinedMark, LowerQuery, AliasesAreUnique, MarkAfterQuery,
         Navigate;
    PointsAt(site);
    match step
    case PropertyStep(_) =>
    case FilterStep(parameter, body) =>
      if a.state.element.Some? {
        ScalarMarkPoints(resolver, site, 0, [(parameter, a.state.element.value)], body);
      }
    case MapStep(parameter, body) =>
      if a.state.element.Some? {
        ScalarMarkPoints(resolver, site, 0, [(parameter, a.state.element.value)], body);
      }
    case ProjectStep(specs) =>
      if BindsColumn(a.state) {
        SpecsMarkPoints(resolver, site, a.state.element.value, specs, a.next, StepMark(site.Span(), a.state));
      }
    case JoinStep(right, _, l, r, condition) =>
      var before := MarkAfterQuery(resolver, site.Child(1), right, a.next);
      FailurePointsIntoQuery(resolver, site.Child(1), right, a.next);
      PointsBelow(site, 1, before.source);
      var b := LowerQuery(resolver, site.Child(1), right, a.next);
      if BindsColumn(a.state) && b.Success? {
        JoinedMarkPoints(resolver, site, a.state, b.value.state, l, r, condition, before);
      }
    case DistinctStep =>
    case DistinctOnStep(names) =>
      PointsAtChild(site, 0);
      SelectorFaultPoints(site, 0, names, a.state.expression.schema);
    case SortStep(keys) => KeysMarkPoints(site, keys, a.state.expression.schema, a.state.expression.origin, StepMark(site.Span(), a.state));
  }

  lemma {:induction false} StepsMarkPoints(resolver: Resolver, site: Site, path: string, steps: seq<Step>, next: u32)
    ensures PointsInto(site, MarkAfterSteps(resolver, site, path, steps, next).source)
    decreases steps, 1
  {
    hide PointsInto, MarkAfterStep, LowerSteps;
    if steps == [] {
      PointsAtChild(site, 0);
    } else {
      var earlier := LowerSteps(resolver, site, path, steps[..|steps| - 1], next);
      StepsMarkPoints(resolver, site, path, steps[..|steps| - 1], next);
      if earlier.Success? {
        StepMarkPoints(resolver, site.Child(|steps|), earlier.value, steps[|steps| - 1]);
        PointsBelow(site, |steps|, MarkAfterStep(resolver, site.Child(|steps|), earlier.value, steps[|steps| - 1]).source);
      }
    }
  }

  /** A refusal always points at a node of the query refused. */
  lemma {:induction false} FailurePointsIntoQuery(resolver: Resolver, site: Site, q: Query, next: u32)
    ensures PointsInto(site, MarkAfterQuery(resolver, site, q, next).source)
    decreases q, 2
  {
    hide PointsInto, MarkAfterSteps;
    StepsMarkPoints(resolver, site, q.path, q.steps, next);
  }
}
