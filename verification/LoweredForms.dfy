/** What every lowered relation is like: its classes and members are found again,
    its scalars are ones lowering makes, and no rewrite but the removal of a
    literal-true filter or of a repeated distinct can ever apply to it. */
module LoweredForms {
  import opened Basics
  import opened Relational
  import opened Normalization
  import opened Keys
  import opened Surface
  import opened Canonical
  import opened Lowering
  import opened LoweringInvariant
  import opened LoweringMeaning
  import opened ReplayScalars
  import opened Replay
  import opened ReplaySteps
  import opened ReplayQuery

  // ---------- what is bound ----------

  ghost predicate LocalFound(resolver: Resolver, local: LocalValue) {
    local.kind.ClassLocal? ==> resolver.classAt(local.kind.cls.path) == Found(local.kind.cls)
  }

  ghost predicate ColumnsFound(resolver: Resolver, bound: seq<BoundColumn>) {
    forall i :: 0 <= i < |bound| ==> LocalFound(resolver, bound[i].local)
  }

  ghost predicate BindingsFound(resolver: Resolver, bindings: Bindings) {
    forall i :: 0 <= i < |bindings| ==> ColumnsFound(resolver, BoundOf(bindings[i].1))
  }

  lemma {:induction false} LookupFound(resolver: Resolver, bindings: Bindings, name: string)
    requires BindingsFound(resolver, bindings) && Lookup(bindings, name).Some?
    ensures ColumnsFound(resolver, BoundOf(Lookup(bindings, name).value))
  {
    hide ColumnsFound;
    if bindings[0].0 != name {
      LookupFound(resolver, bindings[1..], name);
    }
  }

  // ---------- scalars ----------

  ghost predicate ScalarGrounded(resolver: Resolver, s: LoweredScalar, schema: Schema) {
    LocalFound(resolver, s.local) && ScalarMade(s.expression) && (ScalarOk(s.expression, schema) ==> ScalarAnswered(resolver, s.expression))
  }

  ghost predicate ValueGrounded(resolver: Resolver, v: LoweredValue, schema: Schema) {
    match v
    case ScalarValue(s) => ScalarGrounded(resolver, s, schema)
    case RowValue(_, columns) => ColumnsFound(resolver, columns)
  }

  lemma NavigationGrounded(resolver: Resolver, span: SourceSpan, input: LoweredScalar, name: string, schema: Schema)
    requires KeepsNames(resolver) && LowerNavigation(resolver, span, input, name).Success? && ScalarGrounded(resolver, input, schema)
    ensures ScalarGrounded(resolver, LowerNavigation(resolver, span, input, name).value, schema)
  {
    hide Merged, ComposeNavigationMultiplicity, OriginOfMember, OriginOfClass;
    var e := LowerNavigation(resolver, span, input, name).value.expression;
    if ScalarOk(e, schema) {
      NavigationChecksInput(e, schema);
      assert ReceiverMatches(input.expression, e.operator.navigation.receiver);
    }
  }

  lemma ReadGrounded(resolver: Resolver, b: BoundColumn, origin: IrOrigin, schema: Schema)
    requires LocalFound(resolver, b.local)
    ensures ScalarGrounded(resolver, ReadColumn(b, origin), schema)
  {
  }

  lemma RelationColumnGrounded(resolver: Resolver, span: SourceSpan, local: LocalValue, columns: seq<BoundColumn>, name: string, schema: Schema)
    requires LowerRelationColumn(resolver, span, local, columns, name).Success? && ColumnsFound(resolver, columns)
    ensures ScalarGrounded(resolver, LowerRelationColumn(resolver, span, local, columns, name).value, schema)
  {
    hide Merged, ReadColumn, ScalarGrounded, LocalFound;
    var index := Navigate(resolver, local, name).target.column.id;
    ReadGrounded(resolver, columns[index], Merged(span, [columns[index].column.origin], []), schema);
  }

  lemma ComparisonGrounded(resolver: Resolver, span: SourceSpan, left: LoweredScalar, right: LoweredScalar, negated: bool, schema: Schema)
    requires LowerComparison(span, left, right, negated).Success?
    requires ScalarGrounded(resolver, left, schema) && ScalarGrounded(resolver, right, schema)
    ensures ScalarGrounded(resolver, LowerComparison(span, left, right, negated).value, schema)
  {
    hide Merged, IsBoolean;
    var e := LowerComparison(span, left, right, negated).value.expression;
    var equal := if negated then e.operator.input else e;
    if ScalarOk(e, schema) {
      assert ScalarOk(equal, schema);
      assert ScalarAnswered(resolver, equal);
    }
    assert ScalarMade(equal);
  }

  lemma {:induction false} LoweredValueGrounded(resolver: Resolver, site: Site, bindings: Bindings, root: Root, members: seq<string>, schema: Schema)
    requires KeepsNames(resolver) && BindingsFound(resolver, bindings) && LowerValue(resolver, site, bindings, root, members).Success?
    ensures ValueGrounded(resolver, LowerValue(resolver, site, bindings, root, members).value, schema)
    decreases root, |members|
  {
    hide ScalarGrounded, LowerNavigation, LowerRelationColumn, LowerComparison, Lookup, Merged, ReadColumn, BindingsFound, KeepsNames;
    if members == [] {
      var node := site.Child(0);
      match root
      case Variable(name) =>
        LookupFound(resolver, bindings, name);
        var element := Lookup(bindings, name).value;
        if element.ColumnElement? {
          assert BoundOf(element)[0] == element.bound;
          ReadGrounded(resolver, element.bound, Merged(node.Span(), [element.bound.column.origin], []), schema);
        }
      case BooleanRoot(b) => LiteralGrounded(resolver, node.Span(), BooleanLiteral(b), BOOLEAN_TYPE, schema);
      case IntegerRoot(i) => LiteralGrounded(resolver, node.Span(), IntegerLiteral(i), INTEGER_TYPE, schema);
      case StringRoot(s) => LiteralGrounded(resolver, node.Span(), StringLiteral(s), STRING_TYPE, schema);
      case EqualRoot(left, right) =>
        var l := LowerValue(resolver, node.Child(0), bindings, left.root, left.members);
        var r := LowerValue(resolver, node.Child(1), bindings, right.root, right.members);
        OperandsLower(node.Span(), l, r, false);
        LoweredValueGrounded(resolver, node.Child(0), bindings, left.root, left.members, schema);
        LoweredValueGrounded(resolver, node.Child(1), bindings, right.root, right.members, schema);
        OperandsGrounded(resolver, node.Span(), l, r, false, schema);
      case NotEqualRoot(left, right) =>
        var l := LowerValue(resolver, node.Child(0), bindings, left.root, left.members);
        var r := LowerValue(resolver, node.Child(1), bindings, right.root, right.members);
        OperandsLower(node.Span(), l, r, true);
        LoweredValueGrounded(resolver, node.Child(0), bindings, left.root, left.members, schema);
        LoweredValueGrounded(resolver, node.Child(1), bindings, right.root, right.members, schema);
        OperandsGrounded(resolver, node.Span(), l, r, true, schema);
    } else {
      var span, name := site.Child(|members|).Span(), members[|members| - 1];
      LoweredValueGrounded(resolver, site, bindings, root, members[..|members| - 1], schema);
      match LowerValue(resolver, site, bindings, root, members[..|members| - 1]).value
      case ScalarValue(input) => NavigationGrounded(resolver, span, input, name, schema);
      case RowValue(local, columns) => RelationColumnGrounded(resolver, span, local, columns, name, schema);
    }
  }

  lemma LiteralGrounded(resolver: Resolver, span: SourceSpan, literal: ScalarLiteral, typeName: string, schema: Schema)
    requires literal.IntegerLiteral? ==> literal.i >= 0
    ensures ScalarGrounded(resolver, LiteralScalar(span, literal, typeName), schema)
  {
  }

  lemma OperandsGrounded(resolver: Resolver, span: SourceSpan, l: Lowering<LoweredValue>, r: Lowering<LoweredValue>, negated: bool, schema: Schema)
    requires LowerBinary(span, l, r, negated).Success?
    requires (l.Success? ==> ValueGrounded(resolver, l.value, schema)) && (r.Success? ==> ValueGrounded(resolver, r.value, schema))
    ensures ValueGrounded(resolver, LowerBinary(span, l, r, negated).value, schema)
  {
    hide ScalarGrounded, LowerComparison;
    ComparisonGrounded(resolver, span, l.value.scalar, r.value.scalar, negated, schema);
  }

  lemma LoweredScalarGrounded(resolver: Resolver, site: Site, bindings: Bindings, x: Expr, schema: Schema)
    requires KeepsNames(resolver) && BindingsFound(resolver, bindings) && LowerScalar(resolver, site, bindings, x).Success?
    ensures ScalarGrounded(resolver, LowerScalar(resolver, site, bindings, x).value, schema)
  {
    hide ScalarGrounded, LowerValue, BindingsFound, KeepsNames;
    LoweredValueGrounded(resolver, site, bindings, x.root, x.members, schema);
  }

  // ---------- columns of a bound row ----------

  lemma RelationColumnPlain(resolver: Resolver, span: SourceSpan, local: LocalValue, columns: seq<BoundColumn>, name: string)
    requires DistinctIds(ColumnsOf(columns)) && LowerRelationColumn(resolver, span, local, columns, name).Success?
    ensures ReadsPlainly(LowerRelationColumn(resolver, span, local, columns, name).value.expression, RowBinding, ColumnsOf(columns))
  {
    hide Merged, Navigate;
    var schema := ColumnsOf(columns);
    var index := Navigate(resolver, local, name).target.column.id;
    assert schema[index] == columns[index].column;
    var e := LowerRelationColumn(resolver, span, local, columns, name).value.expression;
    forall i | 0 <= i < |schema| && schema[i].name in RESERVED ensures !ReferencesColumn(e, schema[i].id) {
      assert schema[i].id == schema[index].id ==> i == index;
    }
  }

  lemma NavigationPlain(resolver: Resolver, span: SourceSpan, input: LoweredScalar, name: string, schema: Schema)
    requires LowerNavigation(resolver, span, input, name).Success? && ReadsPlainly(input.expression, RowBinding, schema)
    ensures ReadsPlainly(LowerNavigation(resolver, span, input, name).value.expression, RowBinding, schema)
  {
    hide LowerNavigation;
    NavigationKeepsInput(resolver, span, input, name);
  }

  lemma ComparisonPlain(span: SourceSpan, left: LoweredScalar, right: LoweredScalar, negated: bool, schema: Schema)
    requires LowerComparison(span, left, right, negated).Success?
    requires ReadsPlainly(left.expression, RowBinding, schema) && ReadsPlainly(right.expression, RowBinding, schema)
    ensures ReadsPlainly(LowerComparison(span, left, right, negated).value.expression, RowBinding, schema)
  {
    hide Merged;
    var e := LowerComparison(span, left, right, negated).value.expression;
    var equal := if negated then e.operator.input else e;
    assert forall id :: ReferencesColumn(equal, id) <==> ReferencesColumn(left.expression, id) || ReferencesColumn(right.expression, id);
    assert forall id :: ReferencesColumn(e, id) <==> ReferencesColumn(equal, id);
  }

  lemma OneLookup(parameter: string, element: BoundElement, name: string)
    ensures Lookup([(parameter, element)], name) == if parameter == name then Some(element) else None
  {
    assert [(parameter, element)][1..] == [];
    assert Lookup([], name) == None;
  }

  lemma ColumnReadsPlainly(s: RelationState, e: Scalar, from: nat, next: nat)
    requires Accepted(s, from, next) && BindsColumn(s)
    ensures ReadsPlainly(e, BindingOf(s.expression), s.expression.schema)
  {
  }

  /** A lambda over a row lowers only if it reads its columns by spoken names. */
  lemma {:induction false} RowReadsPlainly(resolver: Resolver, site: Site, parameter: string, local: LocalValue, columns: seq<BoundColumn>,
                                           root: Root, members: seq<string>)
    requires DistinctIds(ColumnsOf(columns))
    requires LowerValue(resolver, site, [(parameter, RowElement(local, columns))], root, members).Success?
    ensures var v := LowerValue(resolver, site, [(parameter, RowElement(local, columns))], root, members).value;
            match v
            case ScalarValue(s) => ReadsPlainly(s.expression, RowBinding, ColumnsOf(columns))
            case RowValue(l, c) => l == local && c == columns
    decreases root, |members|
  {
    hide Merged, LowerNavigation, LowerRelationColumn, LowerComparison, ReadsPlainly, DistinctIds;
    var schema, bindings := ColumnsOf(columns), [(parameter, RowElement(local, columns))];
    if members == [] {
      var node := site.Child(0);
      match root
      case Variable(name) => OneLookup(parameter, RowElement(local, columns), name);
      case BooleanRoot(b) => LiteralPlain(node.Span(), BooleanLiteral(b), BOOLEAN_TYPE, schema);
      case IntegerRoot(i) => LiteralPlain(node.Span(), IntegerLiteral(i), INTEGER_TYPE, schema);
      case StringRoot(s) => LiteralPlain(node.Span(), StringLiteral(s), STRING_TYPE, schema);
      case EqualRoot(left, right) =>
        RowReadsPlainly(resolver, node.Child(0), parameter, local, columns, left.root, left.members);
        RowReadsPlainly(resolver, node.Child(1), parameter, local, columns, right.root, right.members);
        ComparisonPlain(node.Span(), LowerScalar(resolver, node.Child(0), bindings, left).value, LowerScalar(resolver, node.Child(1), bindings, right).value,
                        false, schema);
      case NotEqualRoot(left, right) =>
        RowReadsPlainly(resolver, node.Child(0), parameter, local, columns, left.root, left.members);
        RowReadsPlainly(resolver, node.Child(1), parameter, local, columns, right.root, right.members);
        ComparisonPlain(node.Span(), LowerScalar(resolver, node.Child(0), bindings, left).value, LowerScalar(resolver, node.Child(1), bindings, right).value,
                        true, schema);
    } else {
      var span, name := site.Child(|members|).Span(), members[|members| - 1];
      RowReadsPlainly(resolver, site, parameter, local, columns, root, members[..|members| - 1]);
      match LowerValue(resolver, site, bindings, root, members[..|members| - 1]).value
      case ScalarValue(input) => NavigationPlain(resolver, span, input, name, schema);
      case RowValue(_, _) => RelationColumnPlain(resolver, span, local, columns, name);
    }
  }

  lemma LiteralPlain(span: SourceSpan, literal: ScalarLiteral, typeName: string, schema: Schema)
    ensures ReadsPlainly(LiteralScalar(span, literal, typeName).expression, RowBinding, schema)
  {
  }

  lemma BodyPlain(resolver: Resolver, site: Site, s: RelationState, parameter: string, body: Expr, from: nat, next: nat)
    requires Accepted(s, from, next) && s.element.Some? && LowerScalar(resolver, site, [(parameter, s.element.value)], body).Success?
    ensures ReadsPlainly(LowerScalar(resolver, site, [(parameter, s.element.value)], body).value.expression,
                         BindingOf(s.expression), s.expression.schema)
  {
    hide LowerValue, IdsWithin, OperatorOk, KeysInScope, DistinctIds;
    if s.element.value.RowElement? {
      RowReadsPlainly(resolver, site, parameter, s.element.value.local, s.element.value.columns, body.root, body.members);
    }
  }

  // ---------- relations ----------

  /** Filters keep their input's facts, projects never return their input's
      columns and distinct rows are proven a set: an identity project is never
      met, and a literal-true filter or a repeated distinct is always a redex. */
  ghost predicate Tidy(r: Relation)
    decreases r
  {
    match r.operator
    case Scan(_) => true
    case Filter(input, _) => Tidy(input) && r.schema == input.schema && r.facts == input.facts
    case Project(input, _, _) => Tidy(input) && r.schema != input.schema
    case Join(_, left, right, _) => Tidy(left) && Tidy(right)
    case Distinct(input) => Tidy(input) && r.schema == input.schema && FactsAreDistinctSet(r.facts)
    case DistinctOn(input, _) => Tidy(input)
    case Sort(input, _) => Tidy(input)
  }

  /** What every lowered state has, with the identities it took since `from`. */
  ghost predicate Grounded(resolver: Resolver, a: Allocated, from: nat) {
    && Answered(resolver, a.state.expression) && Made(a.state.expression) && Tidy(a.state.expression)
    && (a.state.element.Some? ==> ColumnsFound(resolver, BoundOf(a.state.element.value)))
    && a.next == from + Allocations(a.state.expression)
  }

  lemma AllGrounded(resolver: Resolver, span: SourceSpan, path: string, next: u32)
    requires KeepsNames(resolver) && LowerAll(resolver, span, path, next).Success?
    ensures Grounded(resolver, LowerAll(resolver, span, path, next).value, next)
  {
  }

  /** A lambda over the bound element yields a grounded scalar. */
  lemma BodyGrounded(resolver: Resolver, site: Site, element: BoundElement, parameter: string, body: Expr, schema: Schema)
    requires KeepsNames(resolver) && ColumnsFound(resolver, BoundOf(element))
    requires LowerScalar(resolver, site, [(parameter, element)], body).Success?
    ensures ScalarGrounded(resolver, LowerScalar(resolver, site, [(parameter, element)], body).value, schema)
  {
    hide ScalarGrounded, LowerScalar, KeepsNames, ColumnsFound;
    LoweredScalarGrounded(resolver, site, [(parameter, element)], body, schema);
  }

  lemma FilterGrounded(resolver: Resolver, site: Site, a: Allocated, parameter: string, body: Expr, from: nat)
    requires KeepsNames(resolver) && Grounded(resolver, a, from) && Accepted(a.state, from, a.next)
    requires LowerFilter(resolver, site, a.state, parameter, body).Success?
    ensures Grounded(resolver, Allocated(LowerFilter(resolver, site, a.state, parameter, body).value, a.next), from)
  {
    hide LowerScalar, ScalarError, ScalarMade, ScalarAnswered, Merged, KeepsNames, ColumnsFound, LocalFound, KeysInScope, ReadsPlainly, Accepted, BindingOf;
    BodyGrounded(resolver, site.Child(0), a.state.element.value, parameter, body, a.state.expression.schema);
    BodyPlain(resolver, site.Child(0), a.state, parameter, body, from, a.next);
  }

  lemma ScalarProjectGrounded(resolver: Resolver, span: SourceSpan, a: Allocated, name: string, scalar: LoweredScalar, from: nat)
    requires Grounded(resolver, a, from) && LowerScalarProject(span, a.state, name, scalar, a.next).Success?
    requires ScalarGrounded(resolver, scalar, a.state.expression.schema) && Accepted(a.state, from, a.next)
    requires ReadsPlainly(scalar.expression, BindingOf(a.state.expression), a.state.expression.schema)
    ensures Grounded(resolver, LowerScalarProject(span, a.state, name, scalar, a.next).value, from)
  {
    hide ScalarError, ScalarMade, ScalarAnswered, Merged, LocalFound, KeysInScope, ReadsPlainly;
    var e := LowerScalarProject(span, a.state, name, scalar, a.next).value.state.expression;
    assert e.schema[0].id == a.next;
    assert e.operator.projections[0].expression == scalar.expression;
    var input := a.state.expression;
    assert |input.schema| > 0 ==> input.schema[0].id < a.next;
  }

  lemma {:induction false} SpecsGrounded(resolver: Resolver, site: Site, element: BoundElement, specs: seq<ColumnSpec>, next: u32, schema: Schema)
    requires KeepsNames(resolver) && ColumnsFound(resolver, BoundOf(element)) && LowerSpecs(resolver, site, element, specs, next).Success?
    ensures var t := LowerSpecs(resolver, site, element, specs, next).value;
            && |t.columns| == |t.projections| == |specs|
            && forall i :: 0 <= i < |specs| ==>
                 ScalarGrounded(resolver, LoweredScalar(t.projections[i].expression, t.columns[i].local), schema)
  {
    hide LowerScalar, SpecColumn, ScalarGrounded, KeepsNames, ColumnsFound;
    if specs != [] {
      var n := |specs| - 1;
      SpecsGrounded(resolver, site, element, specs[..n], next, schema);
      BodyGrounded(resolver, site.Child(n).Child(0), element, specs[n].parameter, specs[n].body, schema);
    }
  }

  lemma RelationProjectGrounded(resolver: Resolver, site: Site, a: Allocated, specs: seq<ColumnSpec>, from: nat)
    requires KeepsNames(resolver) && Grounded(resolver, a, from) && Accepted(a.state, from, a.next)
    requires LowerRelationProject(resolver, site, a.state, specs, a.next).Success?
    ensures Grounded(resolver, LowerRelationProject(resolver, site, a.state, specs, a.next).value, from)
  {
    hide LowerSpecs, ScalarError, ScalarMade, ScalarAnswered, Merged, LocalFound, KeysInScope, KeepsNames, NamesAreUnique, AliasesAreUnique, DistinctIds,
         RowColumnsOf, BindingOf;
    var input := a.state.expression;
    var t := LowerSpecs(resolver, site, a.state.element.value, specs, a.next).value;
    SpecsGrounded(resolver, site, a.state.element.value, specs, a.next, input.schema);
    SpecsAllocate(resolver, site, a.state.element.value, specs, a.next);
    var e := LowerRelationProject(resolver, site, a.state, specs, a.next).value.state.expression;
    assert e.schema[0].id == a.next;
    assert |input.schema| > 0 ==> input.schema[0].id < a.next;
    forall p | p in e.operator.projections ensures ScalarAnswered(resolver, p.expression) {
      var i :| 0 <= i < |e.operator.projections| && e.operator.projections[i] == p;
      assert ScalarGrounded(resolver, LoweredScalar(t.projections[i].expression, t.columns[i].local), input.schema);
    }
    forall i | 0 <= i < |specs| ensures ScalarMade(e.operator.projections[i].expression) && LocalFound(resolver, t.columns[i].local) {
      assert ScalarGrounded(resolver, LoweredScalar(t.projections[i].expression, t.columns[i].local), input.schema);
    }
  }

  lemma DistinctGrounded(resolver: Resolver, span: SourceSpan, a: Allocated, from: nat)
    requires Grounded(resolver, a, from) && LowerDistinct(span, a.state).Success?
    ensures Grounded(resolver, Allocated(LowerDistinct(span, a.state).value, a.next), from)
  {
    hide Merged, KeysInScope, DistinctIds;
  }

  lemma {:induction false} SelectionFound(resolver: Resolver, columns: seq<BoundColumn>, ids: seq<ColumnId>)
    requires ColumnsFound(resolver, columns) && BoundSelection(columns, ids).Some?
    ensures ColumnsFound(resolver, BoundSelection(columns, ids).value)
  {
    hide LocalFound;
    if ids != [] {
      OneFound(resolver, columns, ids[0]);
      SelectionFound(resolver, columns, ids[1..]);
    }
  }

  lemma {:induction false} OneFound(resolver: Resolver, columns: seq<BoundColumn>, id: ColumnId)
    requires ColumnsFound(resolver, columns) && BoundWithId(columns, id).Some?
    ensures LocalFound(resolver, BoundWithId(columns, id).value.local)
  {
    hide LocalFound;
    if columns[0].column.id != id {
      OneFound(resolver, columns[1..], id);
    }
  }

  lemma DistinctOnGrounded(resolver: Resolver, span: SourceSpan, a: Allocated, names: seq<string>, from: nat)
    requires Grounded(resolver, a, from) && LowerDistinctOn(span, a.state, names).Success?
    ensures Grounded(resolver, Allocated(LowerDistinctOn(span, a.state, names).value, a.next), from)
  {
    hide Merged, KeysInScope, DistinctIds, ColumnsFound, BoundSelection, Selected, ResolveSelectors, OperatorOk, RowColumnsOf, NamesAreUnique;
    var element := a.state.element;
    if element.Some? && element.value.RowElement? {
      SelectionFound(resolver, element.value.columns, ResolveSelectors(names, a.state.expression.schema).value);
    }
  }

  lemma SortGrounded(resolver: Resolver, site: Site, a: Allocated, keys: seq<KeySpec>, from: nat)
    requires Grounded(resolver, a, from) && LowerSort(site, a.state, keys).Success?
    ensures Grounded(resolver, Allocated(LowerSort(site, a.state, keys).value, a.next), from)
  {
    hide Merged, KeysInScope, OperatorOk, LowerKeys, ColumnsFound;
  }

  lemma JoinedGrounded(resolver: Resolver, site: Site, a: Allocated, b: Allocated, l: string, r: string, body: Expr, from: nat)
    requires KeepsNames(resolver) && Grounded(resolver, a, from) && Grounded(resolver, b, a.next) && BindsColumn(a.state)
    requires ElementFits(a.state.element, a.state.expression.schema) && ElementFits(b.state.element, b.state.expression.schema)
    requires LowerJoined(resolver, site, a.state, b.state, l, r, body).Success?
    ensures Grounded(resolver, Allocated(LowerJoined(resolver, site, a.state, b.state, l, r, body).value, b.next), from)
  {
    hide LowerScalar, ScalarError, ScalarMade, ScalarAnswered, Merged, KeepsNames, ColumnsFound, LocalFound, KeysInScope, DistinctIds, ReferencesColumn;
    LoweredScalarGrounded(resolver, site.Child(0), [(l, a.state.element.value), (r, b.state.element.value)], body,
                          a.state.expression.schema + b.state.expression.schema);
  }

  lemma {:induction false} StepGrounded(resolver: Resolver, site: Site, a: Allocated, step: Step, from: nat)
    requires KeepsNames(resolver) && Grounded(resolver, a, from) && Accepted(a.state, from, a.next) && LowerStep(resolver, site, a, step).Success?
    ensures Grounded(resolver, LowerStep(resolver, site, a, step).value, from)
    decreases step, 0
  {
    hide Accepted, Grounded, LowerFilter, LowerScalarProject, LowerRelationProject, LowerDistinct, LowerDistinctOn, LowerSort, LowerJoined, LowerScalar,
         LowerNavigation, KeepsNames;
    match step
    case PropertyStep(name) => PropertyGrounded(resolver, site.Span(), a, name, from);
    case FilterStep(parameter, body) => FilterGrounded(resolver, site, a, parameter, body, from);
    case MapStep(parameter, body) => MapGrounded(resolver, site, a, parameter, body, from);
    case ProjectStep(specs) => RelationProjectGrounded(resolver, site, a, specs, from);
    case JoinStep(right, _, l, r, condition) =>
      var b := LowerQuery(resolver, site.Child(1), right, a.next).value;
      LoweringKeepsInvariant(resolver, site.Child(1), right, a.next);
      LoweredQueryGrounded(resolver, site.Child(1), right, a.next);
      ElementsFit(a.state, from, a.next);
      ElementsFit(b.state, a.next, b.next);
      JoinedGrounded(resolver, site, a, b, l, r, condition, from);
    case DistinctStep => DistinctGrounded(resolver, site.Span(), a, from);
    case DistinctOnStep(names) => DistinctOnGrounded(resolver, site.Span(), a, names, from);
    case SortStep(keys) => SortGrounded(resolver, site, a, keys, from);
  }

  lemma ElementsFit(s: RelationState, from: nat, next: nat)
    requires Accepted(s, from, next)
    ensures ElementFits(s.element, s.expression.schema)
  {
  }

  lemma PropertyGrounded(resolver: Resolver, span: SourceSpan, a: Allocated, name: string, from: nat)
    requires KeepsNames(resolver) && Grounded(resolver, a, from) && Accepted(a.state, from, a.next)
    requires LowerProperty(resolver, span, a.state, name, a.next).Success?
    ensures Grounded(resolver, LowerProperty(resolver, span, a.state, name, a.next).value, from)
  {
    hide Accepted, LowerScalarProject, LowerNavigation, KeepsNames, ScalarGrounded, ReadColumn, Answered, Made, Tidy, Allocations, LocalFound;
    var b := a.state.element.value.bound;
    assert BoundOf(a.state.element.value)[0] == b;
    ReadGrounded(resolver, b, b.column.origin, a.state.expression.schema);
    NavigationGrounded(resolver, span, ReadColumn(b, b.column.origin), name, a.state.expression.schema);
    ColumnReadsPlainly(a.state, LowerNavigation(resolver, span, ReadColumn(b, b.column.origin), name).value.expression, from, a.next);
    ScalarProjectGrounded(resolver, span, a, name, LowerNavigation(resolver, span, ReadColumn(b, b.column.origin), name).value, from);
  }

  lemma MapGrounded(resolver: Resolver, site: Site, a: Allocated, parameter: string, body: Expr, from: nat)
    requires KeepsNames(resolver) && Grounded(resolver, a, from) && Accepted(a.state, from, a.next)
    requires LowerMap(resolver, site, a.state, parameter, body, a.next).Success?
    ensures Grounded(resolver, LowerMap(resolver, site, a.state, parameter, body, a.next).value, from)
  {
    hide Accepted, LowerScalarProject, LowerScalar, KeepsNames, ScalarGrounded, Answered, Made, Tidy, Allocations, LocalFound;
    BodyGrounded(resolver, site.Child(0), a.state.element.value, parameter, body, a.state.expression.schema);
    BodyPlain(resolver, site.Child(0), a.state, parameter, body, from, a.next);
    ScalarProjectGrounded(resolver, site.Span(), a, MAP_VALUE_COLUMN_NAME,
                          LowerScalar(resolver, site.Child(0), [(parameter, a.state.element.value)], body).value, from);
  }

  lemma {:induction false} LoweredStepsGrounded(resolver: Resolver, site: Site, path: string, steps: seq<Step>, next: u32)
    requires KeepsNames(resolver) && LowerSteps(resolver, site, path, steps, next).Success?
    ensures Grounded(resolver, LowerSteps(resolver, site, path, steps, next).value, next)
    decreases steps, 1
  {
    hide Accepted, Grounded, LowerStep, LowerAll, KeepsNames;
    if steps == [] {
      AllGrounded(resolver, site.Child(0).Span(), path, next);
    } else {
      LoweredStepsGrounded(resolver, site, path, steps[..|steps| - 1], next);
      StepsAccepted(resolver, site, path, steps[..|steps| - 1], next);
      StepGrounded(resolver, site.Child(|steps|), LowerSteps(resolver, site, path, steps[..|steps| - 1], next).value, steps[|steps| - 1], next);
    }
  }

  /** Every lowered query is grounded: the resolver answers its classes and
      members again, and its scalars, joins and facts are those lowering makes. */
  lemma {:induction false} LoweredQueryGrounded(resolver: Resolver, site: Site, q: Query, next: u32)
    requires KeepsNames(resolver) && LowerQuery(resolver, site, q, next).Success?
    ensures Grounded(resolver, LowerQuery(resolver, site, q, next).value, next)
    decreases q, 2
  {
    hide Grounded, KeepsNames;
    LoweredStepsGrounded(resolver, site, q.path, q.steps, next);
  }
}
