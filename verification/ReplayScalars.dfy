/** Lowering an emitted scalar again: what it gives back, and exactly when. */
module ReplayScalars {
  import opened Basics
  import opened Relational
  import opened Semantics
  import opened Keys
  import opened Surface
  import opened Canonical
  import opened Lowering
  import opened LoweringInvariant
  import opened LoweringMeaning

  // ---------- what the resolver and the scalar must be like ----------

  /** Names are kept, and no class is called like a primitive. */
  ghost predicate Ordinary(resolver: Resolver) {
    && KeepsNames(resolver)
    && !resolver.classAt(BOOLEAN_TYPE).Found? && !resolver.classAt(INTEGER_TYPE).Found? && !resolver.classAt(STRING_TYPE).Found?
  }

  /** Every navigation is one the resolver still answers, up to provenance. */
  ghost predicate ScalarAnswered(resolver: Resolver, e: Scalar)
    decreases e
  {
    match e.operator
    case ColumnRead(_) => true
    case Literal(_) => true
    case Navigation(input, navigation) =>
      && ScalarAnswered(resolver, input)
      && IsNavigable(navigation.member)
      && resolver.classAt(input.typeRef.rawType).Found?
      && resolver.memberAt(input.typeRef.rawType, navigation.member.name).Found?
      && EraseMember(resolver.memberAt(input.typeRef.rawType, navigation.member.name).value) == EraseMember(navigation.member)
    case Equal(left, right) => ScalarAnswered(resolver, left) && ScalarAnswered(resolver, right)
    case Not(input) => ScalarAnswered(resolver, input)
  }

  /** What every lowered scalar has: no proven totality, equality of single
      values, no negative integer and no property spelled like a reserved word. */
  ghost predicate ScalarMade(e: Scalar)
    decreases e
  {
    && e.totality.Unknown?
    && match e.operator
       case ColumnRead(_) => true
       case Literal(l) => l.IntegerLiteral? ==> l.i >= 0
       case Navigation(input, navigation) => ScalarMade(input) && navigation.member.name !in RESERVED
       case Equal(left, right) =>
         && ScalarMade(left) && ScalarMade(right)
         && left.multiplicity == EXACTLY_ONE && right.multiplicity == EXACTLY_ONE
       case Not(input) => ScalarMade(input)
  }

  /** No property read along the way is spelled like a reserved word. */
  ghost predicate Spoken(x: Expr) {
    forall m :: m in x.members ==> m !in RESERVED
  }

  /** Every column is referred to without a reserved word. */
  ghost predicate ReadsSpoken(e: Scalar, references: References)
    decreases e
  {
    match e.operator
    case ColumnRead(id) => id in references && Spoken(references[id])
    case Literal(_) => true
    case Navigation(input, _) => ReadsSpoken(input, references)
    case Equal(left, right) => ReadsSpoken(left, references) && ReadsSpoken(right, references)
    case Not(input) => ReadsSpoken(input, references)
  }

  /** A lambda over a row reads none of its columns by a reserved word. */
  ghost predicate ReadsPlainly(e: Scalar, binding: BindingKind, schema: Schema) {
    binding == RowBinding ==> forall i :: 0 <= i < |schema| && schema[i].name in RESERVED ==> !ReferencesColumn(e, schema[i].id)
  }

  lemma {:induction false} BareReadsAreSpoken(e: Scalar, references: References, depth: nat)
    requires EmitScalar(e, references, depth).Success? && forall id :: id in references ==> references[id].members == []
    ensures ReadsSpoken(e, references)
    decreases e
  {
    match e.operator
    case ColumnRead(_) =>
    case Literal(_) =>
    case Navigation(input, _) => BareReadsAreSpoken(input, references, depth + 1);
    case Equal(left, right) =>
      BareReadsAreSpoken(left, references, depth + 1);
      BareReadsAreSpoken(right, references, depth + 1);
    case Not(input) =>
      BareReadsAreSpoken(input.operator.left, references, depth + 1);
      BareReadsAreSpoken(input.operator.right, references, depth + 1);
  }

  lemma RowReference(schema: Schema, binder: string, id: ColumnId)
    requires DistinctIds(schema) && ReferencesFor(RowBinding, schema, binder).Some? && id in ReferencesFor(RowBinding, schema, binder).value
    ensures exists i :: 0 <= i < |schema| && schema[i].id == id
    ensures forall i :: 0 <= i < |schema| && schema[i].id == id ==>
              (Spoken(ReferencesFor(RowBinding, schema, binder).value[id]) <==> schema[i].name !in RESERVED)
  {
    var c := ColumnAt(schema, id);
    var x := ReferencesFor(RowBinding, schema, binder).value[id];
    assert x.members == [c.name] && c in schema;
    forall i | 0 <= i < |schema| && schema[i].id == id ensures Spoken(x) <==> schema[i].name !in RESERVED {
      assert schema[i] == c;
      assert c.name in x.members;
    }
  }

  lemma {:induction false} RowReadsAreSpoken(e: Scalar, schema: Schema, binder: string, depth: nat)
    requires DistinctIds(schema) && ReferencesFor(RowBinding, schema, binder).Some?
    requires EmitScalar(e, ReferencesFor(RowBinding, schema, binder).value, depth).Success?
    ensures ReadsSpoken(e, ReferencesFor(RowBinding, schema, binder).value) <==> ReadsPlainly(e, RowBinding, schema)
    decreases e
  {
    hide DistinctIds, ReferencesFor, Spoken;
    match e.operator
    case ColumnRead(id) => RowReference(schema, binder, id);
    case Literal(_) =>
    case Navigation(input, _) => RowReadsAreSpoken(input, schema, binder, depth + 1);
    case Equal(left, right) =>
      RowReadsAreSpoken(left, schema, binder, depth + 1);
      RowReadsAreSpoken(right, schema, binder, depth + 1);
    case Not(input) =>
      RowReadsAreSpoken(input.operator.left, schema, binder, depth + 1);
      RowReadsAreSpoken(input.operator.right, schema, binder, depth + 1);
      assert forall id :: ReferencesColumn(input, id) <==> ReferencesColumn(input.operator.left, id) || ReferencesColumn(input.operator.right, id);
  }

  /** A reference is spoken exactly when no row column is read by a reserved word. */
  lemma PlainReadsAreSpoken(e: Scalar, binding: BindingKind, schema: Schema, binder: string, depth: nat)
    requires DistinctIds(schema) && ReferencesFor(binding, schema, binder).Some?
    requires EmitScalar(e, ReferencesFor(binding, schema, binder).value, depth).Success?
    ensures ReadsSpoken(e, ReferencesFor(binding, schema, binder).value) <==> ReadsPlainly(e, binding, schema)
  {
    hide DistinctIds, EmitScalar, ReadsSpoken;
    if binding == RowBinding {
      RowReadsAreSpoken(e, schema, binder, depth);
    } else {
      BareReadsAreSpoken(e, ReferencesFor(binding, schema, binder).value, depth);
    }
  }

  // ---------- origins ----------

  lemma {:induction false} AddOriginsMembers(seen: seq<ModelOrigin>, more: seq<ModelOrigin>, m: ModelOrigin)
    ensures m in AddOrigins(seen, more) <==> m in seen || m in more
  {
    if more != [] {
      AddOriginsMembers(seen, more[..|more| - 1], m);
      assert more == more[..|more| - 1] + [more[|more| - 1]];
    }
  }

  lemma {:induction false} AllOriginsMembers(origins: seq<IrOrigin>, m: ModelOrigin)
    ensures m in AllOrigins(origins) <==> exists i :: 0 <= i < |origins| && m in origins[i].modelOrigins
  {
    if origins != [] {
      var n := |origins| - 1;
      AllOriginsMembers(origins[..n], m);
      AddOriginsMembers(AllOrigins(origins[..n]), origins[n].modelOrigins, m);
    }
  }

  /** A merged origin holds exactly the model origins merged into it. */
  lemma MergedMembers(span: SourceSpan, origins: seq<IrOrigin>, extra: seq<ModelOrigin>, m: ModelOrigin)
    ensures m in Merged(span, origins, extra).modelOrigins <==>
            m in extra || exists i :: 0 <= i < |origins| && m in origins[i].modelOrigins
  {
    AllOriginsMembers(origins, m);
    AddOriginsMembers(AllOrigins(origins), extra, m);
  }

  // ---------- bound columns ----------

  /** A value of a class type is bound to that class, and its origin says so. */
  ghost predicate Fits(resolver: Resolver, local: LocalValue, t: TypeRef, origin: IrOrigin) {
    t.arguments == [] && resolver.classAt(t.rawType).Found? ==>
      local.kind == ClassLocal(resolver.classAt(t.rawType).value) && OriginOfClass(resolver.classAt(t.rawType).value) in origin.modelOrigins
  }

  ghost predicate LocalsFit(resolver: Resolver, bound: seq<BoundColumn>) {
    forall i :: 0 <= i < |bound| ==> Fits(resolver, bound[i].local, bound[i].column.typeRef, bound[i].column.origin)
  }

  /** The expression lowers, wherever it stands, to a read of the bound column. */
  ghost predicate ReadsBound(resolver: Resolver, bindings: Bindings, x: Expr, b: BoundColumn) {
    forall site: Site ::
      var v := LowerValue(resolver, site, bindings, x.root, x.members);
      && v.Success? && v.value.ScalarValue?
      && v.value.scalar == ReadColumn(b, v.value.scalar.expression.origin)
      && forall m :: m in b.column.origin.modelOrigins ==> m in v.value.scalar.expression.origin.modelOrigins
  }

  /** Each spoken reference reads the bound column at the place its identity has in the schema. */
  ghost predicate ReferencesRead(resolver: Resolver, references: References, bindings: Bindings, schema: Schema, bound: seq<BoundColumn>) {
    |bound| == |schema| && forall id :: id in references ==>
      && Position(Ids(schema), id).Some?
      && (Spoken(references[id]) ==> ReadsBound(resolver, bindings, references[id], bound[Position(Ids(schema), id).value]))
  }

  /** The schemas describe the same columns under other identities. */
  ghost predicate SameColumns(a: Schema, b: Schema) {
    |a| == |b| && forall i :: 0 <= i < |a| ==> FactsOfColumn(a[i]) == FactsOfColumn(b[i])
  }

  lemma {:induction false} RowColumnAt(columns: seq<RowColumn>, p: nat)
    requires p < |columns| && forall k :: 0 <= k < p ==> columns[k].name != columns[p].name
    ensures RowColumnNamed(columns, columns[p].name) == Some(columns[p])
  {
    if p > 0 {
      assert columns[1..][p - 1] == columns[p];
      RowColumnAt(columns[1..], p - 1);
    }
  }

  lemma VariableReads(resolver: Resolver, bindings: Bindings, name: string, b: BoundColumn)
    requires Lookup(bindings, name) == Some(ColumnElement(b))
    ensures ReadsBound(resolver, bindings, Chain(Variable(name), []), b)
  {
    forall site: Site
      ensures var v := LowerValue(resolver, site, bindings, Variable(name), []);
              && v.Success? && v.value.ScalarValue?
              && v.value.scalar == ReadColumn(b, v.value.scalar.expression.origin)
              && forall m :: m in b.column.origin.modelOrigins ==> m in v.value.scalar.expression.origin.modelOrigins
    {
      forall m | m in b.column.origin.modelOrigins ensures m in Merged(site.Child(0).Span(), [b.column.origin], []).modelOrigins {
        MergedMembers(site.Child(0).Span(), [b.column.origin], [], m);
        assert [b.column.origin][0] == b.column.origin;
      }
    }
  }

  lemma RowMemberReads(resolver: Resolver, bindings: Bindings, name: string, local: LocalValue, columns: seq<BoundColumn>, p: nat)
    requires Lookup(bindings, name) == Some(RowElement(local, columns)) && IsRowOf(local, columns) && p < |columns|
    requires columns[p].column.name !in RESERVED
    ensures ReadsBound(resolver, bindings, Chain(Variable(name), [columns[p].column.name]), columns[p])
  {
    var member := columns[p].column.name;
    var b := columns[p];
    var rows := RowColumnsOf(columns);
    forall k | 0 <= k < p ensures rows[k].name != rows[p].name {
      assert ColumnsOf(columns)[k].name != ColumnsOf(columns)[p].name;
    }
    RowColumnAt(rows, p);
    assert [member][..0] == [];
    forall site: Site
      ensures var v := LowerValue(resolver, site, bindings, Variable(name), [member]);
              && v.Success? && v.value.ScalarValue?
              && v.value.scalar == ReadColumn(b, v.value.scalar.expression.origin)
              && forall m :: m in b.column.origin.modelOrigins ==> m in v.value.scalar.expression.origin.modelOrigins
    {
      assert LowerValue(resolver, site, bindings, Variable(name), []) == Success(RowValue(local, columns));
      var span := site.Child(1).Span();
      forall m | m in b.column.origin.modelOrigins ensures m in Merged(span, [b.column.origin], []).modelOrigins {
        MergedMembers(span, [b.column.origin], [], m);
        assert [b.column.origin][0] == b.column.origin;
      }
    }
  }

  // ---------- lowering an emitted scalar ----------

  /** The lowered scalar is the original one under other identities and origins,
      valid where it stands and bound to its class if it has one. */
  ghost predicate Replays(resolver: Resolver, lowered: LoweredScalar, to: Schema, e: Scalar, schema: Schema) {
    && (forall base :: EraseScalar(lowered.expression, Ids(to), base) == EraseScalar(e, Ids(schema), base))
    && ScalarOk(lowered.expression, to)
    && Fits(resolver, lowered.local, lowered.expression.typeRef, lowered.expression.origin)
  }

  /** What erasing keeps of a scalar. */
  lemma ErasedFacts(a: Scalar, x: seq<ColumnId>, b: Scalar, y: seq<ColumnId>, base: nat)
    requires EraseScalar(a, x, base) == EraseScalar(b, y, base)
    ensures a.typeRef == b.typeRef && a.multiplicity == b.multiplicity && a.nullability == b.nullability
    ensures a.totality.Unknown? <==> b.totality.Unknown?
  {
  }

  ghost predicate LowersTo(r: Lowering<LoweredValue>, resolver: Resolver, to: Schema, e: Scalar, schema: Schema) {
    r.Success? && r.value.ScalarValue? && Replays(resolver, r.value.scalar, to, e, schema)
  }

  lemma ColumnReplays(resolver: Resolver, site: Site, references: References, bindings: Bindings, schema: Schema, bound: seq<BoundColumn>, e: Scalar)
    requires ReferencesRead(resolver, references, bindings, schema, bound) && SameColumns(ColumnsOf(bound), schema)
    requires DistinctIds(schema) && DistinctIds(ColumnsOf(bound)) && LocalsFit(resolver, bound)
    requires ScalarOk(e, schema) && e.totality.Unknown? && e.operator.ColumnRead? && ReadsSpoken(e, references)
    ensures var x := references[e.operator.id];
            LowersTo(LowerValue(resolver, site, bindings, x.root, x.members), resolver, ColumnsOf(bound), e, schema)
  {
    hide DistinctIds, LowerValue;
    var id := e.operator.id;
    var p := Position(Ids(schema), id).value;
    var x, b := references[id], bound[p];
    FindColumnAt(schema, id);
    var v := LowerValue(resolver, site, bindings, x.root, x.members).value;
    assert ReadsBound(resolver, bindings, x, b);
    assert v.scalar == ReadColumn(b, v.scalar.expression.origin);
    assert ColumnsOf(bound)[p] == b.column && FactsOfColumn(b.column) == FactsOfColumn(schema[p]);
    DistinctPosition(ColumnsOf(bound), p);
    FindColumnAt(ColumnsOf(bound), b.column.id);
    forall base ensures EraseScalar(v.scalar.expression, Ids(ColumnsOf(bound)), base) == EraseScalar(e, Ids(schema), base) {
    }
  }

  lemma LiteralReplays(resolver: Resolver, site: Site, bindings: Bindings, to: Schema, e: Scalar, schema: Schema)
    requires Ordinary(resolver) && ScalarOk(e, schema) && e.totality.Unknown? && e.operator.Literal? && !e.operator.literal.NullLiteral? && ScalarMade(e)
    ensures var x := EmitLiteral(e.operator.literal).value;
            LowersTo(LowerValue(resolver, site, bindings, x.root, x.members), resolver, to, e, schema)
  {
  }

  lemma NavigationReplays(resolver: Resolver, span: SourceSpan, lowered: LoweredScalar, to: Schema, e: Scalar, schema: Schema)
    requires Ordinary(resolver) && e.operator.Navigation? && ScalarOk(e, schema) && e.totality.Unknown? && ScalarAnswered(resolver, e)
    requires Replays(resolver, lowered, to, e.operator.input, schema) && e.operator.navigation.member.name !in RESERVED
    ensures LowersTo(AsValue(LowerNavigation(resolver, span, lowered, e.operator.navigation.member.name)), resolver, to, e, schema)
  {
    hide EraseScalar, Merged, ComposeNavigationMultiplicity, ScalarAnswered;
    var input, member := e.operator.input, e.operator.navigation.member;
    NavigationAnswered(resolver, e);
    NavigationChecked(e, schema);
    ErasedFacts(lowered.expression, Ids(to), input, Ids(schema), 0);
    var c := resolver.classAt(input.typeRef.rawType).value;
    var m := resolver.memberAt(input.typeRef.rawType, member.name).value;
    assert m.name == member.name && m.kind == member.kind && m.multiplicity == member.multiplicity && m.target == member.target;
    assert lowered.local.kind == ClassLocal(c) && c.path == input.typeRef.rawType;
    var r := LowerNavigation(resolver, span, lowered, member.name);
    assert r.Success?;
    var ls := r.value;
    LoweredNavigationOk(resolver, span, lowered, to, member.name, c, m);
    LoweredNavigationFits(resolver, span, lowered, member.name);
    forall base ensures EraseScalar(ls.expression, Ids(to), base) == EraseScalar(e, Ids(schema), base) {
      NavigationErases(ls.expression, Ids(to), e, Ids(schema), base);
    }
  }

  lemma NavigationAnswered(resolver: Resolver, e: Scalar)
    requires e.operator.Navigation? && ScalarAnswered(resolver, e)
    ensures var t, member := e.operator.input.typeRef.rawType, e.operator.navigation.member;
            && ScalarAnswered(resolver, e.operator.input) && IsNavigable(member)
            && resolver.classAt(t).Found? && resolver.memberAt(t, member.name).Found?
            && EraseMember(resolver.memberAt(t, member.name).value) == EraseMember(member)
  {
  }

  lemma NavigationChecked(e: Scalar, schema: Schema)
    requires e.operator.Navigation? && ScalarOk(e, schema)
    ensures var input, member := e.operator.input, e.operator.navigation.member;
            && ScalarOk(input, schema) && input.typeRef.arguments == []
            && e.typeRef == member.target && e.nullability == NullabilityUnknown
            && ComposeNavigationMultiplicity(input.multiplicity, member.multiplicity) == Some(e.multiplicity)
  {
  }

  lemma NavigationErases(a: Scalar, x: seq<ColumnId>, b: Scalar, y: seq<ColumnId>, base: nat)
    requires a.operator.Navigation? && b.operator.Navigation?
    requires EraseScalar(a.operator.input, x, base) == EraseScalar(b.operator.input, y, base)
    requires EraseMember(a.operator.navigation.member) == EraseMember(b.operator.navigation.member)
    requires a.typeRef == b.typeRef && a.multiplicity == b.multiplicity && a.nullability == b.nullability
    requires a.totality.Unknown? && b.totality.Unknown?
    ensures EraseScalar(a, x, base) == EraseScalar(b, y, base)
  {
  }

  lemma LoweredNavigationOk(resolver: Resolver, span: SourceSpan, lowered: LoweredScalar, to: Schema, name: string, c: ResolvedClass, m: ResolvedMember)
    requires LowerNavigation(resolver, span, lowered, name).Success? && ScalarOk(lowered.expression, to)
    requires lowered.local.kind == ClassLocal(c) && resolver.memberAt(c.path, name) == Found(m)
    requires lowered.expression.typeRef == TypeRef(c.path, []) && OriginOfClass(c) in lowered.expression.origin.modelOrigins
    ensures ScalarOk(LowerNavigation(resolver, span, lowered, name).value.expression, to)
    ensures LowerNavigation(resolver, span, lowered, name).value.expression.operator.Navigation?
    ensures LowerNavigation(resolver, span, lowered, name).value.expression.operator.navigation.member == m
  {
    hide ComposeNavigationMultiplicity, Merged;
    var e := LowerNavigation(resolver, span, lowered, name).value.expression;
    var local := InferTarget(resolver, m.target, m.multiplicity);
    var models := [OriginOfMember(m)] + if local.kind.ClassLocal? then [OriginOfClass(local.kind.cls)] else [];
    assert models[0] == OriginOfMember(m);
    MergedMembers(span, [lowered.expression.origin], models, OriginOfMember(m));
  }

  lemma LoweredNavigationFits(resolver: Resolver, span: SourceSpan, lowered: LoweredScalar, name: string)
    requires LowerNavigation(resolver, span, lowered, name).Success?
    ensures var ls := LowerNavigation(resolver, span, lowered, name).value;
            Fits(resolver, ls.local, ls.expression.typeRef, ls.expression.origin)
  {
    hide ComposeNavigationMultiplicity, Merged;
    var ls := LowerNavigation(resolver, span, lowered, name).value;
    var m := ls.expression.operator.navigation.member;
    if resolver.classAt(m.target.rawType).Found? {
      var c := resolver.classAt(m.target.rawType).value;
      var models := [OriginOfMember(m)] + [OriginOfClass(c)];
      assert models[1] == OriginOfClass(c);
      MergedMembers(span, [lowered.expression.origin], models, OriginOfClass(c));
    }
  }

  lemma ComparisonReplays(resolver: Resolver, span: SourceSpan, l: LoweredScalar, r: LoweredScalar, to: Schema, e: Scalar, schema: Schema)
    requires Ordinary(resolver) && e.operator.Equal? && ScalarOk(e, schema) && ScalarMade(e)
    requires Replays(resolver, l, to, e.operator.left, schema) && Replays(resolver, r, to, e.operator.right, schema)
    ensures LowersTo(AsValue(LowerComparison(span, l, r, false)), resolver, to, e, schema)
  {
    hide EraseScalar, Merged;
    ErasedFacts(l.expression, Ids(to), e.operator.left, Ids(schema), 0);
    ErasedFacts(r.expression, Ids(to), e.operator.right, Ids(schema), 0);
    EqualityChecked(e, schema);
    var ls := LowerComparison(span, l, r, false).value;
    forall base ensures EraseScalar(ls.expression, Ids(to), base) == EraseScalar(e, Ids(schema), base) {
      EqualityErases(ls.expression, Ids(to), e, Ids(schema), base);
    }
  }

  lemma EqualityChecked(e: Scalar, schema: Schema)
    requires e.operator.Equal? && ScalarOk(e, schema)
    ensures ScalarOk(e.operator.left, schema) && ScalarOk(e.operator.right, schema) && e.operator.left.typeRef == e.operator.right.typeRef
    ensures e.typeRef == TypeRef(BOOLEAN_TYPE, []) && e.multiplicity == EXACTLY_ONE && e.nullability == NonNullable
  {
  }

  lemma EqualityErases(a: Scalar, x: seq<ColumnId>, b: Scalar, y: seq<ColumnId>, base: nat)
    requires a.operator.Equal? && b.operator.Equal?
    requires EraseScalar(a.operator.left, x, base) == EraseScalar(b.operator.left, y, base)
    requires EraseScalar(a.operator.right, x, base) == EraseScalar(b.operator.right, y, base)
    requires a.typeRef == b.typeRef && a.multiplicity == b.multiplicity && a.nullability == b.nullability
    requires a.totality.Unknown? && b.totality.Unknown?
    ensures EraseScalar(a, x, base) == EraseScalar(b, y, base)
  {
  }

  lemma NegationReplays(resolver: Resolver, span: SourceSpan, l: LoweredScalar, r: LoweredScalar, to: Schema, e: Scalar, schema: Schema)
    requires Ordinary(resolver) && e.operator.Not? && e.operator.input.operator.Equal? && ScalarOk(e, schema) && ScalarMade(e)
    requires Replays(resolver, l, to, e.operator.input.operator.left, schema) && Replays(resolver, r, to, e.operator.input.operator.right, schema)
    ensures LowersTo(AsValue(LowerComparison(span, l, r, true)), resolver, to, e, schema)
  {
    hide EraseScalar, Merged;
    var equal := e.operator.input;
    NegationChecked(e, schema);
    ComparisonReplays(resolver, span, l, r, to, equal, schema);
    var inner := LowerComparison(span, l, r, false).value;
    var ls := LowerComparison(span, l, r, true).value;
    assert ls.expression.operator == Not(inner.expression);
    forall base ensures EraseScalar(ls.expression, Ids(to), base) == EraseScalar(e, Ids(schema), base) {
      NegationErases(ls.expression, Ids(to), e, Ids(schema), base);
    }
  }

  lemma NegationChecked(e: Scalar, schema: Schema)
    requires e.operator.Not? && ScalarOk(e, schema)
    ensures ScalarOk(e.operator.input, schema)
    ensures e.typeRef == TypeRef(BOOLEAN_TYPE, []) && e.multiplicity == EXACTLY_ONE && e.nullability == NonNullable
  {
  }

  lemma NegationErases(a: Scalar, x: seq<ColumnId>, b: Scalar, y: seq<ColumnId>, base: nat)
    requires a.operator.Not? && b.operator.Not?
    requires EraseScalar(a.operator.input, x, base) == EraseScalar(b.operator.input, y, base)
    requires a.typeRef == b.typeRef && a.multiplicity == b.multiplicity && a.nullability == b.nullability
    requires a.totality.Unknown? && b.totality.Unknown?
    ensures EraseScalar(a, x, base) == EraseScalar(b, y, base)
  {
  }

  /** One more property lowers by one more navigation. */
  lemma MemberLowers(resolver: Resolver, site: Site, bindings: Bindings, x: Expr, name: string)
    requires LowerValue(resolver, site, bindings, x.root, x.members).Success?
    requires LowerValue(resolver, site, bindings, x.root, x.members).value.ScalarValue?
    ensures LowerValue(resolver, site, bindings, x.root, x.members + [name]) ==
            AsValue(LowerNavigation(resolver, site.Child(|x.members| + 1).Span(), LowerValue(resolver, site, bindings, x.root, x.members).value.scalar, name))
  {
    var members := x.members + [name];
    assert members[..|members| - 1] == x.members;
  }

  lemma EqualLowers(resolver: Resolver, site: Site, bindings: Bindings, x: Expr, y: Expr)
    ensures LowerValue(resolver, site, bindings, EqualRoot(x, y), []) ==
            LowerBinary(site.Child(0).Span(), LowerValue(resolver, site.Child(0).Child(0), bindings, x.root, x.members),
                        LowerValue(resolver, site.Child(0).Child(1), bindings, y.root, y.members), false)
  {
    hide LowerBinary, Lookup, ReadColumn, LiteralScalar;
  }

  lemma NotEqualLowers(resolver: Resolver, site: Site, bindings: Bindings, x: Expr, y: Expr)
    ensures LowerValue(resolver, site, bindings, NotEqualRoot(x, y), []) ==
            LowerBinary(site.Child(0).Span(), LowerValue(resolver, site.Child(0).Child(0), bindings, x.root, x.members),
                        LowerValue(resolver, site.Child(0).Child(1), bindings, y.root, y.members), true)
  {
    hide LowerBinary, Lookup, ReadColumn, LiteralScalar;
  }

  lemma ComparisonLowers(resolver: Resolver, site: Site, bindings: Bindings, x: Expr, y: Expr)
    requires var l := LowerValue(resolver, site.Child(0).Child(0), bindings, x.root, x.members); l.Success? && l.value.ScalarValue?
    requires var r := LowerValue(resolver, site.Child(0).Child(1), bindings, y.root, y.members); r.Success? && r.value.ScalarValue?
    ensures var l := LowerValue(resolver, site.Child(0).Child(0), bindings, x.root, x.members).value.scalar;
            var r := LowerValue(resolver, site.Child(0).Child(1), bindings, y.root, y.members).value.scalar;
            && LowerValue(resolver, site, bindings, EqualRoot(x, y), []) == AsValue(LowerComparison(site.Child(0).Span(), l, r, false))
            && LowerValue(resolver, site, bindings, NotEqualRoot(x, y), []) == AsValue(LowerComparison(site.Child(0).Span(), l, r, true))
  {
    hide LowerComparison, LowerValue;
    EqualLowers(resolver, site, bindings, x, y);
    NotEqualLowers(resolver, site, bindings, x, y);
  }

  /** An emitted scalar lowers back to the scalar it was emitted from. */
  lemma {:induction false} ScalarReplays(resolver: Resolver, site: Site, references: References, bindings: Bindings, schema: Schema,
                                         bound: seq<BoundColumn>, e: Scalar, depth: nat)
    requires Ordinary(resolver) && ReferencesRead(resolver, references, bindings, schema, bound) && SameColumns(ColumnsOf(bound), schema)
    requires DistinctIds(schema) && DistinctIds(ColumnsOf(bound)) && LocalsFit(resolver, bound)
    requires ScalarOk(e, schema) && ScalarMade(e) && ScalarAnswered(resolver, e) && EmitScalar(e, references, depth).Success?
    requires ReadsSpoken(e, references)
    ensures var x := EmitScalar(e, references, depth).value;
            LowersTo(LowerValue(resolver, site, bindings, x.root, x.members), resolver, ColumnsOf(bound), e, schema)
    decreases e, 1
  {
    hide ReferencesRead, DistinctIds, LowersTo, LowerNavigation, LowerComparison, LowerValue, Replays, LocalsFit, SameColumns, ScalarError, Ordinary;
    var to := ColumnsOf(bound);
    match e.operator
    case ColumnRead(_) => ColumnReplays(resolver, site, references, bindings, schema, bound, e);
    case Literal(_) => LiteralReplays(resolver, site, bindings, to, e, schema);
    case Navigation(input, navigation) =>
      NavigationChecked(e, schema);
      ScalarReplays(resolver, site, references, bindings, schema, bound, input, depth + 1);
      var x := EmitScalar(input, references, depth + 1).value;
      var inner := LowerValue(resolver, site, bindings, x.root, x.members);
      ScalarOf(inner, resolver, to, input, schema);
      MemberLowers(resolver, site, bindings, x, navigation.member.name);
      NavigationReplays(resolver, site.Child(|x.members| + 1).Span(), inner.value.scalar, to, e, schema);
    case Equal(left, right) =>
      EqualityChecked(e, schema);
      OperandsReplay(resolver, site, references, bindings, schema, bound, e, depth + 1);
      var x, y := EmitScalar(left, references, depth + 1).value, EmitScalar(right, references, depth + 1).value;
      var node := site.Child(0);
      ComparisonLowers(resolver, site, bindings, x, y);
      ComparisonReplays(resolver, node.Span(), LowerValue(resolver, node.Child(0), bindings, x.root, x.members).value.scalar,
                        LowerValue(resolver, node.Child(1), bindings, y.root, y.members).value.scalar, to, e, schema);
    case Not(input) =>
      NegationChecked(e, schema);
      EqualityChecked(input, schema);
      OperandsReplay(resolver, site, references, bindings, schema, bound, input, depth + 1);
      var x, y := EmitScalar(input.operator.left, references, depth + 1).value, EmitScalar(input.operator.right, references, depth + 1).value;
      var node := site.Child(0);
      ComparisonLowers(resolver, site, bindings, x, y);
      NegationReplays(resolver, node.Span(), LowerValue(resolver, node.Child(0), bindings, x.root, x.members).value.scalar,
                      LowerValue(resolver, node.Child(1), bindings, y.root, y.members).value.scalar, to, e, schema);
  }

  lemma ScalarOf(r: Lowering<LoweredValue>, resolver: Resolver, to: Schema, e: Scalar, schema: Schema)
    requires LowersTo(r, resolver, to, e, schema)
    ensures r.Success? && r.value.ScalarValue? && Replays(resolver, r.value.scalar, to, e, schema)
  {
  }

  lemma {:induction false} OperandsReplay(resolver: Resolver, site: Site, references: References, bindings: Bindings, schema: Schema,
                                          bound: seq<BoundColumn>, e: Scalar, depth: nat)
    requires Ordinary(resolver) && ReferencesRead(resolver, references, bindings, schema, bound) && SameColumns(ColumnsOf(bound), schema)
    requires DistinctIds(schema) && DistinctIds(ColumnsOf(bound)) && LocalsFit(resolver, bound)
    requires e.operator.Equal? && ScalarOk(e.operator.left, schema) && ScalarOk(e.operator.right, schema)
    requires ScalarMade(e.operator.left) && ScalarAnswered(resolver, e.operator.left) && EmitScalar(e.operator.left, references, depth).Success?
    requires ScalarMade(e.operator.right) && ScalarAnswered(resolver, e.operator.right) && EmitScalar(e.operator.right, references, depth).Success?
    requires ReadsSpoken(e.operator.left, references) && ReadsSpoken(e.operator.right, references)
    ensures var x, y := EmitScalar(e.operator.left, references, depth).value, EmitScalar(e.operator.right, references, depth).value;
            var l := LowerValue(resolver, site.Child(0).Child(0), bindings, x.root, x.members);
            var r := LowerValue(resolver, site.Child(0).Child(1), bindings, y.root, y.members);
            && l.Success? && l.value.ScalarValue? && Replays(resolver, l.value.scalar, ColumnsOf(bound), e.operator.left, schema)
            && r.Success? && r.value.ScalarValue? && Replays(resolver, r.value.scalar, ColumnsOf(bound), e.operator.right, schema)
    decreases e, 0
  {
    hide ReferencesRead, DistinctIds, LowersTo, Replays, LocalsFit, SameColumns, ScalarError, EmitScalar, LowerValue, ScalarMade, ScalarAnswered;
    var left, right := e.operator.left, e.operator.right;
    var x, y := EmitScalar(left, references, depth).value, EmitScalar(right, references, depth).value;
    ScalarReplays(resolver, site.Child(0).Child(0), references, bindings, schema, bound, left, depth);
    ScalarOf(LowerValue(resolver, site.Child(0).Child(0), bindings, x.root, x.members), resolver, ColumnsOf(bound), left, schema);
    ScalarReplays(resolver, site.Child(0).Child(1), references, bindings, schema, bound, right, depth);
    ScalarOf(LowerValue(resolver, site.Child(0).Child(1), bindings, y.root, y.members), resolver, ColumnsOf(bound), right, schema);
  }

  // ---------- and only such scalars do ----------

  lemma LoweredIsUnknown(resolver: Resolver, site: Site, bindings: Bindings, root: Root, members: seq<string>)
    requires LowerValue(resolver, site, bindings, root, members).Success?
    requires LowerValue(resolver, site, bindings, root, members).value.ScalarValue?
    ensures LowerValue(resolver, site, bindings, root, members).value.scalar.expression.totality.Unknown?
  {
    hide Lookup, Merged, Navigate;
  }

  /** An emitted scalar never lowers to a bare row. */
  lemma {:induction false} EmittedIsScalar(resolver: Resolver, site: Site, references: References, bindings: Bindings, schema: Schema,
                                           bound: seq<BoundColumn>, e: Scalar, depth: nat)
    requires ReferencesRead(resolver, references, bindings, schema, bound) && EmitScalar(e, references, depth).Success?
    requires var x := EmitScalar(e, references, depth).value; LowerValue(resolver, site, bindings, x.root, x.members).Success?
    ensures var x := EmitScalar(e, references, depth).value; LowerValue(resolver, site, bindings, x.root, x.members).value.ScalarValue?
  {
    hide Merged, Lookup, LowerNavigation, LowerRelationColumn, LowerComparison, ReadColumn, Position;
    if e.operator.ColumnRead? && references[e.operator.id].members == [] {
      var id := e.operator.id;
      assert Spoken(references[id]);
      assert ReadsBound(resolver, bindings, references[id], bound[Position(Ids(schema), id).value]);
    }
  }

  lemma MemberFailsWithInput(resolver: Resolver, site: Site, bindings: Bindings, x: Expr, name: string)
    requires LowerValue(resolver, site, bindings, x.root, x.members + [name]).Success?
    ensures LowerValue(resolver, site, bindings, x.root, x.members).Success?
  {
    var members := x.members + [name];
    assert members[..|members| - 1] == x.members;
  }

  lemma OperandsLower(span: SourceSpan, l: Lowering<LoweredValue>, r: Lowering<LoweredValue>, negated: bool)
    requires LowerBinary(span, l, r, negated).Success?
    ensures l.Success? && l.value.ScalarValue? && r.Success? && r.value.ScalarValue?
    ensures LowerBinary(span, l, r, negated) == AsValue(LowerComparison(span, l.value.scalar, r.value.scalar, negated))
    ensures l.value.scalar.expression.multiplicity == EXACTLY_ONE && r.value.scalar.expression.multiplicity == EXACTLY_ONE
    ensures var e := LowerBinary(span, l, r, negated).value.scalar.expression;
            var equal := if negated then e.operator.input else e;
            && (negated ==> e.operator.Not? && equal.totality.Unknown?)
            && equal.operator == ScalarOperator.Equal(l.value.scalar.expression, r.value.scalar.expression)
  {
    hide Merged;
  }

  /** Only spoken properties lower. */
  lemma {:induction false} LoweredIsSpoken(resolver: Resolver, site: Site, bindings: Bindings, root: Root, members: seq<string>)
    requires LowerValue(resolver, site, bindings, root, members).Success?
    ensures forall m :: m in members ==> m !in RESERVED
    decreases |members|
  {
    hide Merged, Lookup, LowerBinary, LiteralScalar, Navigate, ComposeNavigationMultiplicity;
    if members != [] {
      LoweredIsSpoken(resolver, site, bindings, root, members[..|members| - 1]);
      assert members == members[..|members| - 1] + [members[|members| - 1]];
    }
  }

  lemma LoweredLiteral(resolver: Resolver, site: Site, bindings: Bindings, i: i64)
    requires LowerValue(resolver, site, bindings, IntegerRoot(i), []).Success?
    ensures i >= 0
  {
  }

  /** Whatever an emitted scalar lowers to, if that is the scalar again, then the
      scalar is one lowering makes, and refers to columns by spoken names. */
  lemma {:induction false} ReplayedScalarIsMade(resolver: Resolver, site: Site, references: References, bindings: Bindings, schema: Schema,
                                                bound: seq<BoundColumn>, e: Scalar, depth: nat, to: seq<ColumnId>, base: nat)
    requires ReferencesRead(resolver, references, bindings, schema, bound) && EmitScalar(e, references, depth).Success?
    requires var x := EmitScalar(e, references, depth).value;
             var r := LowerValue(resolver, site, bindings, x.root, x.members);
             r.Success? && r.value.ScalarValue? && EraseScalar(r.value.scalar.expression, to, base) == EraseScalar(e, Ids(schema), base)
    ensures ScalarMade(e) && ReadsSpoken(e, references)
    decreases e
  {
    hide ReferencesRead, LowerValue, LowerBinary, LowerComparison, Merged, LowerNavigation;
    var x := EmitScalar(e, references, depth).value;
    var ls := LowerValue(resolver, site, bindings, x.root, x.members).value.scalar;
    LoweredIsUnknown(resolver, site, bindings, x.root, x.members);
    ErasedFacts(ls.expression, to, e, Ids(schema), base);
    LoweredIsSpoken(resolver, site, bindings, x.root, x.members);
    match e.operator
    case ColumnRead(_) =>
    case Literal(l) =>
      if l.IntegerLiteral? {
        LoweredLiteral(resolver, site, bindings, l.i);
      }
    case Navigation(input, navigation) =>
      var y, name := EmitScalar(input, references, depth + 1).value, navigation.member.name;
      MemberFailsWithInput(resolver, site, bindings, y, name);
      EmittedIsScalar(resolver, site, references, bindings, schema, bound, input, depth + 1);
      MemberLowers(resolver, site, bindings, y, name);
      var inner := LowerValue(resolver, site, bindings, y.root, y.members).value.scalar;
      NavigationKeepsInput(resolver, site.Child(|y.members| + 1).Span(), inner, name);
      ReplayedScalarIsMade(resolver, site, references, bindings, schema, bound, input, depth + 1, to, base);
    case Equal(left, right) =>
      var y, z := EmitScalar(left, references, depth + 1).value, EmitScalar(right, references, depth + 1).value;
      var l := LowerValue(resolver, site.Child(0).Child(0), bindings, y.root, y.members);
      var r := LowerValue(resolver, site.Child(0).Child(1), bindings, z.root, z.members);
      EqualLowers(resolver, site, bindings, y, z);
      OperandsLower(site.Child(0).Span(), l, r, false);
      ReplayedScalarIsMade(resolver, site.Child(0).Child(0), references, bindings, schema, bound, left, depth + 1, to, base);
      ReplayedScalarIsMade(resolver, site.Child(0).Child(1), references, bindings, schema, bound, right, depth + 1, to, base);
      ErasedFacts(l.value.scalar.expression, to, left, Ids(schema), base);
      ErasedFacts(r.value.scalar.expression, to, right, Ids(schema), base);
    case Not(input) =>
      var left, right := input.operator.left, input.operator.right;
      var y, z := EmitScalar(left, references, depth + 1).value, EmitScalar(right, references, depth + 1).value;
      var l := LowerValue(resolver, site.Child(0).Child(0), bindings, y.root, y.members);
      var r := LowerValue(resolver, site.Child(0).Child(1), bindings, z.root, z.members);
      NotEqualLowers(resolver, site, bindings, y, z);
      OperandsLower(site.Child(0).Span(), l, r, true);
      ErasedFacts(ls.expression.operator.input, to, input, Ids(schema), base);
      ReplayedScalarIsMade(resolver, site.Child(0).Child(0), references, bindings, schema, bound, left, depth + 1, to, base);
      ReplayedScalarIsMade(resolver, site.Child(0).Child(1), references, bindings, schema, bound, right, depth + 1, to, base);
      ErasedFacts(l.value.scalar.expression, to, left, Ids(schema), base);
      ErasedFacts(r.value.scalar.expression, to, right, Ids(schema), base);
  }
}
