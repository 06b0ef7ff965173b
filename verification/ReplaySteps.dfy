/** Lowering each emitted step again over a state that mirrors its input. */
module ReplaySteps {
  import opened Basics
  import opened Relational
  import opened Semantics
  import opened Keys
  import opened Surface
  import opened Canonical
  import opened Emission
  import opened Lowering
  import opened LoweringInvariant
  import opened LoweringMeaning
  import opened ReplayScalars
  import opened Replay

  function BoundOf(element: BoundElement): seq<BoundColumn> {
    match element
    case ColumnElement(b) => [b]
    case RowElement(_, columns) => columns
  }

  /** The state holds the relation again, under other identities and origins. */
  ghost predicate Mirrors(resolver: Resolver, s: RelationState, r: Relation) {
    Alike(s.expression, r) && (s.element.Some? ==> LocalsFit(resolver, BoundOf(s.element.value)))
  }

  lemma MirrorParts(resolver: Resolver, s: RelationState, r: Relation)
    requires Mirrors(resolver, s, r) && Valid(s.expression) && Valid(r)
    ensures SameColumns(s.expression.schema, r.schema)
    ensures forall base :: Erase(s.expression, base) == Erase(r, base)
  {
    hide Valid, Erase, SameColumns;
    AlikeParts(s.expression, r);
  }

  // ---------- lambda bodies ----------

  lemma BindingReads(resolver: Resolver, s: RelationState, source: Relation, binder: string, from: nat, next: nat)
    requires Valid(source) && Accepted(s, from, next) && Mirrors(resolver, s, source)
    requires ReferencesFor(ElementBinding(s.element), source.schema, binder).Some?
    ensures s.element.Some? && ColumnsOf(BoundOf(s.element.value)) == s.expression.schema
    ensures ReferencesRead(resolver, ReferencesFor(ElementBinding(s.element), source.schema, binder).value,
                           [(binder, s.element.value)], source.schema, BoundOf(s.element.value))
  {
    hide ReadsBound, Position, ColumnAt, Valid, Alike, DistinctIds;
    MirrorParts(resolver, s, source);
    ValidUnfolds(source);
    var references := ReferencesFor(ElementBinding(s.element), source.schema, binder).value;
    var bindings := [(binder, s.element.value)];
    var bound := BoundOf(s.element.value);
    forall id | id in references
      ensures Position(Ids(source.schema), id).Some?
      ensures Spoken(references[id]) ==> ReadsBound(resolver, bindings, references[id], bound[Position(Ids(source.schema), id).value])
    {
      if s.element.value.ColumnElement? {
        FirstPosition(source.schema);
        VariableReads(resolver, bindings, binder, bound[0]);
      } else {
        ColumnAtPosition(source.schema, id);
        var p := Position(Ids(source.schema), id).value;
        assert FactsOfColumn(s.expression.schema[p]) == FactsOfColumn(source.schema[p]);
        assert ColumnsOf(bound)[p] == bound[p].column;
        if Spoken(references[id]) {
          assert source.schema[p].name in references[id].members;
          RowMemberReads(resolver, bindings, binder, s.element.value.local, bound, p);
        }
      }
    }
  }

  /** The body's references, with everything lowering it again relies on. */
  ghost predicate BodyReady(resolver: Resolver, s: RelationState, source: Relation, from: nat, next: nat) {
    Ordinary(resolver) && Valid(source) && Accepted(s, from, next) && Mirrors(resolver, s, source)
  }

  lemma BodyReplays(resolver: Resolver, site: Site, s: RelationState, source: Relation, binder: string, e: Scalar, depth: nat, from: nat, next: nat)
    requires BodyReady(resolver, s, source, from, next)
    requires ReferencesFor(ElementBinding(s.element), source.schema, binder).Some?
    requires ScalarOk(e, source.schema) && ScalarMade(e) && ScalarAnswered(resolver, e)
    requires ReadsPlainly(e, ElementBinding(s.element), source.schema)
    requires EmitScalar(e, ReferencesFor(ElementBinding(s.element), source.schema, binder).value, depth).Success?
    ensures s.element.Some?
    ensures var x := EmitScalar(e, ReferencesFor(ElementBinding(s.element), source.schema, binder).value, depth).value;
            var r := LowerScalar(resolver, site, [(binder, s.element.value)], x);
            r.Success? && Replays(resolver, r.value, s.expression.schema, e, source.schema)
  {
    hide ReferencesRead, ReferencesFor, LowerValue, EmitScalar, Replays, ScalarError, ScalarMade, ScalarAnswered, DistinctIds, SameColumns, LocalsFit, Valid, Alike;
    BindingReads(resolver, s, source, binder, from, next);
    MirrorParts(resolver, s, source);
    ValidUnfolds(source);
    ValidUnfolds(s.expression);
    PlainReadsAreSpoken(e, ElementBinding(s.element), source.schema, binder, depth);
    ScalarReplays(resolver, site, ReferencesFor(ElementBinding(s.element), source.schema, binder).value, [(binder, s.element.value)],
                  source.schema, BoundOf(s.element.value), e, depth);
  }

  /** A body that lowers back to itself is one lowering makes. */
  lemma BodyIsMade(resolver: Resolver, site: Site, s: RelationState, source: Relation, binder: string, e: Scalar, depth: nat, base: nat,
                   from: nat, next: nat)
    requires BodyReady(resolver, s, source, from, next)
    requires ReferencesFor(ElementBinding(s.element), source.schema, binder).Some? && s.element.Some?
    requires EmitScalar(e, ReferencesFor(ElementBinding(s.element), source.schema, binder).value, depth).Success?
    requires var x := EmitScalar(e, ReferencesFor(ElementBinding(s.element), source.schema, binder).value, depth).value;
             var r := LowerScalar(resolver, site, [(binder, s.element.value)], x);
             r.Success? && EraseScalar(r.value.expression, Ids(s.expression.schema), base) == EraseScalar(e, Ids(source.schema), base)
    ensures ScalarMade(e) && ReadsPlainly(e, ElementBinding(s.element), source.schema)
  {
    hide ReferencesRead, ReferencesFor, LowerValue, EmitScalar, EraseScalar, ScalarMade, Valid, Alike, ReadsPlainly, DistinctIds;
    BindingReads(resolver, s, source, binder, from, next);
    ValidUnfolds(source);
    PlainReadsAreSpoken(e, ElementBinding(s.element), source.schema, binder, depth);
    ReplayedScalarIsMade(resolver, site, ReferencesFor(ElementBinding(s.element), source.schema, binder).value, [(binder, s.element.value)],
                         source.schema, BoundOf(s.element.value), e, depth, Ids(s.expression.schema), base);
  }

  // ---------- filter ----------

  lemma ReplayedPredicate(resolver: Resolver, lowered: LoweredScalar, to: Schema, e: Scalar, schema: Schema)
    requires Replays(resolver, lowered, to, e, schema) && PredicateOk(e, schema)
    ensures PredicateOk(lowered.expression, to)
  {
    hide EraseScalar, ScalarError;
    ErasedFacts(lowered.expression, Ids(to), e, Ids(schema), 0);
  }

  lemma FilterReplays(resolver: Resolver, site: Site, s: RelationState, r: Relation, source: Relation, condition: Scalar, em: Emitted, depth: nat,
                      from: nat, next: nat)
    requires BodyReady(resolver, s, source, from, next) && Valid(r) && r.operator == Filter(source, condition)
    requires em.binding == ElementBinding(s.element) && EmitFilter(r, source, condition, em, depth).Success?
    requires ScalarMade(condition) && ScalarAnswered(resolver, condition) && ReadsPlainly(condition, em.binding, source.schema)
    ensures var steps := EmitFilter(r, source, condition, em, depth).value.query.steps;
            var step := steps[|steps| - 1];
            step.FilterStep? && var t := LowerFilter(resolver, site, s, step.parameter, step.body);
                                t.Success? && Valid(t.value.expression) && Mirrors(resolver, t.value, r)
  {
    hide EmitScalar, ReferencesFor, ScalarError, ScalarMade, ScalarAnswered, Replays, LowerScalar, Merged, Erase, EraseScalar, Binder, LocalsFit, DistinctIds, IsBoolean,
         ElementFits, IdsWithin;
    var binder := Binder(em.nextBinder);
    var references := ReferencesFor(em.binding, source.schema, binder).value;
    var x := EmitScalar(condition, references, depth).value;
    BodyReplays(resolver, site.Child(0), s, source, binder, condition, depth, from, next);
    var c := LowerScalar(resolver, site.Child(0), [(binder, s.element.value)], x).value;
    ReplayedPredicate(resolver, c, s.expression.schema, condition, source.schema);
    var t := LowerFilter(resolver, site, s, binder, x).value;
    FilterAccepted(resolver, site, s, binder, x, from, next);
    forall base ensures Erase(t.expression, base) == Erase(r, base) {
      ReplayedErases(resolver, c, s.expression.schema, condition, source.schema, base);
      FactsMatchSelf(s.expression.facts);
      FilterErases(t.expression, r, base);
    }
  }

  lemma ReplayedErases(resolver: Resolver, lowered: LoweredScalar, to: Schema, e: Scalar, schema: Schema, base: nat)
    requires Replays(resolver, lowered, to, e, schema)
    ensures EraseScalar(lowered.expression, Ids(to), base) == EraseScalar(e, Ids(schema), base)
    ensures ScalarOk(lowered.expression, to) && Fits(resolver, lowered.local, lowered.expression.typeRef, lowered.expression.origin)
    ensures lowered.expression.typeRef == e.typeRef && lowered.expression.multiplicity == e.multiplicity
    ensures lowered.expression.nullability == e.nullability
  {
    ErasedFacts(lowered.expression, Ids(to), e, Ids(schema), base);
  }

  lemma FactsMatchSelf(f: Facts)
    ensures f.Matches(f)
  {
  }

  // ---------- scan ----------

  lemma ScanReplays(resolver: Resolver, span: SourceSpan, r: Relation, c: ResolvedClass, binder: nat, next: u32)
    requires Ordinary(resolver) && Valid(r) && r.operator == Scan(c) && Answered(resolver, r)
    requires EmitScan(r, c, binder).Success? && CanAllocate(next)
    ensures var t := LowerAll(resolver, span, c.path, next);
            t.Success? && t.value.next == next + 1 && Mirrors(resolver, t.value.state, r)
  {
    hide Position, EraseClass;
    var found := resolver.classAt(c.path).value;
    var t := LowerAll(resolver, span, c.path, next).value.state;
    ColumnIsExtent(r, c);
    assert t.expression.schema[0] == ExtentColumn(span, found, next);
    assert FactsOfColumn(t.expression.schema[0]) == FactsOfColumn(r.schema[0]);
    forall base ensures Erase(t.expression, base) == Erase(r, base) {
      ColumnsErase(t.expression.schema, r.schema, base);
    }
    assert [OriginOfClass(found)][0] == OriginOfClass(found);
  }

  lemma ColumnIsExtent(r: Relation, c: ResolvedClass)
    requires ScanSchemaMatches(r.schema, c.path)
    ensures |r.schema| == 1
    ensures FactsOfColumn(r.schema[0]) == ColumnFacts(SimpleName(c.path), TypeRef(c.path, []), EXACTLY_ONE, NullabilityUnknown)
  {
  }

  // ---------- map ----------

  lemma MapReplays(resolver: Resolver, site: Site, s: RelationState, r: Relation, source: Relation, ps: seq<Projection>, em: Emitted, depth: nat,
                   from: nat, next: u32)
    requires BodyReady(resolver, s, source, from, next) && Valid(r) && r.operator == Project(source, ps, ScalarProjection) && |r.schema| == |ps|
    requires em.binding == ElementBinding(s.element) && EmitMap(r, source, ps, em, depth).Success? && r.facts.AreUnknown()
    requires ScalarMade(ps[0].expression) && ScalarAnswered(resolver, ps[0].expression) && ReadsPlainly(ps[0].expression, em.binding, source.schema)
    requires r.schema[0].name == MAP_VALUE_COLUMN_NAME && CanAllocate(next) && from <= next
    ensures var steps := EmitMap(r, source, ps, em, depth).value.query.steps;
            var step := steps[|steps| - 1];
            step.MapStep? && var t := LowerMap(resolver, site, s, step.parameter, step.body, next);
                             t.Success? && t.value.next == next + 1 && Mirrors(resolver, t.value.state, r)
  {
    hide EmitScalar, ReferencesFor, ScalarError, ScalarMade, ScalarAnswered, Replays, LowerScalar, Merged, Erase, EraseScalar, Binder, DistinctIds, IsBoolean,
         ElementFits, IdsWithin, Fits;
    var e := ps[0].expression;
    var binder := Binder(em.nextBinder);
    var references := ReferencesFor(em.binding, source.schema, binder).value;
    var x := EmitScalar(e, references, depth).value;
    ValidUnfolds(r);
    BodyReplays(resolver, site.Child(0), s, source, binder, e, depth, from, next);
    var ls := LowerScalar(resolver, site.Child(0), [(binder, s.element.value)], x).value;
    ReplayedErases(resolver, ls, s.expression.schema, e, source.schema, 0);
    var t := LowerScalarProject(site.Span(), s, MAP_VALUE_COLUMN_NAME, ls, next);
    assert t.Success?;
    ScalarProjectAccepted(site.Span(), s, MAP_VALUE_COLUMN_NAME, ls, from, next);
    var a := t.value.state.expression;
    assert FactsOfColumn(a.schema[0]) == FactsOfColumn(r.schema[0]);
    forall base ensures Erase(a, base) == Erase(r, base) {
      ReplayedErases(resolver, ls, s.expression.schema, e, source.schema, base);
      ProjectErases(a, r, base);
    }
  }

  // ---------- distinct ----------

  lemma DistinctReplays(resolver: Resolver, span: SourceSpan, s: RelationState, r: Relation, source: Relation, em: Emitted, from: nat, next: nat)
    requires BodyReady(resolver, s, source, from, next) && Valid(r) && r.operator == Distinct(source)
    requires em.binding == ElementBinding(s.element) && EmitDistinct(r, source, em).Success?
    ensures var t := LowerDistinct(span, s); t.Success? && Mirrors(resolver, t.value, r)
  {
    hide Merged, Erase, DistinctIds, ElementFits, IdsWithin, LocalsFit;
    var t := LowerDistinct(span, s).value;
    DistinctAccepted(span, s, from, next);
    forall base ensures Erase(t.expression, base) == Erase(r, base) {
      DistinctErases(t.expression, r, base);
    }
  }

  // ---------- names ----------

  lemma {:induction false} OneNamed(schema: Schema, p: nat)
    requires NamesAreUnique(schema) && p < |schema|
    ensures ColumnsNamed(schema, schema[p].name) == [schema[p]]
  {
    if p == 0 {
      NoneNamed(schema[1..], schema[0].name);
    } else {
      assert schema[1..][p - 1] == schema[p];
      OneNamed(schema[1..], p - 1);
    }
  }

  lemma {:induction false} NoneNamed(schema: Schema, name: string)
    requires forall i :: 0 <= i < |schema| ==> schema[i].name != name
    ensures ColumnsNamed(schema, name) == []
  {
    if schema != [] {
      NoneNamed(schema[1..], name);
    }
  }

  lemma NamesCarryOver(a: Schema, b: Schema)
    requires SameColumns(a, b) && NamesAreUnique(b)
    ensures NamesAreUnique(a)
  {
    forall i, j | 0 <= i < j < |a| ensures a[i].name != a[j].name {
      assert FactsOfColumn(a[i]) == FactsOfColumn(b[i]) && FactsOfColumn(a[j]) == FactsOfColumn(b[j]);
    }
  }

  /** Looking a printed name up again finds the column at the same place. */
  lemma NameFindsPlace(to: Schema, schema: Schema, id: ColumnId)
    requires DistinctIds(to) && DistinctIds(schema) && SameColumns(to, schema) && NamesAreUnique(schema) && FindColumn(schema, id).Some?
    ensures var p := Position(Ids(schema), id);
            && p.Some? && p.value < |to|
            && ColumnsNamed(to, FindColumn(schema, id).value.name) == [to[p.value]]
            && Position(Ids(to), to[p.value].id) == p
            && FactsOfColumn(to[p.value]) == FactsOfColumn(FindColumn(schema, id).value)
  {
    hide DistinctIds, NamesAreUnique, ColumnsNamed, Position;
    FindColumnAt(schema, id);
    var p := Position(Ids(schema), id).value;
    assert FactsOfColumn(to[p]) == FactsOfColumn(schema[p]);
    NamesCarryOver(to, schema);
    OneNamed(to, p);
    DistinctPosition(to, p);
  }

  // ---------- sort ----------

  lemma {:induction false} EmitKeysAt(keys: seq<SortKey>, schema: Schema)
    requires EmitKeys(keys, schema).Some?
    ensures var specs := EmitKeys(keys, schema).value;
            |specs| == |keys| && forall i :: 0 <= i < |keys| ==>
              FindColumn(schema, keys[i].column).Some?
              && specs[i] == KeySpec(keys[i].direction, FindColumn(schema, keys[i].column).value.name)
  {
    hide FindColumn;
    if keys != [] {
      EmitKeysAt(keys[1..], schema);
    }
  }

  lemma {:induction false} KeysReplay(site: Site, specs: seq<KeySpec>, keys: seq<SortKey>, to: Schema, schema: Schema, input: IrOrigin)
    requires DistinctIds(to) && DistinctIds(schema) && SameColumns(to, schema) && NamesAreUnique(schema) && |specs| == |keys|
    requires forall i :: 0 <= i < |keys| ==>
               FindColumn(schema, keys[i].column).Some?
               && specs[i] == KeySpec(keys[i].direction, FindColumn(schema, keys[i].column).value.name)
    ensures LowerKeys(site, specs, to, input).Success?
    ensures var lowered := LowerKeys(site, specs, to, input).value;
            |lowered| == |keys| && forall i :: 0 <= i < |keys| ==>
              && Position(Ids(schema), keys[i].column).Some?
              && Position(Ids(to), lowered[i].column) == Position(Ids(schema), keys[i].column)
              && lowered[i].direction == keys[i].direction
    decreases |specs|
  {
    hide DistinctIds, SameColumns, NamesAreUnique, FindColumn, Position, ColumnsNamed, Merged, FactsOfColumn;
    if specs != [] {
      var n := |specs| - 1;
      KeysReplay(site, specs[..n], keys[..n], to, schema, input);
      NameFindsPlace(to, schema, keys[n].column);
    }
  }

  lemma SortReplays(resolver: Resolver, site: Site, s: RelationState, r: Relation, source: Relation, keys: seq<SortKey>, em: Emitted, from: nat, next: nat)
    requires BodyReady(resolver, s, source, from, next) && Valid(r) && r.operator == Sort(source, keys)
    requires em.binding == ElementBinding(s.element) && EmitSort(r, source, keys, em).Success?
    ensures var specs := EmitKeys(keys, source.schema).value;
            var t := LowerSort(site, s, specs); t.Success? && Mirrors(resolver, t.value, r)
  {
    hide Merged, Erase, DistinctIds, ElementFits, IdsWithin, LocalsFit, EmitKeys, LowerKeys, NamesAreUnique, FindColumn, Position;
    var to, specs := s.expression.schema, EmitKeys(keys, source.schema).value;
    MirrorParts(resolver, s, source);
    ValidUnfolds(source);
    ValidUnfolds(s.expression);
    EmitKeysAt(keys, source.schema);
    KeysReplay(site, specs, keys, to, source.schema, s.expression.origin);
    var lowered := LowerKeys(site, specs, to, s.expression.origin).value;
    PlacedKeysOk(lowered, to, keys, source.schema);
    var t := LowerSort(site, s, specs).value;
    SortAccepted(site, s, specs, from, next);
    forall base ensures Erase(t.expression, base) == Erase(r, base) {
      PlacedKeysErase(lowered, to, keys, source.schema, base);
      FactsMatchSelf(s.expression.facts);
      SortErases(t.expression, r, base);
    }
  }

  ghost predicate SamePlaces(a: seq<SortKey>, to: Schema, b: seq<SortKey>, schema: Schema) {
    |a| == |b| && forall i :: 0 <= i < |b| ==>
      && Position(Ids(schema), b[i].column).Some?
      && Position(Ids(to), a[i].column) == Position(Ids(schema), b[i].column)
      && a[i].direction == b[i].direction
  }

  lemma PlacedKeysOk(a: seq<SortKey>, to: Schema, b: seq<SortKey>, schema: Schema)
    requires SamePlaces(a, to, b, schema) && DistinctIds(to) && DistinctIds(schema) && SortKeysOk(b, schema)
    ensures SortKeysOk(a, to)
  {
    hide DistinctIds, FindColumn, Position;
    forall i | 0 <= i < |a| ensures FindColumn(to, a[i].column).Some? {
      FindColumnAt(to, a[i].column);
    }
    forall i, j | 0 <= j < i < |a| ensures a[j].column != a[i].column {
      assert Ids(schema)[Position(Ids(schema), b[i].column).value] == b[i].column;
      assert Ids(schema)[Position(Ids(schema), b[j].column).value] == b[j].column;
    }
  }

  lemma PlacedKeysErase(a: seq<SortKey>, to: Schema, b: seq<SortKey>, schema: Schema, base: nat)
    requires SamePlaces(a, to, b, schema)
    ensures EraseSortKeys(a, Ids(to), base) == EraseSortKeys(b, Ids(schema), base)
  {
  }

  // ---------- selected distinct ----------

  lemma {:induction false} SelectorNamesAt(columns: seq<ColumnId>, schema: Schema)
    requires SelectorNames(columns, schema).Some?
    ensures var names := SelectorNames(columns, schema).value;
            |names| == |columns| && forall i :: 0 <= i < |columns| ==>
              FindColumn(schema, columns[i]).Some? && names[i] == FindColumn(schema, columns[i]).value.name
  {
    hide FindColumn;
    if columns != [] {
      SelectorNamesAt(columns[1..], schema);
    }
  }

  /** The identities stand at the same places. */
  ghost predicate SameSelection(a: seq<ColumnId>, to: Schema, b: seq<ColumnId>, schema: Schema) {
    |a| == |b| && forall i :: 0 <= i < |b| ==>
      Position(Ids(schema), b[i]).Some? && Position(Ids(to), a[i]) == Position(Ids(schema), b[i])
  }

  lemma NamesDiffer(schema: Schema, a: ColumnId, b: ColumnId)
    requires DistinctIds(schema) && NamesAreUnique(schema) && a != b && FindColumn(schema, a).Some? && FindColumn(schema, b).Some?
    ensures FindColumn(schema, a).value.name != FindColumn(schema, b).value.name
  {
    hide DistinctIds, FindColumn;
    FindColumnAt(schema, a);
    FindColumnAt(schema, b);
    var p, q := Position(Ids(schema), a).value, Position(Ids(schema), b).value;
    assert Ids(schema)[p] == a && Ids(schema)[q] == b;
  }

  lemma {:induction false} SelectorsReplay(names: seq<string>, columns: seq<ColumnId>, to: Schema, schema: Schema)
    requires DistinctIds(to) && DistinctIds(schema) && SameColumns(to, schema) && NamesAreUnique(schema) && |names| == |columns|
    requires SelectionOk(columns, schema)
    requires forall i :: 0 <= i < |columns| ==> names[i] == FindColumn(schema, columns[i]).value.name
    ensures ResolveSelectors(names, to).Success? && SameSelection(ResolveSelectors(names, to).value, to, columns, schema)
    ensures |ResolveSelectors(names, to).value| == |columns|
    decreases |names|
  {
    hide DistinctIds, SameColumns, NamesAreUnique, FindColumn, Position, ColumnsNamed, FactsOfColumn;
    if names != [] {
      var n := |names| - 1;
      SelectorsReplay(names[..n], columns[..n], to, schema);
      NameFindsPlace(to, schema, columns[n]);
      forall i | 0 <= i < n ensures names[i] != names[n] {
        NamesDiffer(schema, columns[i], columns[n]);
      }
    }
  }

  lemma SelectionCarriesOver(a: seq<ColumnId>, to: Schema, b: seq<ColumnId>, schema: Schema)
    requires SameSelection(a, to, b, schema) && SameColumns(to, schema) && DistinctIds(to) && DistinctIds(schema) && SelectionOk(b, schema)
    ensures SelectionOk(a, to) && SameColumns(Selected(a, to), Selected(b, schema)) && DistinctIds(Selected(a, to))
    ensures |Selected(a, to)| == |a|
    ensures forall i :: 0 <= i < |a| ==> Selected(a, to)[i].id == a[i]
  {
    hide FindColumn, Position, Selected;
    forall i | 0 <= i < |a| ensures FindColumn(to, a[i]).Some? {
      FindColumnAt(to, a[i]);
    }
    forall i, j | 0 <= j < i < |a| ensures a[j] != a[i] {
      assert Ids(schema)[Position(Ids(schema), b[i]).value] == b[i];
      assert Ids(schema)[Position(Ids(schema), b[j]).value] == b[j];
    }
    SelectedWidth(a, to);
    SelectedWidth(b, schema);
    forall i | 0 <= i < |a| ensures FactsOfColumn(Selected(a, to)[i]) == FactsOfColumn(Selected(b, schema)[i]) {
      FindColumnAt(to, a[i]);
      FindColumnAt(schema, b[i]);
      var p := Position(Ids(to), a[i]).value;
      assert FactsOfColumn(to[p]) == FactsOfColumn(schema[p]);
    }
  }

  lemma SelectionFits(a: seq<ColumnId>, to: Schema)
    requires SelectionOk(a, to)
    ensures |a| <= |to|
  {
    var ids := set i | 0 <= i < |a| :: a[i];
    var all := set i | 0 <= i < |to| :: to[i].id;
    forall i | 0 <= i < |a| ensures a[i] in all {
      assert FindColumn(to, a[i]).Some?;
    }
    assert ids <= all;
    SetOfSeq(a);
    SetOfIds(to);
    CardinalityGrows(ids, all);
  }

  lemma {:induction false} SetOfSeq(a: seq<ColumnId>)
    requires forall i, j :: 0 <= j < i < |a| ==> a[j] != a[i]
    ensures |set i | 0 <= i < |a| :: a[i]| == |a|
  {
    if a != [] {
      var n := |a| - 1;
      SetOfSeq(a[..n]);
      var earlier := set i | 0 <= i < n :: a[..n][i];
      assert (set i | 0 <= i < |a| :: a[i]) == earlier + {a[n]};
      assert a[n] !in earlier;
    }
  }

  lemma {:induction false} SetOfIds(to: Schema)
    ensures |set i | 0 <= i < |to| :: to[i].id| <= |to|
  {
    if to != [] {
      var n := |to| - 1;
      SetOfIds(to[..n]);
      var earlier := set i | 0 <= i < n :: to[..n][i].id;
      assert (set i | 0 <= i < |to| :: to[i].id) == earlier + {to[n].id};
    }
  }

  lemma CardinalityGrows(a: set<ColumnId>, b: set<ColumnId>)
    requires a <= b
    ensures |a| <= |b|
  {
    assert b == a + (b - a);
  }

  lemma {:induction false} BoundSelectionSome(columns: seq<BoundColumn>, ids: seq<ColumnId>)
    requires forall i :: 0 <= i < |ids| ==> FindColumn(ColumnsOf(columns), ids[i]).Some?
    ensures BoundSelection(columns, ids).Some?
    ensures forall b :: b in BoundSelection(columns, ids).value ==> b in columns
  {
    hide FindColumn;
    if ids != [] {
      BoundWithIdFinds(columns, ids[0]);
      BoundWithIdIn(columns, ids[0]);
      BoundSelectionSome(columns, ids[1..]);
    }
  }

  lemma {:induction false} BoundWithIdIn(columns: seq<BoundColumn>, id: ColumnId)
    ensures BoundWithId(columns, id).Some? ==> BoundWithId(columns, id).value in columns
  {
    if columns != [] {
      BoundWithIdIn(columns[1..], id);
    }
  }

  lemma RowSelectionBinds(resolver: Resolver, columns: seq<BoundColumn>, a: seq<ColumnId>, b: seq<ColumnId>, schema: Schema)
    requires |columns| <= U32_LIMIT && LocalsFit(resolver, columns) && a != []
    requires SameSelection(a, ColumnsOf(columns), b, schema) && SameColumns(ColumnsOf(columns), schema)
    requires DistinctIds(ColumnsOf(columns)) && DistinctIds(schema) && NamesAreUnique(schema) && SelectionOk(b, schema)
    ensures BoundSelection(columns, a).Some?
    ensures BindRow(BoundSelection(columns, a).value).Success? && LocalsFit(resolver, BoundSelection(columns, a).value)
  {
    hide FindColumn, Position, Selected, BoundSelection, Fits;
    var to := ColumnsOf(columns);
    SelectionCarriesOver(a, to, b, schema);
    SelectionFits(a, to);
    BoundSelectionSome(columns, a);
    BoundSelectionFinds(columns, a);
    var selected := BoundSelection(columns, a).value;
    forall i | 0 <= i < |selected| ensures Fits(resolver, selected[i].local, selected[i].column.typeRef, selected[i].column.origin) {
      assert selected[i] in selected;
      var k :| 0 <= k < |columns| && columns[k] == selected[i];
    }
    NamesCarryOver(to, schema);
    forall i, j | 0 <= i < j < |selected| ensures ColumnsOf(selected)[i].name != ColumnsOf(selected)[j].name {
      NamesDiffer(to, a[i], a[j]);
    }
  }

  lemma SelectedElementReplays(resolver: Resolver, element: Option<BoundElement>, a: seq<ColumnId>, to: Schema, b: seq<ColumnId>, schema: Schema)
    requires ElementFits(element, to) && (element.Some? ==> LocalsFit(resolver, BoundOf(element.value))) && ElementBinding(element) != ColumnBinding
    requires SameSelection(a, to, b, schema) && SameColumns(to, schema) && a != []
    requires DistinctIds(to) && DistinctIds(schema) && NamesAreUnique(schema) && SelectionOk(b, schema)
    ensures SelectedElement(element, a).Success?
    ensures var t := SelectedElement(element, a).value; t.Some? ==> LocalsFit(resolver, BoundOf(t.value))
  {
    hide SameSelection, SameColumns, DistinctIds, NamesAreUnique, SelectionOk, LocalsFit, BoundSelection;
    if element.Some? {
      RowSelectionBinds(resolver, element.value.columns, a, b, schema);
    }
  }

  lemma SameSelectionErases(a: seq<ColumnId>, to: Schema, b: seq<ColumnId>, schema: Schema, base: nat)
    requires SameSelection(a, to, b, schema)
    ensures EraseSelection(a, Ids(to), base) == EraseSelection(b, Ids(schema), base)
  {
  }

  lemma DistinctOnReplays(resolver: Resolver, span: SourceSpan, s: RelationState, r: Relation, source: Relation, columns: seq<ColumnId>, em: Emitted,
                          from: nat, next: nat)
    requires BodyReady(resolver, s, source, from, next) && Valid(r) && r.operator == DistinctOn(source, columns)
    requires em.binding == ElementBinding(s.element) && EmitDistinctOn(r, source, columns, em).Success?
    ensures var names := SelectorNames(columns, source.schema).value;
            var t := LowerDistinctOn(span, s, names); t.Success? && Mirrors(resolver, t.value, r)
  {
    hide Merged, Erase, DistinctIds, ElementFits, IdsWithin, LocalsFit, SelectorNames, ResolveSelectors, NamesAreUnique, FindColumn, Position, Selected,
         SelectedElement, SameSelection, SelectionOk, SameColumns, EraseSelection;
    var to, names := s.expression.schema, SelectorNames(columns, source.schema).value;
    MirrorParts(resolver, s, source);
    ValidUnfolds(source);
    ValidUnfolds(s.expression);
    ValidUnfolds(r);
    SelectorNamesAt(columns, source.schema);
    SelectorsReplay(names, columns, to, source.schema);
    var ids := ResolveSelectors(names, to).value;
    SelectionCarriesOver(ids, to, columns, source.schema);
    SelectedElementReplays(resolver, s.element, ids, to, columns, source.schema);
    var t := LowerDistinctOn(span, s, names);
    assert t.Success?;
    DistinctOnAccepted(span, s, names, from, next);
    forall base ensures Erase(t.value.expression, base) == Erase(r, base) {
      SameSelectionErases(ids, to, columns, source.schema, base);
      DistinctOnErases(t.value.expression, r, base);
    }
  }

  // ---------- relation project ----------

  lemma {:induction false} EmitSpecsAt(ps: seq<Projection>, schema: Schema, references: References, binder: string, depth: nat)
    requires |ps| == |schema| && EmitSpecs(ps, schema, references, binder, depth).Success?
    ensures var specs := EmitSpecs(ps, schema, references, binder, depth).value;
            |specs| == |ps| && forall i :: 0 <= i < |ps| ==>
              var x := EmitScalar(ps[i].expression, references, depth);
              x.Success? && specs[i] == ColumnSpec(schema[i].name, binder, x.value)
    decreases |ps|
  {
    hide EmitScalar;
    if ps != [] {
      EmitSpecsAt(ps[1..], schema[1..], references, binder, depth);
      var specs := EmitSpecs(ps, schema, references, binder, depth).value;
      assert specs[1..] == EmitSpecs(ps[1..], schema[1..], references, binder, depth).value;
      forall i | 0 <= i < |ps|
        ensures var x := EmitScalar(ps[i].expression, references, depth); x.Success? && specs[i] == ColumnSpec(schema[i].name, binder, x.value)
      {
        if i > 0 {
          assert ps[i] == ps[1..][i - 1] && schema[i] == schema[1..][i - 1] && specs[i] == specs[1..][i - 1];
        }
      }
    }
  }

  /** One specification, with what it was emitted from. */
  ghost predicate SpecOf(spec: ColumnSpec, p: Projection, c: Column, references: References, binder: string, depth: nat) {
    var x := EmitScalar(p.expression, references, depth);
    x.Success? && spec == ColumnSpec(c.name, binder, x.value)
  }

  /** The new column carries the projected scalar under the column's name. */
  ghost predicate ColumnReplayed(resolver: Resolver, b: BoundColumn, p: Projection, id: nat, to: Schema, q: Projection, c: Column, schema: Schema) {
    && b.column.id == id && p.column == id
    && FactsOfColumn(b.column) == FactsOfColumn(c)
    && SameColumnMetadata(p.expression, b.column)
    && ScalarOk(p.expression, to)
    && Fits(resolver, b.local, b.column.typeRef, b.column.origin)
    && forall base :: EraseScalar(p.expression, Ids(to), base) == EraseScalar(q.expression, Ids(schema), base)
  }

  lemma SpecReplays(resolver: Resolver, site: Site, s: RelationState, source: Relation, spec: ColumnSpec, q: Projection, c: Column, binder: string,
                    depth: nat, from: nat, next: nat, id: nat)
    requires BodyReady(resolver, s, source, from, next) && BindsColumn(s)
    requires ReferencesFor(ElementBinding(s.element), source.schema, binder).Some?
    requires SpecOf(spec, q, c, ReferencesFor(ElementBinding(s.element), source.schema, binder).value, binder, depth)
    requires ScalarOk(q.expression, source.schema) && SameColumnMetadata(q.expression, c)
    requires ScalarMade(q.expression) && ScalarAnswered(resolver, q.expression)
    ensures s.element.Some?
    ensures var r := LowerScalar(resolver, site.Child(0), [(spec.parameter, s.element.value)], spec.body);
            r.Success? && ColumnReplayed(resolver, BoundColumn(SpecColumn(site.Span(), id, spec.alias, r.value.expression), r.value.local),
                                         Projection(id, r.value.expression), id, s.expression.schema, q, c, source.schema)
  {
    hide ReferencesFor, LowerValue, EmitScalar, EraseScalar, ScalarError, ScalarMade, ScalarAnswered, Merged, Valid, Alike, BodyReady, Replays;
    BodyReplays(resolver, site.Child(0), s, source, binder, q.expression, depth, from, next);
    var ls := LowerScalar(resolver, site.Child(0), [(spec.parameter, s.element.value)], spec.body).value;
    ReplayedErases(resolver, ls, s.expression.schema, q.expression, source.schema, 0);
    forall base ensures EraseScalar(ls.expression, Ids(s.expression.schema), base) == EraseScalar(q.expression, Ids(source.schema), base) {
      ReplayedErases(resolver, ls, s.expression.schema, q.expression, source.schema, base);
    }
    forall m | m in ls.expression.origin.modelOrigins ensures m in Merged(site.Span(), [ls.expression.origin], []).modelOrigins {
      assert [ls.expression.origin][0] == ls.expression.origin;
      MergedMembers(site.Span(), [ls.expression.origin], [], m);
    }
  }

  lemma {:induction false} SpecsReplay(resolver: Resolver, site: Site, s: RelationState, source: Relation, specs: seq<ColumnSpec>, ps: seq<Projection>,
                                       schema: Schema, binder: string, depth: nat, from: nat, next: nat, start: u32)
    requires BodyReady(resolver, s, source, from, next) && BindsColumn(s) && s.element.Some? && |specs| == |ps| == |schema|
    requires ReferencesFor(ElementBinding(s.element), source.schema, binder).Some?
    requires forall i :: 0 <= i < |ps| ==>
               && SpecOf(specs[i], ps[i], schema[i], ReferencesFor(ElementBinding(s.element), source.schema, binder).value, binder, depth)
               && ScalarOk(ps[i].expression, source.schema) && SameColumnMetadata(ps[i].expression, schema[i])
               && ScalarMade(ps[i].expression) && ScalarAnswered(resolver, ps[i].expression)
    requires start + |specs| < U32_LIMIT
    ensures LowerSpecs(resolver, site, s.element.value, specs, start).Success?
    ensures var t := LowerSpecs(resolver, site, s.element.value, specs, start).value;
            && t.next == start + |specs| && |t.columns| == |t.projections| == |specs|
            && forall i :: 0 <= i < |specs| ==>
                 ColumnReplayed(resolver, t.columns[i], t.projections[i], start + i, s.expression.schema, ps[i], schema[i], source.schema)
    decreases |specs|
  {
    hide BodyReady, ReferencesFor, SpecOf, ScalarError, ScalarMade, ScalarAnswered, ColumnReplayed, LowerScalar, SameColumnMetadata, SpecColumn;
    if specs != [] {
      var n := |specs| - 1;
      SpecsReplay(resolver, site, s, source, specs[..n], ps[..n], schema[..n], binder, depth, from, next, start);
      SpecReplays(resolver, site.Child(n), s, source, specs[n], ps[n], schema[n], binder, depth, from, next, start + n);
    }
  }

  lemma RelationProjectReplays(resolver: Resolver, site: Site, s: RelationState, r: Relation, source: Relation, ps: seq<Projection>, em: Emitted,
                               depth: nat, from: nat, next: u32)
    requires BodyReady(resolver, s, source, from, next) && Valid(r) && r.operator == Project(source, ps, RelationProjection) && |r.schema| == |ps|
    requires em.binding == ElementBinding(s.element) && EmitRelationProject(r, source, ps, em, depth).Success? && r.facts.AreUnknown()
    requires forall i :: 0 <= i < |ps| ==> ScalarMade(ps[i].expression) && ScalarAnswered(resolver, ps[i].expression)
    requires ps != [] && next + |ps| < U32_LIMIT && from <= next
    ensures var binder := Binder(em.nextBinder);
            var specs := EmitSpecs(ps, r.schema, ReferencesFor(em.binding, source.schema, binder).value, binder, depth).value;
            var t := LowerRelationProject(resolver, site, s, specs, next);
            t.Success? && t.value.next == next + |ps| && Mirrors(resolver, t.value.state, r)
  {
    hide EmitScalar, EmitSpecs, ReferencesFor, ScalarError, ScalarMade, ScalarAnswered, LowerSpecs, Merged, Erase, EraseScalar, Binder, DistinctIds,
         ElementFits, IdsWithin, Fits, NamesAreUnique, BodyReady, SpecOf, RowColumnsOf, SameColumnMetadata;
    var binder := Binder(em.nextBinder);
    var references := ReferencesFor(em.binding, source.schema, binder).value;
    var specs := EmitSpecs(ps, r.schema, references, binder, depth).value;
    ReadyFacts(resolver, s, source, from, next);
    ValidUnfolds(r);
    EmitSpecsAt(ps, r.schema, references, binder, depth);
    forall i | 0 <= i < |ps| ensures SpecOf(specs[i], ps[i], r.schema[i], references, binder, depth) {
      SpecFromEmit(specs[i], ps[i], r.schema[i], references, binder, depth);
    }
    SpecsReplay(resolver, site, s, source, specs, ps, r.schema, binder, depth, from, next, next);
    var lowered := LowerSpecs(resolver, site, s.element.value, specs, next).value;
    ProjectBuilds(resolver, site, s, r, source, ps, specs, lowered, from, next);
  }

  lemma ReadyFacts(resolver: Resolver, s: RelationState, source: Relation, from: nat, next: nat)
    requires BodyReady(resolver, s, source, from, next)
    ensures Valid(s.expression) && Valid(source) && Accepted(s, from, next) && Mirrors(resolver, s, source)
  {
  }

  lemma AcceptedIsValid(s: RelationState, from: nat, next: nat)
    requires Accepted(s, from, next)
    ensures Valid(s.expression)
  {
  }

  lemma SpecFromEmit(spec: ColumnSpec, p: Projection, c: Column, references: References, binder: string, depth: nat)
    requires EmitScalar(p.expression, references, depth).Success?
    requires spec == ColumnSpec(c.name, binder, EmitScalar(p.expression, references, depth).value)
    ensures SpecOf(spec, p, c, references, binder, depth)
  {
    hide EmitScalar;
  }

  lemma ProjectBuilds(resolver: Resolver, site: Site, s: RelationState, r: Relation, source: Relation, ps: seq<Projection>, specs: seq<ColumnSpec>,
                      lowered: LoweredSpecs, from: nat, next: u32)
    requires BodyReady(resolver, s, source, from, next) && Valid(r) && r.operator == Project(source, ps, RelationProjection) && |r.schema| == |ps|
    requires r.facts.AreUnknown() && BindsColumn(s) && ps != [] && |specs| == |ps| && from <= next && NamesAreUnique(r.schema)
    requires forall i :: 0 <= i < |ps| ==> specs[i].alias == r.schema[i].name
    requires LowerSpecs(resolver, site, s.element.value, specs, next) == Success(lowered) && lowered.next == next + |ps|
    requires |lowered.columns| == |lowered.projections| == |ps|
    requires forall i :: 0 <= i < |ps| ==>
               ColumnReplayed(resolver, lowered.columns[i], lowered.projections[i], next + i, s.expression.schema, ps[i], r.schema[i], source.schema)
    ensures var t := LowerRelationProject(resolver, site, s, specs, next);
            t.Success? && t.value.next == lowered.next && Mirrors(resolver, t.value.state, r)
  {
    hide LowerSpecs, Merged, Erase, EraseScalar, ScalarError, Fits, Valid, Accepted, RowColumnsOf;
    ReadyFacts(resolver, s, source, from, next);
    var schema := ColumnsOf(lowered.columns);
    assert SameColumns(schema, r.schema);
    NamesCarryOver(schema, r.schema);
    assert AliasesAreUnique(specs);
    assert DistinctIds(schema);
    assert BindRow(lowered.columns).Success?;
    assert OperatorOk(Project(s.expression, lowered.projections, RelationProjection), schema);
    var t := LowerRelationProject(resolver, site, s, specs, next);
    assert t.Success?;
    RelationProjectAccepted(resolver, site, s, specs, from, next);
    var a := t.value.state.expression;
    AcceptedIsValid(t.value.state, from, t.value.next);
    forall base ensures Erase(a, base) == Erase(r, base) {
      forall i | 0 <= i < |a.schema|
        ensures EraseScalar(a.operator.projections[i].expression, Ids(a.operator.input.schema), base) ==
                EraseScalar(r.operator.projections[i].expression, Ids(r.operator.input.schema), base)
      {
        assert ColumnReplayed(resolver, lowered.columns[i], lowered.projections[i], next + i, s.expression.schema, ps[i], r.schema[i], source.schema);
      }
      ProjectErases(a, r, base);
    }
  }

  // ---------- join ----------

  /** References to two one-column sides read the two bound columns of the joined row. */
  lemma JoinReferencesRead(resolver: Resolver, left: Schema, right: Schema, l: string, r: string, x: BoundColumn, y: BoundColumn)
    requires |left| == 1 && |right| == 1 && l != r && DistinctIds(left + right)
    ensures ReferencesRead(resolver, map[left[0].id := Chain(Variable(l), [])] + map[right[0].id := Chain(Variable(r), [])],
                           [(l, ColumnElement(x)), (r, ColumnElement(y))], left + right, [x, y])
  {
    hide ReadsBound, DistinctIds;
    var schema := left + right;
    var bindings := [(l, ColumnElement(x)), (r, ColumnElement(y))];
    DistinctPosition(schema, 0);
    DistinctPosition(schema, 1);
    LookupTwo(l, ColumnElement(x), r, ColumnElement(y), l);
    LookupTwo(l, ColumnElement(x), r, ColumnElement(y), r);
    VariableReads(resolver, bindings, l, x);
    VariableReads(resolver, bindings, r, y);
  }

  /** A scalar reads a column exactly when its copy reads the column at the same place. */
  lemma {:induction false} ReadsCarryOver(a: Scalar, to: Schema, b: Scalar, schema: Schema, p: nat, base: nat)
    requires EraseScalar(a, Ids(to), base) == EraseScalar(b, Ids(schema), base) && ScalarOk(b, schema) && ScalarOk(a, to)
    requires DistinctIds(to) && DistinctIds(schema) && p < |to| == |schema|
    ensures ReferencesColumn(a, to[p].id) <==> ReferencesColumn(b, schema[p].id)
    decreases a
  {
    hide DistinctIds, FindColumn, Position;
    match a.operator
    case ColumnRead(id) =>
      FindColumnAt(to, id);
      FindColumnAt(schema, b.operator.id);
      DistinctPosition(to, p);
      DistinctPosition(schema, p);
    case Literal(_) =>
    case Navigation(input, _) => ReadsCarryOver(input, to, b.operator.input, schema, p, base);
    case Equal(left, right) =>
      ReadsCarryOver(left, to, b.operator.left, schema, p, base);
      ReadsCarryOver(right, to, b.operator.right, schema, p, base);
    case Not(input) => ReadsCarryOver(input, to, b.operator.input, schema, p, base);
  }

  lemma ColumnsJoined(a: Schema, b: Schema, c: Schema, d: Schema)
    requires SameColumns(a, c) && SameColumns(b, d)
    ensures SameColumns(a + b, c + d)
  {
    forall i | 0 <= i < |a + b| ensures FactsOfColumn((a + b)[i]) == FactsOfColumn((c + d)[i]) {
      if i < |a| {
        assert FactsOfColumn(a[i]) == FactsOfColumn(c[i]);
      } else {
        assert FactsOfColumn(b[i - |a|]) == FactsOfColumn(d[i - |a|]);
      }
    }
  }

  /** Both sides bound to their one column, with everything the join relies on. */
  ghost predicate SidesReady(resolver: Resolver, left: RelationState, right: RelationState, a: Relation, b: Relation, from: nat, middle: nat, next: nat) {
    && BodyReady(resolver, left, a, from, middle) && BodyReady(resolver, right, b, middle, next)
    && BindsColumn(left) && BindsColumn(right) && from <= middle <= next
  }

  lemma SidesAreOne(resolver: Resolver, left: RelationState, right: RelationState, a: Relation, b: Relation, from: nat, middle: nat, next: nat)
    requires SidesReady(resolver, left, right, a, b, from, middle, next) && DistinctIds(a.schema + b.schema)
    ensures left.expression.schema == [left.element.value.bound.column] && right.expression.schema == [right.element.value.bound.column]
    ensures |a.schema| == 1 && |b.schema| == 1
    ensures SameColumns(left.expression.schema + right.expression.schema, a.schema + b.schema)
    ensures DistinctIds(left.expression.schema + right.expression.schema)
    ensures LocalsFit(resolver, [left.element.value.bound, right.element.value.bound])
    ensures ColumnsOf([left.element.value.bound, right.element.value.bound]) == left.expression.schema + right.expression.schema
  {
    hide Valid, Alike, DistinctIds, Fits;
    MirrorParts(resolver, left, a);
    MirrorParts(resolver, right, b);
    ColumnsJoined(left.expression.schema, right.expression.schema, a.schema, b.schema);
    JoinSidesAreDisjoint(left, right, from, middle, next);
    var bound := [left.element.value.bound, right.element.value.bound];
    forall i | 0 <= i < |bound| ensures Fits(resolver, bound[i].local, bound[i].column.typeRef, bound[i].column.origin) {
      if i == 0 {
        assert BoundOf(left.element.value)[0] == bound[0];
      } else {
        assert BoundOf(right.element.value)[0] == bound[1];
      }
    }
  }

  lemma JoinReplays(resolver: Resolver, site: Site, left: RelationState, right: RelationState, r: Relation, a: Relation, b: Relation, condition: Scalar,
                    l: Emitted, rr: Emitted, depth: nat, from: nat, middle: nat, next: nat)
    requires SidesReady(resolver, left, right, a, b, from, middle, next) && Valid(r) && r.operator == Join(Inner, a, b, condition)
    requires EmitJoin(r, a, b, condition, l, rr, depth).Success?
    requires ScalarMade(condition) && ScalarAnswered(resolver, condition) && JoinsBothSides(a, b, condition)
    ensures var steps := EmitJoin(r, a, b, condition, l, rr, depth).value.query.steps;
            var step := steps[|steps| - 1];
            step.JoinStep? && var t := LowerJoined(resolver, site, left, right, step.leftParameter, step.rightParameter, step.condition);
                              t.Success? && Mirrors(resolver, t.value, r)
  {
    hide EmitScalar, ScalarError, ScalarMade, ScalarAnswered, Replays, LowerValue, Merged, Erase, EraseScalar, Binder, DistinctIds, IsBoolean,
         SidesReady, LocalsFit, SameColumns, ReferencesRead, ReferencesColumn, Valid, Ordinary;
    var lb, rb := Binder(rr.nextBinder), Binder(rr.nextBinder + 1);
    BindersDiffer(rr.nextBinder, rr.nextBinder + 1);
    JoinUnfolds(r, a, b, condition);
    SidesOrdinary(resolver, left, right, a, b, from, middle, next);
    SidesAreOne(resolver, left, right, a, b, from, middle, next);
    var x, y := left.element.value.bound, right.element.value.bound;
    var references := map[a.schema[0].id := Chain(Variable(lb), [])] + map[b.schema[0].id := Chain(Variable(rb), [])];
    var bindings := [(lb, left.element.value), (rb, right.element.value)];
    JoinReferencesRead(resolver, a.schema, b.schema, lb, rb, x, y);
    var e := EmitScalar(condition, references, depth).value;
    BareReadsAreSpoken(condition, references, depth);
    ScalarReplays(resolver, site.Child(0), references, bindings, a.schema + b.schema, [x, y], condition, depth);
    var to := left.expression.schema + right.expression.schema;
    var c := LowerScalar(resolver, site.Child(0), bindings, e).value;
    ScalarOf(LowerValue(resolver, site.Child(0), bindings, e.root, e.members), resolver, to, condition, a.schema + b.schema);
    JoinBuilds(resolver, site, left, right, r, a, b, condition, lb, rb, e, c, from, middle, next);
  }

  lemma JoinUnfolds(r: Relation, a: Relation, b: Relation, condition: Scalar)
    requires Valid(r) && r.operator == Join(Inner, a, b, condition)
    ensures r.schema == a.schema + b.schema && DistinctIds(a.schema + b.schema) && PredicateOk(condition, a.schema + b.schema)
  {
  }

  lemma SidesOrdinary(resolver: Resolver, left: RelationState, right: RelationState, a: Relation, b: Relation, from: nat, middle: nat, next: nat)
    requires SidesReady(resolver, left, right, a, b, from, middle, next)
    ensures Ordinary(resolver) && BindsColumn(left) && BindsColumn(right)
    ensures Accepted(left, from, middle) && Accepted(right, middle, next) && from <= middle <= next
    ensures Alike(left.expression, a) && Alike(right.expression, b)
  {
  }

  lemma JoinBuilds(resolver: Resolver, site: Site, left: RelationState, right: RelationState, r: Relation, a: Relation, b: Relation, condition: Scalar,
                   l: string, rb: string, e: Expr, c: LoweredScalar, from: nat, middle: nat, next: nat)
    requires SidesReady(resolver, left, right, a, b, from, middle, next) && Valid(r) && r.operator == Join(Inner, a, b, condition)
    requires r.facts.AreUnknown() && JoinsBothSides(a, b, condition)
    requires LowerScalar(resolver, site.Child(0), [(l, left.element.value), (rb, right.element.value)], e) == Success(c)
    requires Replays(resolver, c, left.expression.schema + right.expression.schema, condition, a.schema + b.schema)
    ensures var t := LowerJoined(resolver, site, left, right, l, rb, e); t.Success? && Mirrors(resolver, t.value, r)
  {
    hide ScalarError, Replays, LowerValue, Merged, Erase, EraseScalar, DistinctIds, SidesReady, LocalsFit, SameColumns, ReferencesColumn, Valid, Accepted;
    JoinUnfolds(r, a, b, condition);
    SidesAreOne(resolver, left, right, a, b, from, middle, next);
    SidesOrdinary(resolver, left, right, a, b, from, middle, next);
    var to, schema := left.expression.schema + right.expression.schema, a.schema + b.schema;
    ReplayedPredicate(resolver, c, to, condition, schema);
    ReplayedErases(resolver, c, to, condition, schema, 0);
    ReadsCarryOver(c.expression, to, condition, schema, 0, 0);
    ReadsCarryOver(c.expression, to, condition, schema, 1, 0);
    var t := LowerJoined(resolver, site, left, right, l, rb, e);
    assert t.Success?;
    JoinedAccepted(resolver, site, left, right, l, rb, e, from, middle, next);
    AcceptedIsValid(t.value, from, next);
    forall base ensures Erase(t.value.expression, base) == Erase(r, base) {
      ReplayedErases(resolver, c, to, condition, schema, base);
      JoinErases(t.value.expression, r, base);
    }
  }
}
