/** The encoder that appends fragments to one growing text, and the entry point
    that normalizes a query and derives its two keys.
    Each method is told (for the proof only) which fragments come after it. */
module KeyEncoding {
  import opened Basics
  import opened Orders
  import opened Text
  import opened Relational
  import opened Semantics
  import opened Normalization
  import opened Keys
  import opened Comparison

  class KeyEncoder {
    const includeProvenance: bool
    var output: string

    constructor (includeProvenance: bool)
      ensures this.includeProvenance == includeProvenance && output == ""
    {
      this.includeProvenance := includeProvenance;
      output := "";
    }

    /** `write_fragment`: after this, `rest` completes what `fragment, rest` completed before. */
    method Write(fragment: string, ghost rest: Tokens)
      modifies this
      ensures output == old(output) + Fragment(fragment)
      ensures output + Render(rest) == old(output) + Render(Token(fragment, rest))
    {
      output := output + Decimal(ByteLen(fragment)) + ":" + fragment;
    }

    method ColumnIdentity(ids: seq<ColumnId>, id: ColumnId, ghost rest: Tokens)
      modifies this
      ensures output + Render(rest) == old(output) + Render(EncColumnId(ids, id, rest))
    {
      Write("column-id", Token(PlaceText(Position(ids, id)), rest));
      Write(PlaceText(Position(ids, id)), rest);
    }

    method Type(t: TypeRef, ghost rest: Tokens)
      modifies this
      ensures output + Render(rest) == old(output) + Render(EncType(t, rest))
      decreases t, 1
    {
      Write("type", Token(t.rawType, Token(Decimal(|t.arguments|), EncTypes(t.arguments, rest))));
      Write(t.rawType, Token(Decimal(|t.arguments|), EncTypes(t.arguments, rest)));
      Write(Decimal(|t.arguments|), EncTypes(t.arguments, rest));
      Types(t.arguments, rest);
    }

    method Types(ts: seq<TypeRef>, ghost rest: Tokens)
      modifies this
      ensures output + Render(rest) == old(output) + Render(EncTypes(ts, rest))
      decreases ts, 0
    {
      for i := 0 to |ts|
        invariant output + Render(EncTypes(ts[i..], rest)) == old(output) + Render(EncTypes(ts, rest))
      {
        assert ts[i..][1..] == ts[i + 1..];
        Type(ts[i], EncTypes(ts[i + 1..], rest));
      }
    }

    method MultiplicityBounds(m: Multiplicity, ghost rest: Tokens)
      modifies this
      ensures output + Render(rest) == old(output) + Render(EncMultiplicity(m, rest))
    {
      Write("multiplicity", Token(Decimal(m.lower), Token(UpperText(m.upper), rest)));
      Write(Decimal(m.lower), Token(UpperText(m.upper), rest));
      Write(UpperText(m.upper), rest);
    }

    method Range(range: TextRange, ghost rest: Tokens)
      modifies this
      ensures output + Render(rest) == old(output) + Render(EncRange(range, rest))
    {
      Write(Decimal(range.start), Token(Decimal(range.end), rest));
      Write(Decimal(range.end), rest);
    }

    method Anchor(anchor: DefinitionAnchor, ghost rest: Tokens)
      modifies this
      ensures output + Render(rest) == old(output) + Render(EncAnchor(anchor, rest))
    {
      Write("anchor", Token(Decimal(anchor.source), EncSpan(anchor.span, rest)));
      Write(Decimal(anchor.source), EncSpan(anchor.span, rest));
      match anchor.span {
        case Some(range) => Range(range, rest);
        case None => Write("no-span", rest);
      }
    }

    method OriginIf(origin: IrOrigin, ghost rest: Tokens)
      modifies this
      ensures output + Render(rest) == old(output) + Render(EncOriginIf(includeProvenance, origin, rest))
    {
      if includeProvenance {
        var texts := Canonical(CompareText, ModelOriginTexts(origin.modelOrigins));
        ghost var r2 := Token(Decimal(|texts|), EncTexts(texts, rest));
        ghost var r1 := EncRange(origin.source.range, r2);
        Write("origin", Token(Decimal(origin.source.file), r1));
        Write(Decimal(origin.source.file), r1);
        Range(origin.source.range, r2);
        Write(Decimal(|texts|), EncTexts(texts, rest));
        label Listed:
        for i := 0 to |texts|
          invariant output + Render(EncTexts(texts[i..], rest)) == old@Listed(output) + Render(EncTexts(texts, rest))
        {
          assert texts[i..][1..] == texts[i + 1..];
          Write(texts[i], EncTexts(texts[i + 1..], rest));
        }
      }
    }

    method DefinitionIf(p: Provenance, definition: DefinitionAnchor, ghost rest: Tokens)
      modifies this
      ensures output + Render(rest) == old(output) + Render(EncDefinitionIf(includeProvenance, p, definition, rest))
    {
      if includeProvenance {
        Write(ProvenanceText(p), EncAnchor(definition, rest));
        Anchor(definition, rest);
      }
    }

    method Class(c: ResolvedClass, ghost rest: Tokens)
      modifies this
      ensures output + Render(rest) == old(output) + Render(EncClass(includeProvenance, c, rest))
    {
      ghost var tail := EncDefinitionIf(includeProvenance, c.provenance, c.definition, rest);
      Write("resolved-class", Token(c.path, Token(TemporalText(c.temporal), tail)));
      Write(c.path, Token(TemporalText(c.temporal), tail));
      Write(TemporalText(c.temporal), tail);
      DefinitionIf(c.provenance, c.definition, rest);
    }

    method MemberKindOf(kind: MemberKind, ghost rest: Tokens)
      modifies this
      ensures output + Render(rest) == old(output) + Render(EncMemberKind(kind, rest))
    {
      match kind {
        case Qualified(qp) =>
          var text :=
            match qp
            case UserQualified => "user"
            case MilestonedPoint => "milestoned-point"
            case AllVersions => "all-versions"
            case AllVersionsInRange => "all-versions-in-range";
          Write("qualified", Token(text, rest));
          Write(text, rest);
        case Property => Write("property", rest);
        case AssociationEnd(association) =>
          Write("association-end", Token(association, rest));
          Write(association, rest);
      }
    }

    method Member(m: ResolvedMember, ghost rest: Tokens)
      modifies this
      ensures output + Render(rest) == old(output) + Render(EncMember(includeProvenance, m, rest))
    {
      hide Render, Fragment, EncClass, EncType, EncTypes, EncMultiplicity, EncMemberKind, EncDefinitionIf;
      ghost var r6 := EncDefinitionIf(includeProvenance, m.provenance, m.definition, rest);
      ghost var r5 := Token(ArityText(m.targetTemporalArity), r6);
      ghost var r4 := EncSignature(m.signature, r5);
      ghost var r3 := EncMemberKind(m.kind, r4);
      ghost var r2 := EncMultiplicity(m.multiplicity, r3);
      ghost var r1 := Token(m.name, EncType(m.target, r2));
      Write("resolved-member", EncClass(includeProvenance, m.owner, r1));
      Class(m.owner, r1);
      Write(m.name, EncType(m.target, r2));
      Type(m.target, r2);
      MultiplicityBounds(m.multiplicity, r3);
      MemberKindOf(m.kind, r4);
      match m.signature {
        case Some(types) =>
          Write("signature", Token(Decimal(|types|), EncTypes(types, r5)));
          Write(Decimal(|types|), EncTypes(types, r5));
          Types(types, r5);
        case None => Write("no-signature", r5);
      }
      Write(ArityText(m.targetTemporalArity), r6);
      DefinitionIf(m.provenance, m.definition, rest);
    }

    method LiteralOf(l: ScalarLiteral, ghost rest: Tokens)
      modifies this
      ensures output + Render(rest) == old(output) + Render(EncLiteral(l, rest))
    {
      match l {
        case BooleanLiteral(b) =>
          Write("boolean", Token(if b then "true" else "false", rest));
          Write(if b then "true" else "false", rest);
        case IntegerLiteral(i) =>
          Write("integer", Token(SignedDecimal(i), rest));
          Write(SignedDecimal(i), rest);
        case StringLiteral(s) =>
          Write("string", Token(s, rest));
          Write(s, rest);
        case NullLiteral => Write("null", rest);
      }
    }

    method TotalityOf(k: Knowledge<Totality>, ghost rest: Tokens)
      modifies this
      ensures output + Render(rest) == old(output) + Render(EncTotality(includeProvenance, k, rest))
    {
      match k {
        case Unknown =>
          Write("totality", Token("unknown", rest));
          Write("unknown", rest);
        case Proven(value, origin) =>
          var text := if value == Total then "total" else "partial";
          ghost var tail := EncOriginIf(includeProvenance, origin, rest);
          Write("totality", Token("proven", Token(text, tail)));
          Write("proven", Token(text, tail));
          Write(text, tail);
          OriginIf(origin, rest);
      }
    }

    method ScalarNode(e: Scalar, ids: seq<ColumnId>, ghost rest: Tokens)
      modifies this
      ensures output + Render(rest) == old(output) + Render(EncScalar(includeProvenance, e, ids, rest))
      decreases e
    {
      hide Render, Fragment, EncType, EncMultiplicity, EncTotality, EncOriginIf, EncMember, EncLiteral, EncColumnId;
      ghost var r5 := EncScalarOperator(includeProvenance, e, ids, rest);
      ghost var r4 := EncOriginIf(includeProvenance, e.origin, r5);
      ghost var r3 := EncTotality(includeProvenance, e.totality, r4);
      ghost var r2 := Token(NullabilityText(e.nullability), r3);
      ghost var r1 := EncMultiplicity(e.multiplicity, r2);
      Write("scalar", EncType(e.typeRef, r1));
      Type(e.typeRef, r1);
      MultiplicityBounds(e.multiplicity, r2);
      Write(NullabilityText(e.nullability), r3);
      TotalityOf(e.totality, r4);
      OriginIf(e.origin, r5);
      match e.operator {
        case ColumnRead(id) =>
          Write("column", EncColumnId(ids, id, rest));
          ColumnIdentity(ids, id, rest);
        case Literal(l) => LiteralOf(l, rest);
        case Navigation(input, navigation) =>
          ghost var tail := EncMember(includeProvenance, navigation.member, rest);
          Write("navigation", EncScalar(includeProvenance, input, ids, tail));
          ScalarNode(input, ids, tail);
          Member(navigation.member, rest);
        case Equal(left, right) =>
          ghost var tail := EncScalar(includeProvenance, right, ids, rest);
          Write("equal", EncScalar(includeProvenance, left, ids, tail));
          ScalarNode(left, ids, tail);
          ScalarNode(right, ids, rest);
        case Not(input) =>
          Write("not", EncScalar(includeProvenance, input, ids, rest));
          ScalarNode(input, ids, rest);
      }
    }

    method ColumnOf(c: Column, ids: seq<ColumnId>, ghost rest: Tokens)
      modifies this
      ensures output + Render(rest) == old(output) + Render(EncColumn(includeProvenance, c, ids, rest))
    {
      ghost var r4 := EncOriginIf(includeProvenance, c.origin, rest);
      ghost var r3 := Token(NullabilityText(c.nullability), r4);
      ghost var r2 := EncMultiplicity(c.multiplicity, r3);
      ghost var r1 := Token(c.name, EncType(c.typeRef, r2));
      Write("column", EncColumnId(ids, c.id, r1));
      ColumnIdentity(ids, c.id, r1);
      Write(c.name, EncType(c.typeRef, r2));
      Type(c.typeRef, r2);
      MultiplicityBounds(c.multiplicity, r3);
      Write(NullabilityText(c.nullability), r4);
      OriginIf(c.origin, rest);
    }

    method SchemaOf(schema: Schema, ghost rest: Tokens)
      modifies this
      ensures output + Render(rest) == old(output) + Render(EncSchema(includeProvenance, schema, rest))
    {
      var ids := Ids(schema);
      ghost var columns := EncColumns(includeProvenance, schema, ids, rest);
      Write("schema", Token(Decimal(|schema|), columns));
      Write(Decimal(|schema|), columns);
      for i := 0 to |schema|
        invariant output + Render(EncColumns(includeProvenance, schema[i..], ids, rest)) ==
                  old(output) + Render(EncSchema(includeProvenance, schema, rest))
      {
        assert schema[i..][1..] == schema[i + 1..];
        ColumnOf(schema[i], ids, EncColumns(includeProvenance, schema[i + 1..], ids, rest));
      }
    }

    method FactsOf(f: Facts, ids: seq<ColumnId>, ghost rest: Tokens)
      modifies this
      ensures output + Render(rest) == old(output) + Render(EncFacts(includeProvenance, f, ids, rest))
    {
      ghost var rows := EncRowSemantics(includeProvenance, f.rowSemantics, rest);
      Write("facts", EncKeys(includeProvenance, f.candidateKeys, ids, rows));
      KeysOf(f.candidateKeys, ids, rows);
      match f.rowSemantics {
        case Unknown =>
          Write("row-semantics", Token("unknown", rest));
          Write("unknown", rest);
        case Proven(value, origin) =>
          var text := if value == SetRows then "set" else "bag";
          ghost var tail := EncOriginIf(includeProvenance, origin, rest);
          Write("row-semantics", Token("proven", Token(text, tail)));
          Write("proven", Token(text, tail));
          Write(text, tail);
          OriginIf(origin, rest);
      }
    }

    method KeysOf(k: Knowledge<seq<CandidateKey>>, ids: seq<ColumnId>, ghost rest: Tokens)
      modifies this
      ensures output + Render(rest) == old(output) + Render(EncKeys(includeProvenance, k, ids, rest))
    {
      hide Render, Fragment, EncPositions, EncOriginIf, KeyPositions;
      match k {
        case Unknown =>
          Write("keys", Token("unknown", rest));
          Write("unknown", rest);
        case Proven(keys, origin) =>
          var lists := KeyPositions(ids, keys);
          ghost var tail := EncOriginIf(includeProvenance, origin, rest);
          Write("keys", Token("proven", Token(Decimal(|lists|), EncPositionLists(lists, tail))));
          Write("proven", Token(Decimal(|lists|), EncPositionLists(lists, tail)));
          Write(Decimal(|lists|), EncPositionLists(lists, tail));
          for i := 0 to |lists|
            invariant output + Render(EncPositionLists(lists[i..], tail)) ==
                      old(output) + Render(EncKeys(includeProvenance, k, ids, rest))
          {
            assert lists[i..][1..] == lists[i + 1..];
            Positions(lists[i], EncPositionLists(lists[i + 1..], tail));
          }
          OriginIf(origin, rest);
      }
    }

    method Positions(positions: seq<nat>, ghost rest: Tokens)
      modifies this
      ensures output + Render(rest) == old(output) + Render(Token(Decimal(|positions|), EncPositions(positions, rest)))
    {
      Write(Decimal(|positions|), EncPositions(positions, rest));
      for i := 0 to |positions|
        invariant output + Render(EncPositions(positions[i..], rest)) ==
                  old(output) + Render(Token(Decimal(|positions|), EncPositions(positions, rest)))
      {
        assert positions[i..][1..] == positions[i + 1..];
        Write(Decimal(positions[i]), EncPositions(positions[i + 1..], rest));
      }
    }

    method ProjectionsOf(ps: seq<Projection>, outputIds: seq<ColumnId>, input: seq<ColumnId>, ghost rest: Tokens)
      modifies this
      ensures output + Render(rest) ==
              old(output) + Render(Token(Decimal(|ps|), EncProjections(includeProvenance, ps, outputIds, input, rest)))
    {
      Write(Decimal(|ps|), EncProjections(includeProvenance, ps, outputIds, input, rest));
      for i := 0 to |ps|
        invariant output + Render(EncProjections(includeProvenance, ps[i..], outputIds, input, rest)) ==
                  old(output) + Render(Token(Decimal(|ps|), EncProjections(includeProvenance, ps, outputIds, input, rest)))
      {
        assert ps[i..][1..] == ps[i + 1..];
        ghost var tail := EncProjections(includeProvenance, ps[i + 1..], outputIds, input, rest);
        ColumnIdentity(outputIds, ps[i].column, EncScalar(includeProvenance, ps[i].expression, input, tail));
        ScalarNode(ps[i].expression, input, tail);
      }
    }

    method SelectionOf(columns: seq<ColumnId>, ids: seq<ColumnId>, ghost rest: Tokens)
      modifies this
      ensures output + Render(rest) == old(output) + Render(Token(Decimal(|columns|), EncSelection(columns, ids, rest)))
    {
      Write(Decimal(|columns|), EncSelection(columns, ids, rest));
      for i := 0 to |columns|
        invariant output + Render(EncSelection(columns[i..], ids, rest)) ==
                  old(output) + Render(Token(Decimal(|columns|), EncSelection(columns, ids, rest)))
      {
        assert columns[i..][1..] == columns[i + 1..];
        ColumnIdentity(ids, columns[i], EncSelection(columns[i + 1..], ids, rest));
      }
    }

    method SortKeysOf(keys: seq<SortKey>, ids: seq<ColumnId>, ghost rest: Tokens)
      modifies this
      ensures output + Render(rest) == old(output) + Render(Token(Decimal(|keys|), EncSortKeys(includeProvenance, keys, ids, rest)))
    {
      Write(Decimal(|keys|), EncSortKeys(includeProvenance, keys, ids, rest));
      for i := 0 to |keys|
        invariant output + Render(EncSortKeys(includeProvenance, keys[i..], ids, rest)) ==
                  old(output) + Render(Token(Decimal(|keys|), EncSortKeys(includeProvenance, keys, ids, rest)))
      {
        assert keys[i..][1..] == keys[i + 1..];
        ghost var r3 := EncSortKeys(includeProvenance, keys[i + 1..], ids, rest);
        ghost var r2 := EncOriginIf(includeProvenance, keys[i].origin, r3);
        ghost var r1 := Token(DirectionText(keys[i].direction), r2);
        Write("sort-key", EncColumnId(ids, keys[i].column, r1));
        ColumnIdentity(ids, keys[i].column, r1);
        Write(DirectionText(keys[i].direction), r2);
        OriginIf(keys[i].origin, r3);
      }
    }

    /** `KeyEncoder::relation`: appends exactly the fragments of `r`. */
    method RelationNode(r: Relation, ghost rest: Tokens)
      modifies this
      ensures output + Render(rest) == old(output) + Render(EncRelation(includeProvenance, r, rest))
      decreases r, 1
    {
      hide Render, Fragment, EncSchema, EncFacts, EncOriginIf, EncOperator, Ids;
      ghost var r3 := EncOperator(includeProvenance, r, rest);
      ghost var r2 := EncOriginIf(includeProvenance, r.origin, r3);
      ghost var r1 := EncFacts(includeProvenance, r.facts, Ids(r.schema), r2);
      Write("relation", EncSchema(includeProvenance, r.schema, r1));
      SchemaOf(r.schema, r1);
      FactsOf(r.facts, Ids(r.schema), r2);
      OriginIf(r.origin, r3);
      OperatorOf(r, rest);
    }

    method OperatorOf(r: Relation, ghost rest: Tokens)
      modifies this
      ensures output + Render(rest) == old(output) + Render(EncOperator(includeProvenance, r, rest))
      decreases r, 0
    {
      hide Render, Fragment, EncRelation, EncScalar, EncProjections, EncSelection, EncSortKeys, EncClass, Ids;
      match r.operator {
        case Scan(c) =>
          Write("scan", Token("class", EncClass(includeProvenance, c, rest)));
          Write("class", EncClass(includeProvenance, c, rest));
          Class(c, rest);
        case Filter(input, condition) =>
          ghost var tail := EncScalar(includeProvenance, condition, Ids(input.schema), rest);
          Write("filter", EncRelation(includeProvenance, input, tail));
          RelationNode(input, tail);
          ScalarNode(condition, Ids(input.schema), rest);
        case Project(input, projections, kind) =>
          var text := if kind == ScalarProjection then "scalar" else "relation";
          ghost var tail :=
            Token(Decimal(|projections|), EncProjections(includeProvenance, projections, Ids(r.schema), Ids(input.schema), rest));
          Write("project", Token(text, EncRelation(includeProvenance, input, tail)));
          Write(text, EncRelation(includeProvenance, input, tail));
          RelationNode(input, tail);
          ProjectionsOf(projections, Ids(r.schema), Ids(input.schema), rest);
        case Join(_, left, right, condition) =>
          ghost var r2 := EncScalar(includeProvenance, condition, Ids(left.schema) + Ids(right.schema), rest);
          ghost var r1 := EncRelation(includeProvenance, right, r2);
          Write("join", Token("inner", EncRelation(includeProvenance, left, r1)));
          Write("inner", EncRelation(includeProvenance, left, r1));
          RelationNode(left, r1);
          RelationNode(right, r2);
          ScalarNode(condition, Ids(left.schema) + Ids(right.schema), rest);
        case Distinct(input) =>
          Write("distinct", EncRelation(includeProvenance, input, rest));
          RelationNode(input, rest);
        case DistinctOn(input, columns) =>
          ghost var tail := Token(Decimal(|columns|), EncSelection(columns, Ids(input.schema), rest));
          Write("distinct-on", EncRelation(includeProvenance, input, tail));
          RelationNode(input, tail);
          SelectionOf(columns, Ids(input.schema), rest);
        case Sort(input, keys) =>
          ghost var tail := Token(Decimal(|keys|), EncSortKeys(includeProvenance, keys, Ids(input.schema), rest));
          Write("sort", EncRelation(includeProvenance, input, tail));
          RelationNode(input, tail);
          SortKeysOf(keys, Ids(input.schema), rest);
      }
    }
  }

  method Encode(includeProvenance: bool, r: Relation) returns (key: string)
    ensures key == Render(EncRelation(includeProvenance, r, End))
  {
    var encoder := new KeyEncoder(includeProvenance);
    encoder.RelationNode(r, End);
    key := encoder.output;
    assert key + Render(End) == key;
    assert "" + Render(EncRelation(includeProvenance, r, End)) == Render(EncRelation(includeProvenance, r, End));
  }

  /** `normalize_relational_query_with_budget`. */
  method NormalizeRelationalQuery(root: Relation, maxSteps: nat) returns (outcome: NormalizationOutcome)
    requires Valid(root)
    ensures outcome == NormalizeQuery(root, maxSteps)
  {
    hide EncRelation, Visits, Normal, Valid, Fragment;
    var normalizer := new Normalizer(maxSteps);
    var result := normalizer.RelationNode(root, Done);
    match result {
      case Failure(origin) => return NotNormalized(Refusal(IndMissingRewrite, origin));
      case Success(normal) =>
        var semantic := Encode(false, normal);
        var provenance := Encode(true, root);
        var structural := new KeyEncoder(false);
        ghost var r3 := Token(provenance, End);
        ghost var r2 := Token("input-provenance-v1", r3);
        ghost var r1 := Token(semantic, r2);
        structural.Write("normal-form-v1", r1);
        structural.Write(semantic, r2);
        structural.Write("input-provenance-v1", r3);
        structural.Write(provenance, End);
        assert structural.output + Render(End) == structural.output;
        assert "" + Render(Token("normal-form-v1", r1)) == Render(Token("normal-form-v1", r1));
        return Normalized(NormalizedQuery(normal, semantic, structural.output));
    }
  }
}
