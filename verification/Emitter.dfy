/** Emission as the crate runs it: text is built bottom up while a binder counter
    and a depth counter move in place. The text is the printed form of the query
    the emission functions describe. */
module CanonicalEmitter {
  import opened Basics
  import opened Text
  import opened Relational
  import opened Surface
  import opened Canonical

  // ---------- texts and what they print ----------

  ghost predicate Prints(text: string, q: Query) {
    forall rest: string :: PrintQuery(q, rest) == text + rest
  }

  ghost predicate PrintsExpr(text: string, x: Expr) {
    forall rest: string :: PrintExpr(x, rest) == text + rest
  }

  ghost predicate PrintsStep(text: string, step: Step) {
    forall rest: string :: PrintStep(step, rest) == text + rest
  }

  /** The name in quotes if it is no identifier. */
  function NameText(name: string): (text: string)
    ensures forall rest: string :: ColumnName(name, rest) == text + rest
  {
    assert forall rest: string :: Quoted(name, rest) == ("'" + (DoubleQuotes(name) + "'")) + rest;
    if IsIdentifier(name) then name else "'" + (DoubleQuotes(name) + "'")
  }

  lemma QueryPrintsSelf(text: string, q: Query)
    requires Prints(text, q)
    ensures text == PrintQuery(q, "")
  {
    assert PrintQuery(q, "") == text + "";
  }

  lemma MemberPrints(text: string, x: Expr, name: string)
    requires PrintsExpr(text, x)
    ensures PrintsExpr(text + ("." + name), Chain(x.root, x.members + [name]))
  {
    forall rest: string ensures PrintExpr(Chain(x.root, x.members + [name]), rest) == (text + ("." + name)) + rest {
      PrintMembersAppend(x.members, name, rest);
      assert PrintExpr(x, "." + (name + rest)) == text + ("." + (name + rest));
    }
  }

  lemma ComparisonPrints(l: string, left: Expr, r: string, right: Expr)
    requires PrintsExpr(l, left) && PrintsExpr(r, right)
    ensures PrintsExpr("(" + (l + (" == " + (r + ")"))), Chain(EqualRoot(left, right), []))
    ensures PrintsExpr("(" + (l + (" != " + (r + ")"))), Chain(NotEqualRoot(left, right), []))
  {
    forall rest: string ensures PrintExpr(Chain(EqualRoot(left, right), []), rest) == ("(" + (l + (" == " + (r + ")")))) + rest {
      assert PrintExpr(left, " == " + PrintExpr(right, ")" + rest)) == l + (" == " + (r + (")" + rest)));
    }
    forall rest: string ensures PrintExpr(Chain(NotEqualRoot(left, right), []), rest) == ("(" + (l + (" != " + (r + ")")))) + rest {
      assert PrintExpr(left, " != " + PrintExpr(right, ")" + rest)) == l + (" != " + (r + (")" + rest)));
    }
  }

  /** Appending a step's text prints the query with that step. */
  lemma StepPrints(text: string, q: Query, stepText: string, step: Step)
    requires Prints(text, q) && PrintsStep(stepText, step)
    ensures Prints(text + stepText, AddStep(q, step))
  {
    hide PrintStep, PrintSteps;
    forall rest: string ensures PrintQuery(AddStep(q, step), rest) == (text + stepText) + rest {
      PrintStepsAppend(q.steps, step, rest);
      assert PrintQuery(q, PrintStep(step, rest)) == text + PrintStep(step, rest);
    }
  }

  lemma LambdaPrints(head: string, binder: string, text: string, x: Expr)
    requires PrintsExpr(text, x)
    ensures forall rest: string :: head + (binder + ("| " + PrintExpr(x, ")" + rest))) == (head + (binder + ("| " + (text + ")")))) + rest
  {
    forall rest: string
      ensures head + (binder + ("| " + PrintExpr(x, ")" + rest))) == (head + (binder + ("| " + (text + ")")))) + rest
    {
      assert PrintExpr(x, ")" + rest) == text + (")" + rest);
    }
  }

  /** One more piece in front of a text with something after it. */
  lemma InFront(piece: string, whole: string, text: string, rest: string)
    requires whole == text + rest
    ensures piece + whole == (piece + text) + rest
  {
  }

  lemma Enclosed(head: string, text: string, close: string, rest: string)
    ensures head + (text + (close + rest)) == (head + (text + close)) + rest
  {
  }

  /** What follows the right operand of a join. */
  function JoinTail(l: string, r: string, text: string): string {
    ", JoinKind.INNER, {" + (l + (", " + (r + (" | " + (text + "})")))))
  }

  lemma JoinTailPrints(l: string, r: string, text: string, x: Expr, rest: string)
    requires PrintsExpr(text, x)
    ensures ", JoinKind.INNER, {" + (l + (", " + (r + (" | " + PrintExpr(x, "})" + rest))))) == JoinTail(l, r, text) + rest
  {
    hide PrintExpr;
    var t0, w0 := text + "})", PrintExpr(x, "})" + rest);
    assert w0 == text + ("})" + rest);
    InFront(" | ", w0, t0, rest);
    InFront(r, " | " + w0, " | " + t0, rest);
    InFront(", ", r + (" | " + w0), r + (" | " + t0), rest);
    InFront(l, ", " + (r + (" | " + w0)), ", " + (r + (" | " + t0)), rest);
    InFront(", JoinKind.INNER, {", l + (", " + (r + (" | " + w0))), l + (", " + (r + (" | " + t0))), rest);
  }

  lemma JoinPrints(rightText: string, right: Query, l: string, r: string, text: string, x: Expr)
    requires Prints(rightText, right) && PrintsExpr(text, x)
    ensures PrintsStep("->join(" + (rightText + JoinTail(l, r, text)), JoinStep(right, false, l, r, x))
  {
    hide PrintExpr, PrintQuery, JoinTail, PrintsExpr;
    forall rest: string
      ensures PrintStep(JoinStep(right, false, l, r, x), rest) == ("->join(" + (rightText + JoinTail(l, r, text))) + rest
    {
      JoinTailPrints(l, r, text, x, rest);
      var others := JoinTail(l, r, text) + rest;
      assert PrintQuery(right, others) == rightText + others;
    }
  }

  // ---------- comma-separated lists ----------

  /** `join(", ")`. */
  function Commas(parts: seq<string>): string {
    if parts == [] then "" else if |parts| == 1 then parts[0] else parts[0] + (", " + Commas(parts[1..]))
  }

  ghost predicate PrintsSpecs(parts: seq<string>, specs: seq<ColumnSpec>) {
    |parts| == |specs| && forall i :: 0 <= i < |specs| ==> forall rest: string :: PrintSpec(specs[i], rest) == parts[i] + rest
  }

  lemma NoSpecsPrint()
    ensures PrintsSpecs([], [])
  {
  }

  /** One column of a project: its name, the shared binder and the expression. */
  function SpecText(alias: string, binder: string, text: string): string {
    NameText(alias) + (": " + (binder + (" | " + text)))
  }

  lemma SpecPrints(name: string, text: string, spec: ColumnSpec)
    requires name == NameText(spec.alias) && PrintsExpr(text, spec.body)
    ensures forall rest: string :: PrintSpec(spec, rest) == (name + (": " + (spec.parameter + (" | " + text)))) + rest
  {
    hide PrintExpr, NameText, ColumnName;
    forall rest: string ensures PrintSpec(spec, rest) == (name + (": " + (spec.parameter + (" | " + text)))) + rest {
      var whole := PrintExpr(spec.body, rest);
      InFront(" | ", whole, text, rest);
      InFront(spec.parameter, " | " + whole, " | " + text, rest);
      InFront(": ", spec.parameter + (" | " + whole), spec.parameter + (" | " + text), rest);
      InFront(name, ": " + (spec.parameter + (" | " + whole)), ": " + (spec.parameter + (" | " + text)), rest);
    }
  }

  lemma AppendSpec(parts: seq<string>, specs: seq<ColumnSpec>, text: string, spec: ColumnSpec)
    requires PrintsSpecs(parts, specs) && PrintsExpr(text, spec.body)
    ensures PrintsSpecs(parts + [SpecText(spec.alias, spec.parameter, text)], specs + [spec])
  {
    hide PrintSpec, NameText, PrintsExpr;
    SpecPrints(NameText(spec.alias), text, spec);
  }

  lemma {:induction false} SpecListPrints(parts: seq<string>, specs: seq<ColumnSpec>, rest: string)
    requires PrintsSpecs(parts, specs)
    ensures PrintSpecs(specs, rest) == Commas(parts) + rest
  {
    hide PrintSpec;
    if specs != [] {
      SpecListPrints(parts[1..], specs[1..], rest);
      assert PrintSpec(specs[0], PrintMoreSpecs(specs[1..], rest)) == parts[0] + PrintMoreSpecs(specs[1..], rest);
    }
  }

  function NameTexts(names: seq<string>): seq<string> {
    seq(|names|, i requires 0 <= i < |names| => NameText(names[i]))
  }

  lemma {:induction false} NameListPrints(names: seq<string>, rest: string)
    ensures PrintNames(names, rest) == Commas(NameTexts(names)) + rest
  {
    hide NameText;
    if names != [] {
      NameListPrints(names[1..], rest);
      assert NameTexts(names)[1..] == NameTexts(names[1..]);
      assert ColumnName(names[0], PrintMoreNames(names[1..], rest)) == NameText(names[0]) + PrintMoreNames(names[1..], rest);
    }
  }

  function KeyText(key: KeySpec): (text: string)
    ensures forall rest: string :: PrintKey(key, rest) == text + rest
  {
    var name := NameText(key.column);
    assert forall rest: string :: KeyHead(key.direction) + ColumnName(key.column, ")" + rest) == (KeyHead(key.direction) + (name + ")")) + rest;
    KeyHead(key.direction) + (name + ")")
  }

  function KeyTexts(keys: seq<KeySpec>): seq<string> {
    seq(|keys|, i requires 0 <= i < |keys| => KeyText(keys[i]))
  }

  lemma {:induction false} KeyListPrints(keys: seq<KeySpec>, rest: string)
    ensures PrintKeys(keys, rest) == Commas(KeyTexts(keys)) + rest
  {
    hide KeyText, PrintKey;
    if keys != [] {
      KeyListPrints(keys[1..], rest);
      assert KeyTexts(keys)[1..] == KeyTexts(keys[1..]);
      assert PrintKey(keys[0], PrintMoreKeys(keys[1..], rest)) == KeyText(keys[0]) + PrintMoreKeys(keys[1..], rest);
    }
  }

  lemma ProjectPrints(parts: seq<string>, specs: seq<ColumnSpec>)
    requires PrintsSpecs(parts, specs)
    ensures PrintsStep("->project(~[" + (Commas(parts) + "])"), ProjectStep(specs))
  {
    hide PrintSpecs, Commas, PrintsSpecs;
    forall rest: string ensures PrintStep(ProjectStep(specs), rest) == ("->project(~[" + (Commas(parts) + "])")) + rest {
      SpecListPrints(parts, specs, "])" + rest);
      Enclosed("->project(~[", Commas(parts), "])", rest);
    }
  }

  lemma DistinctOnPrints(names: seq<string>)
    ensures PrintsStep("->distinct(~[" + (Commas(NameTexts(names)) + "])"), DistinctOnStep(names))
  {
    hide PrintNames, Commas, NameTexts;
    forall rest: string ensures PrintStep(DistinctOnStep(names), rest) == ("->distinct(~[" + (Commas(NameTexts(names)) + "])")) + rest {
      NameListPrints(names, "])" + rest);
      Enclosed("->distinct(~[", Commas(NameTexts(names)), "])", rest);
    }
  }

  lemma SortPrints(keys: seq<KeySpec>)
    ensures PrintsStep("->sort([" + (Commas(KeyTexts(keys)) + "])"), SortStep(keys))
  {
    hide PrintKeys, Commas, KeyTexts;
    forall rest: string ensures PrintStep(SortStep(keys), rest) == ("->sort([" + (Commas(KeyTexts(keys)) + "])")) + rest {
      KeyListPrints(keys, "])" + rest);
      Enclosed("->sort([", Commas(KeyTexts(keys)), "])", rest);
    }
  }

  // ---------- references as text ----------

  type TextReferences = map<ColumnId, string>

  ghost predicate PrintsReferences(texts: TextReferences, references: References) {
    texts.Keys == references.Keys && forall id :: id in references ==> PrintsExpr(texts[id], references[id])
  }

  /** `references_for_binding`. */
  function TextReferencesFor(binding: BindingKind, schema: Schema, binder: string): Option<TextReferences> {
    match binding
    case ColumnBinding => if |schema| == 1 then Some(map[schema[0].id := "$" + binder]) else None
    case RowBinding =>
      if NamesAreUnique(schema) && (forall i :: 0 <= i < |schema| ==> IsIdentifier(schema[i].name))
      then Some(map id | id in Ids(schema) :: "$" + (binder + ("." + ColumnAt(schema, id).name)))
      else None
    case NoBinding => None
  }

  lemma VariablePrints(binder: string)
    ensures PrintsExpr("$" + binder, Chain(Variable(binder), []))
  {
  }

  lemma ReferencesPrint(binding: BindingKind, schema: Schema, binder: string)
    ensures TextReferencesFor(binding, schema, binder).Some? <==> ReferencesFor(binding, schema, binder).Some?
    ensures ReferencesFor(binding, schema, binder).Some? ==>
              PrintsReferences(TextReferencesFor(binding, schema, binder).value, ReferencesFor(binding, schema, binder).value)
  {
    hide PrintsExpr, NamesAreUnique, IsIdentifier, ColumnAt;
    VariablePrints(binder);
    forall id | id in Ids(schema)
      ensures PrintsExpr("$" + (binder + ("." + ColumnAt(schema, id).name)), Chain(Variable(binder), [ColumnAt(schema, id).name]))
    {
      var name := ColumnAt(schema, id).name;
      MemberPrints("$" + binder, Chain(Variable(binder), []), name);
      assert [] + [name] == [name];
      assert ("$" + binder) + ("." + name) == "$" + (binder + ("." + name));
    }
  }

  lemma LiteralPrints(l: ScalarLiteral)
    requires !l.NullLiteral?
    ensures PrintsExpr(LiteralText(l), EmitLiteral(l).value)
  {
    if l.StringLiteral? {
      var s := l.s;
      assert forall rest: string :: Quoted(s, rest) == ("'" + (DoubleQuotes(s) + "'")) + rest;
    }
  }

  /** `literal_text`. */
  function LiteralText(l: ScalarLiteral): string
    requires !l.NullLiteral?
  {
    match l
    case BooleanLiteral(b) => if b then "true" else "false"
    case IntegerLiteral(i) => SignedDecimal(i)
    case StringLiteral(s) => "'" + (DoubleQuotes(s) + "'")
  }

  // ---------- a project's columns, one after another ----------

  /** With `done` emitted and `rest` the outcome of what is left, `all` is the outcome of the whole. */
  ghost predicate Remaining(all: Emission<seq<ColumnSpec>>, done: seq<ColumnSpec>, rest: Emission<seq<ColumnSpec>>) {
    match rest
    case Failure(origin) => all == Failure(origin)
    case Success(others) => all == Success(done + others)
  }

  lemma AllRemain(projections: seq<Projection>, schema: Schema, references: References, binder: string, depth: nat)
    requires |projections| == |schema|
    ensures var all := EmitSpecs(projections, schema, references, binder, depth);
            Remaining(all, [], EmitSpecs(projections[0..], schema[0..], references, binder, depth))
  {
    assert projections[0..] == projections && schema[0..] == schema;
    var all := EmitSpecs(projections, schema, references, binder, depth);
    assert all.Success? ==> [] + all.value == all.value;
  }

  lemma OneLessRemains(projections: seq<Projection>, schema: Schema, references: References, binder: string, depth: nat, i: nat,
                       all: Emission<seq<ColumnSpec>>, done: seq<ColumnSpec>)
    requires i < |projections| == |schema|
    requires Remaining(all, done, EmitSpecs(projections[i..], schema[i..], references, binder, depth))
    ensures var first := EmitScalar(projections[i].expression, references, depth);
            && (first.Failure? ==> all == Failure(first.error))
            && (first.Success? ==>
                  Remaining(all, done + [ColumnSpec(schema[i].name, binder, first.value)],
                            EmitSpecs(projections[i + 1..], schema[i + 1..], references, binder, depth)))
  {
    hide EmitScalar;
    assert projections[i..][1..] == projections[i + 1..] && schema[i..][1..] == schema[i + 1..];
    var first := EmitScalar(projections[i].expression, references, depth);
    var others := EmitSpecs(projections[i + 1..], schema[i + 1..], references, binder, depth);
    if first.Success? && others.Success? {
      var spec := ColumnSpec(schema[i].name, binder, first.value);
      assert (done + [spec]) + others.value == done + ([spec] + others.value);
    }
  }

  lemma NoneRemain(projections: seq<Projection>, schema: Schema, references: References, binder: string, depth: nat,
                   all: Emission<seq<ColumnSpec>>, done: seq<ColumnSpec>)
    requires |projections| == |schema|
    requires Remaining(all, done, EmitSpecs(projections[|projections|..], schema[|projections|..], references, binder, depth))
    ensures all == Success(done)
  {
    assert done + [] == done;
  }

  // ---------- the emitter ----------

  datatype EmittedText = EmittedText(text: string, binding: BindingKind)

  class Emitter {
    var nextBinder: nat
    var depth: nat

    constructor ()
      ensures nextBinder == 0 && depth == 0
    {
      nextBinder := 0;
      depth := 0;
    }

    /** The text is the described query's, and the binder counter stands where it says. */
    ghost predicate Emits(r: Emission<EmittedText>, spec: Emission<Emitted>)
      reads this
    {
      match spec
      case Failure(origin) => r == Failure(origin)
      case Success(em) => r.Success? && Prints(r.value.text, em.query) && r.value.binding == em.binding && nextBinder == em.nextBinder
    }

    static ghost predicate EmitsExpr(r: Emission<string>, spec: Emission<Expr>) {
      match spec
      case Failure(origin) => r == Failure(origin)
      case Success(x) => r.Success? && PrintsExpr(r.value, x)
    }

    method Enter(origin: IrOrigin) returns (r: Emission<()>)
      modifies this`depth
      ensures old(depth) >= MAX_RELATIONAL_RECURSION_DEPTH ==> r == Failure(origin) && depth == old(depth)
      ensures old(depth) < MAX_RELATIONAL_RECURSION_DEPTH ==> r.Success? && depth == old(depth) + 1
    {
      if depth >= MAX_RELATIONAL_RECURSION_DEPTH {
        return Failure(origin);
      }
      depth := depth + 1;
      return Success(());
    }

    method NextBinder(origin: IrOrigin) returns (r: Emission<string>)
      modifies this`nextBinder
      ensures HasBinders(old(nextBinder), 1) ==> r == Success(Binder(old(nextBinder))) && nextBinder == old(nextBinder) + 1
      ensures !HasBinders(old(nextBinder), 1) ==> r == Failure(origin) && nextBinder == old(nextBinder)
    {
      var index := nextBinder;
      if index + 1 > USIZE_MAX {
        return Failure(origin);
      }
      nextBinder := index + 1;
      return Success(Binder(index));
    }

    method ScalarText(e: Scalar, texts: TextReferences, ghost references: References) returns (r: Emission<string>)
      requires PrintsReferences(texts, references)
      modifies this`depth
      ensures EmitsExpr(r, EmitScalar(e, references, old(depth))) && depth == old(depth)
      decreases e, 1
    {
      hide PrintsReferences, EmitScalarOperator, PrintsExpr;
      var entered := Enter(e.origin);
      if entered.Failure? {
        return Failure(entered.error);
      }
      r := ScalarAtDepth(e, texts, references);
      depth := depth - 1;
    }

    method ScalarAtDepth(e: Scalar, texts: TextReferences, ghost references: References) returns (r: Emission<string>)
      requires PrintsReferences(texts, references)
      modifies this`depth
      ensures EmitsExpr(r, EmitScalarOperator(e, references, old(depth))) && depth == old(depth)
      decreases e, 0
    {
      hide PrintsExpr, EmitScalar, IsIdentifier, LiteralText;
      match e.operator {
        case ColumnRead(id) =>
          return if id in texts then Success(texts[id]) else Failure(e.origin);
        case Literal(l) =>
          if l.NullLiteral? {
            return Failure(e.origin);
          }
          LiteralPrints(l);
          return Success(LiteralText(l));
        case Navigation(input, navigation) =>
          r := ScalarText(input, texts, references);
          if r.Failure? {
            return;
          }
          var name := navigation.member.name;
          if !IsIdentifier(name) {
            return Failure(e.origin);
          }
          MemberPrints(r.value, EmitScalar(input, references, depth).value, name);
          return Success(r.value + ("." + name));
        case Equal(left, right) =>
          var l := ScalarText(left, texts, references);
          if l.Failure? {
            return l;
          }
          r := ScalarText(right, texts, references);
          if r.Failure? {
            return;
          }
          ComparisonPrints(l.value, EmitScalar(left, references, depth).value, r.value, EmitScalar(right, references, depth).value);
          return Success("(" + (l.value + (" == " + (r.value + ")"))));
        case Not(input) =>
          if !input.operator.Equal? {
            return Failure(e.origin);
          }
          var left, right := input.operator.left, input.operator.right;
          var l := ScalarText(left, texts, references);
          if l.Failure? {
            return l;
          }
          r := ScalarText(right, texts, references);
          if r.Failure? {
            return;
          }
          ComparisonPrints(l.value, EmitScalar(left, references, depth).value, r.value, EmitScalar(right, references, depth).value);
          return Success("(" + (l.value + (" != " + (r.value + ")"))));
      }
    }

    /** `collect` over the projections: the first failure ends the loop. */
    method SpecTexts(projections: seq<Projection>, schema: Schema, texts: TextReferences, ghost references: References, binder: string)
      returns (r: Emission<seq<string>>)
      requires |projections| == |schema| && PrintsReferences(texts, references)
      modifies this`depth
      ensures depth == old(depth)
      ensures match EmitSpecs(projections, schema, references, binder, old(depth))
              case Failure(origin) => r == Failure(origin)
              case Success(specs) => r.Success? && PrintsSpecs(r.value, specs)
    {
      hide PrintsReferences, PrintSpec, EmitScalar, EmitSpecs, PrintsExpr, PrintsSpecs, SpecText, Remaining;
      var parts: seq<string> := [];
      ghost var done: seq<ColumnSpec> := [];
      ghost var all := EmitSpecs(projections, schema, references, binder, depth);
      NoSpecsPrint();
      AllRemain(projections, schema, references, binder, depth);
      for i := 0 to |projections|
        invariant depth == old(depth) && PrintsSpecs(parts, done)
        invariant Remaining(all, done, EmitSpecs(projections[i..], schema[i..], references, binder, depth))
      {
        var x := ScalarText(projections[i].expression, texts, references);
        OneLessRemains(projections, schema, references, binder, depth, i, all, done);
        if x.Failure? {
          return Failure(x.error);
        }
        ghost var spec := ColumnSpec(schema[i].name, binder, EmitScalar(projections[i].expression, references, depth).value);
        AppendSpec(parts, done, x.value, spec);
        parts := parts + [SpecText(schema[i].name, binder, x.value)];
        done := done + [spec];
      }
      NoneRemain(projections, schema, references, binder, depth, all, done);
      return Success(parts);
    }

    method Relation(e: Relation) returns (r: Emission<EmittedText>)
      modifies this
      ensures Emits(r, EmitRelation(e, old(nextBinder), old(depth))) && depth == old(depth)
      decreases e, 2
    {
      hide EmitOperator, Prints;
      var entered := Enter(e.origin);
      if entered.Failure? {
        return Failure(entered.error);
      }
      r := RelationAtDepth(e);
      depth := depth - 1;
    }

    method RelationAtDepth(e: Relation) returns (r: Emission<EmittedText>)
      modifies this
      ensures Emits(r, EmitOperator(e, old(nextBinder), old(depth))) && depth == old(depth)
      decreases e, 1
    {
      hide EmitRelation, EmitScan, EmitFilter, EmitProject, EmitJoin, EmitDistinct, EmitDistinctOn, EmitSort, Prints;
      match e.operator {
        case Scan(c) => r := ScanText(e, c);
        case Join(_, left, right, condition) =>
          var l := Relation(left);
          if l.Failure? {
            return l;
          }
          ghost var first := EmitRelation(left, old(nextBinder), depth).value;
          var rr := Relation(right);
          if rr.Failure? {
            return rr;
          }
          r := JoinText(e, left, right, condition, l.value, rr.value, first, EmitRelation(right, first.nextBinder, depth).value);
        case Filter(input, condition) =>
          var i := Relation(input);
          if i.Failure? {
            return i;
          }
          r := FilterText(e, input, condition, i.value, EmitRelation(input, old(nextBinder), depth).value);
        case Project(input, projections, kind) =>
          var i := Relation(input);
          if i.Failure? {
            return i;
          }
          r := ProjectText(e, input, projections, kind, i.value, EmitRelation(input, old(nextBinder), depth).value);
        case Distinct(input) =>
          var i := Relation(input);
          if i.Failure? {
            return i;
          }
          r := DistinctText(e, input, i.value, EmitRelation(input, old(nextBinder), depth).value);
        case DistinctOn(input, columns) =>
          var i := Relation(input);
          if i.Failure? {
            return i;
          }
          r := DistinctOnText(e, input, columns, i.value, EmitRelation(input, old(nextBinder), depth).value);
        case Sort(input, keys) =>
          var i := Relation(input);
          if i.Failure? {
            return i;
          }
          r := SortText(e, input, keys, i.value, EmitRelation(input, old(nextBinder), depth).value);
      }
    }

    method ScanText(e: Relation, c: ResolvedClass) returns (r: Emission<EmittedText>)
      ensures Emits(r, EmitScan(e, c, nextBinder))
    {
      if !e.facts.AreUnknown() || !IsEmittablePath(c.path) || !ScanSchemaMatches(e.schema, c.path) {
        return Failure(e.origin);
      }
      assert forall rest: string :: PrintQuery(Query(c.path, []), rest) == (c.path + ".all()") + rest;
      return Success(EmittedText(c.path + ".all()", ColumnBinding));
    }

    method FilterText(e: Relation, source: Relation, condition: Scalar, input: EmittedText, ghost em: Emitted) returns (r: Emission<EmittedText>)
      requires Prints(input.text, em.query) && input.binding == em.binding && nextBinder == em.nextBinder
      modifies this
      ensures Emits(r, EmitFilter(e, source, condition, em, old(depth))) && depth == old(depth)
    {
      hide Prints, PrintsExpr, EmitScalar, ReferencesFor, TextReferencesFor, PrintsReferences, PrintExpr, Binder;
      if e.schema != source.schema || !e.facts.Matches(source.facts) {
        return Failure(e.origin);
      }
      var binder := NextBinder(e.origin);
      if binder.Failure? {
        return Failure(binder.error);
      }
      var texts := TextReferencesFor(input.binding, source.schema, binder.value);
      ReferencesPrint(input.binding, source.schema, binder.value);
      if texts.None? {
        return Failure(e.origin);
      }
      ghost var references := ReferencesFor(input.binding, source.schema, binder.value).value;
      var x := ScalarText(condition, texts.value, references);
      if x.Failure? {
        return Failure(x.error);
      }
      ghost var body := EmitScalar(condition, references, depth).value;
      LambdaPrints("->filter(", binder.value, x.value, body);
      var text := "->filter(" + (binder.value + ("| " + (x.value + ")")));
      StepPrints(input.text, em.query, text, FilterStep(binder.value, body));
      return Success(EmittedText(input.text + text, input.binding));
    }

    method ProjectText(e: Relation, source: Relation, projections: seq<Projection>, kind: ProjectionKind, input: EmittedText, ghost em: Emitted)
      returns (r: Emission<EmittedText>)
      requires Prints(input.text, em.query) && input.binding == em.binding && nextBinder == em.nextBinder
      modifies this
      ensures Emits(r, EmitProject(e, source, projections, kind, em, old(depth))) && depth == old(depth)
    {
      hide Prints, EmitMap, EmitRelationProject;
      if !e.facts.AreUnknown() || !ProjectShapeMatches(e.schema, projections) {
        return Failure(e.origin);
      }
      if kind == ScalarProjection {
        r := MapText(e, source, projections, input, em);
      } else {
        r := RelationProjectText(e, source, projections, input, em);
      }
    }

    method MapText(e: Relation, source: Relation, projections: seq<Projection>, input: EmittedText, ghost em: Emitted) returns (r: Emission<EmittedText>)
      requires Prints(input.text, em.query) && input.binding == em.binding && nextBinder == em.nextBinder
      modifies this
      ensures Emits(r, EmitMap(e, source, projections, em, old(depth))) && depth == old(depth)
    {
      hide Prints, PrintsExpr, EmitScalar, ReferencesFor, TextReferencesFor, PrintsReferences, PrintExpr, Binder;
      if |projections| != 1 || input.binding == NoBinding {
        return Failure(e.origin);
      }
      var binder := NextBinder(e.origin);
      if binder.Failure? {
        return Failure(binder.error);
      }
      var texts := TextReferencesFor(input.binding, source.schema, binder.value);
      ReferencesPrint(input.binding, source.schema, binder.value);
      if texts.None? {
        return Failure(e.origin);
      }
      ghost var references := ReferencesFor(input.binding, source.schema, binder.value).value;
      var x := ScalarText(projections[0].expression, texts.value, references);
      if x.Failure? {
        return Failure(x.error);
      }
      ghost var body := EmitScalar(projections[0].expression, references, depth).value;
      LambdaPrints("->map(", binder.value, x.value, body);
      var text := "->map(" + (binder.value + ("| " + (x.value + ")")));
      StepPrints(input.text, em.query, text, MapStep(binder.value, body));
      return Success(EmittedText(input.text + text, ColumnBinding));
    }

    method RelationProjectText(e: Relation, source: Relation, projections: seq<Projection>, input: EmittedText, ghost em: Emitted)
      returns (r: Emission<EmittedText>)
      requires |projections| == |e.schema|
      requires Prints(input.text, em.query) && input.binding == em.binding && nextBinder == em.nextBinder
      modifies this
      ensures Emits(r, EmitRelationProject(e, source, projections, em, old(depth))) && depth == old(depth)
    {
      hide Prints, EmitSpecs, ReferencesFor, TextReferencesFor, PrintsReferences, PrintsSpecs, Binder, NamesAreUnique, PrintsStep;
      if input.binding != ColumnBinding || !NamesAreUnique(e.schema) {
        return Failure(e.origin);
      }
      var binder := NextBinder(e.origin);
      if binder.Failure? {
        return Failure(binder.error);
      }
      var texts := TextReferencesFor(input.binding, source.schema, binder.value);
      ReferencesPrint(input.binding, source.schema, binder.value);
      if texts.None? {
        return Failure(e.origin);
      }
      ghost var references := ReferencesFor(input.binding, source.schema, binder.value).value;
      var parts := SpecTexts(projections, e.schema, texts.value, references, binder.value);
      if parts.Failure? {
        return Failure(parts.error);
      }
      ghost var specs := EmitSpecs(projections, e.schema, references, binder.value, depth).value;
      ProjectPrints(parts.value, specs);
      var text := "->project(~[" + (Commas(parts.value) + "])");
      StepPrints(input.text, em.query, text, ProjectStep(specs));
      return Success(EmittedText(input.text + text, RowBinding));
    }

    method JoinText(e: Relation, left: Relation, right: Relation, condition: Scalar, l: EmittedText, rr: EmittedText, ghost first: Emitted, ghost second: Emitted)
      returns (r: Emission<EmittedText>)
      requires Prints(l.text, first.query) && l.binding == first.binding
      requires Prints(rr.text, second.query) && rr.binding == second.binding && nextBinder == second.nextBinder
      modifies this
      ensures Emits(r, EmitJoin(e, left, right, condition, first, second, old(depth))) && depth == old(depth)
    {
      hide Prints, PrintsExpr, EmitScalar, ReferencesFor, TextReferencesFor, PrintExpr, Binder, PrintsStep, JoinTail;
      if !e.facts.AreUnknown() || e.schema != left.schema + right.schema || l.binding != ColumnBinding || rr.binding != ColumnBinding {
        return Failure(e.origin);
      }
      var leftBinder := NextBinder(e.origin);
      if leftBinder.Failure? {
        return Failure(leftBinder.error);
      }
      var rightBinder := NextBinder(e.origin);
      if rightBinder.Failure? {
        return Failure(rightBinder.error);
      }
      var leftTexts := TextReferencesFor(l.binding, left.schema, leftBinder.value);
      var rightTexts := TextReferencesFor(rr.binding, right.schema, rightBinder.value);
      ReferencesPrint(l.binding, left.schema, leftBinder.value);
      ReferencesPrint(rr.binding, right.schema, rightBinder.value);
      if leftTexts.None? || rightTexts.None? || leftTexts.value.Keys * rightTexts.value.Keys != {} {
        return Failure(e.origin);
      }
      ghost var references :=
        ReferencesFor(l.binding, left.schema, leftBinder.value).value + ReferencesFor(rr.binding, right.schema, rightBinder.value).value;
      var x := ScalarText(condition, leftTexts.value + rightTexts.value, references);
      if x.Failure? {
        return Failure(x.error);
      }
      ghost var body := EmitScalar(condition, references, depth).value;
      JoinPrints(rr.text, second.query, leftBinder.value, rightBinder.value, x.value, body);
      var text := "->join(" + (rr.text + JoinTail(leftBinder.value, rightBinder.value, x.value));
      StepPrints(l.text, first.query, text, JoinStep(second.query, false, leftBinder.value, rightBinder.value, body));
      return Success(EmittedText(l.text + text, NoBinding));
    }

    method DistinctText(e: Relation, source: Relation, input: EmittedText, ghost em: Emitted) returns (r: Emission<EmittedText>)
      requires Prints(input.text, em.query) && input.binding == em.binding && nextBinder == em.nextBinder
      ensures Emits(r, EmitDistinct(e, source, em))
    {
      hide Prints;
      if input.binding == NoBinding || e.schema != source.schema || !FactsAreDistinctSet(e.facts) {
        return Failure(e.origin);
      }
      assert PrintsStep("->distinct()", DistinctStep);
      StepPrints(input.text, em.query, "->distinct()", DistinctStep);
      return Success(EmittedText(input.text + "->distinct()", input.binding));
    }

    method SelectorTexts(columns: seq<ColumnId>, schema: Schema) returns (r: Option<seq<string>>)
      ensures SelectorNames(columns, schema).None? ==> r == None
      ensures SelectorNames(columns, schema).Some? ==> r == Some(NameTexts(SelectorNames(columns, schema).value))
    {
      hide NameText;
      var parts: seq<string> := [];
      ghost var done: seq<string> := [];
      ghost var all := SelectorNames(columns, schema);
      assert columns[0..] == columns;
      assert all.Some? ==> done + all.value == all.value;
      for i := 0 to |columns|
        invariant parts == NameTexts(done)
        invariant match SelectorNames(columns[i..], schema)
                  case None => all == None
                  case Some(others) => all == Some(done + others)
      {
        assert columns[i..][1..] == columns[i + 1..];
        var column := FindColumn(schema, columns[i]);
        if column.None? {
          return None;
        }
        var name := column.value.name;
        parts := parts + [NameText(name)];
        ghost var others := SelectorNames(columns[i + 1..], schema);
        assert others.Some? ==> (done + [name]) + others.value == done + ([name] + others.value);
        done := done + [name];
      }
      assert done + [] == done;
      return Some(parts);
    }

    method DistinctOnText(e: Relation, source: Relation, columns: seq<ColumnId>, input: EmittedText, ghost em: Emitted) returns (r: Emission<EmittedText>)
      requires Prints(input.text, em.query) && input.binding == em.binding && nextBinder == em.nextBinder
      ensures Emits(r, EmitDistinctOn(e, source, columns, em))
    {
      hide Prints, PrintsStep, NamesAreUnique, NameText, Commas, SelectorNames;
      if input.binding == ColumnBinding || !e.facts.AreUnknown() || !NamesAreUnique(source.schema) {
        return Failure(e.origin);
      }
      var parts := SelectorTexts(columns, source.schema);
      if parts.None? || parts.value == [] {
        return Failure(e.origin);
      }
      ghost var names := SelectorNames(columns, source.schema).value;
      DistinctOnPrints(names);
      var text := "->distinct(~[" + (Commas(parts.value) + "])");
      StepPrints(input.text, em.query, text, DistinctOnStep(names));
      return Success(EmittedText(input.text + text, input.binding));
    }

    method SortKeyTexts(keys: seq<SortKey>, schema: Schema) returns (r: Option<seq<string>>)
      ensures EmitKeys(keys, schema).None? ==> r == None
      ensures EmitKeys(keys, schema).Some? ==> r == Some(KeyTexts(EmitKeys(keys, schema).value))
    {
      hide KeyText;
      var parts: seq<string> := [];
      ghost var done: seq<KeySpec> := [];
      ghost var all := EmitKeys(keys, schema);
      assert keys[0..] == keys;
      assert all.Some? ==> done + all.value == all.value;
      for i := 0 to |keys|
        invariant parts == KeyTexts(done)
        invariant match EmitKeys(keys[i..], schema)
                  case None => all == None
                  case Some(others) => all == Some(done + others)
      {
        assert keys[i..][1..] == keys[i + 1..];
        var column := FindColumn(schema, keys[i].column);
        if column.None? {
          return None;
        }
        var key := KeySpec(keys[i].direction, column.value.name);
        parts := parts + [KeyText(key)];
        ghost var others := EmitKeys(keys[i + 1..], schema);
        assert others.Some? ==> (done + [key]) + others.value == done + ([key] + others.value);
        done := done + [key];
      }
      assert done + [] == done;
      return Some(parts);
    }

    method SortText(e: Relation, source: Relation, keys: seq<SortKey>, input: EmittedText, ghost em: Emitted) returns (r: Emission<EmittedText>)
      requires Prints(input.text, em.query) && input.binding == em.binding && nextBinder == em.nextBinder
      ensures Emits(r, EmitSort(e, source, keys, em))
    {
      hide Prints, PrintsStep, NamesAreUnique, KeyText, Commas, EmitKeys;
      if input.binding == ColumnBinding || e.schema != source.schema || !e.facts.Matches(source.facts) || !NamesAreUnique(source.schema) {
        return Failure(e.origin);
      }
      var parts := SortKeyTexts(keys, source.schema);
      if parts.None? || parts.value == [] {
        return Failure(e.origin);
      }
      ghost var specs := EmitKeys(keys, source.schema).value;
      SortPrints(specs);
      var text := "->sort([" + (Commas(parts.value) + "])");
      StepPrints(input.text, em.query, text, SortStep(specs));
      return Success(EmittedText(input.text + text, input.binding));
    }
  }

  /** `emit_canonical_normal_form`: the text printed for the relation, or the
      origin that cannot be expressed. */
  method EmitNormalForm(e: Relation) returns (r: Emission<string>)
    ensures match EmitCanonical(e)
            case Failure(origin) => r == Failure(origin)
            case Success(em) => r == Success(PrintQuery(em.query, ""))
  {
    hide EmitRelation, Prints, PrintQuery;
    var emitter := new Emitter();
    var emitted := emitter.Relation(e);
    match emitted {
      case Failure(origin) => return Failure(origin);
      case Success(text) =>
        QueryPrintsSelf(text.text, EmitCanonical(e).value.query);
        return Success(text.text);
    }
  }
}
