/** Canonical text is unambiguous: a query is recovered from its text. */
module Unambiguity {
  import opened Basics
  import opened Text
  import opened Relational
  import opened Surface

  // ---------- the queries emission prints ----------

  ghost predicate ExprWellFormed(e: Expr)
    decreases e
  {
    && (forall m :: m in e.members ==> IsIdentifier(m))
    && match e.root
       case Variable(name) => IsIdentifier(name)
       case BooleanRoot(_) => true
       case IntegerRoot(_) => true
       case StringRoot(_) => true
       case EqualRoot(left, right) => ExprWellFormed(left) && ExprWellFormed(right)
       case NotEqualRoot(left, right) => ExprWellFormed(left) && ExprWellFormed(right)
  }

  ghost predicate SpecWellFormed(spec: ColumnSpec) {
    IsIdentifier(spec.parameter) && ExprWellFormed(spec.body)
  }

  ghost predicate StepWellFormed(step: Step)
    decreases step, 0
  {
    match step
    case PropertyStep(_) => false
    case FilterStep(parameter, body) => IsIdentifier(parameter) && ExprWellFormed(body)
    case MapStep(parameter, body) => IsIdentifier(parameter) && ExprWellFormed(body)
    case ProjectStep(specs) => forall s :: s in specs ==> SpecWellFormed(s)
    case JoinStep(right, grouped, l, r, condition) => !grouped && QueryWellFormed(right) && IsIdentifier(l) && IsIdentifier(r) && ExprWellFormed(condition)
    case DistinctStep => true
    case DistinctOnStep(_) => true
    case SortStep(_) => true
  }

  ghost predicate StepsWellFormed(steps: seq<Step>)
    decreases steps, 1
  {
    steps != [] ==> StepWellFormed(steps[0]) && StepsWellFormed(steps[1..])
  }

  /** Every name that is printed bare is an identifier, and the path is made of them. */
  ghost predicate QueryWellFormed(q: Query)
    decreases q, 2
  {
    IsEmittablePath(q.path) && StepsWellFormed(q.steps)
  }

  // ---------- paths ----------

  /** Every character of a path is a separator or sits in one of its segments. */
  lemma {:induction false} SegmentsCoverPath(path: string, segment: string)
    requires forall s :: s in SplitFrom(path, segment) ==> IsIdentifier(s)
    ensures forall c :: c in path || c in segment ==> IsPathChar(c)
    decreases |path|
  {
    if path == [] {
      assert segment in SplitFrom(path, segment);
      IdentifierChars(segment);
    } else if |path| >= 2 && path[0] == ':' && path[1] == ':' {
      assert segment in SplitFrom(path, segment);
      IdentifierChars(segment);
      SegmentsCoverPath(path[2..], "");
      assert path == [path[0], path[1]] + path[2..];
    } else {
      SegmentsCoverPath(path[1..], segment + [path[0]]);
      assert path == [path[0]] + path[1..];
    }
  }

  lemma IdentifierChars(s: string)
    requires IsIdentifier(s)
    ensures forall c :: c in s ==> IsPathChar(c)
  {
  }

  // ---------- peeling text off the front ----------

  lemma Peel(head: string, x: string, y: string)
    requires head + x == head + y
    ensures x == y
  {
    assert x == (head + x)[|head|..];
    assert y == (head + y)[|head|..];
  }

  lemma HeadChar(head: string, x: string)
    requires head != []
    ensures (head + x)[0] == head[0]
  {
  }

  /** What may follow an expression: it ends every name and number before it. */
  predicate Stops(rest: string) {
    rest != [] && rest[0] in {' ', ')', ',', ']', '}'}
  }

  lemma IdentifierSplits(x: string, r: string, y: string, s: string)
    requires IsIdentifier(x) && IsIdentifier(y) && x + r == y + s
    requires EndsRun(IsIdentifierChar, r) && EndsRun(IsIdentifierChar, s)
    ensures x == y && r == s
  {
    RunSplits(IsIdentifierChar, x, r, y, s);
  }

  predicate NoQuote(rest: string) {
    rest == [] || rest[0] != '\''
  }

  function Doubled(c: char): string {
    if c == '\'' then "''" else [c]
  }

  /** A doubled text, its closing quote, and what follows. */
  function Inside(x: string, r: string): string {
    DoubleQuotes(x) + ("'" + r)
  }

  /** How a doubled text starts tells whether it is empty, and its first character. */
  lemma InsideHead(x: string, r: string)
    requires NoQuote(r)
    ensures Inside(x, r) != []
    ensures x == [] <==> Inside(x, r)[0] == '\'' && (|Inside(x, r)| == 1 || Inside(x, r)[1] != '\'')
    ensures x == [] ==> Inside(x, r) == "'" + r
    ensures x != [] ==> Inside(x, r)[0] == x[0] && Inside(x, r) == Doubled(x[0]) + Inside(x[1..], r)
  {
    if x == [] {
      assert Inside(x, r) == "'" + r;
    } else {
      assert DoubleQuotes(x) == Doubled(x[0]) + DoubleQuotes(x[1..]);
      assert Inside(x, r) == Doubled(x[0]) + Inside(x[1..], r);
    }
  }

  lemma {:induction false} QuoteSplits(x: string, r: string, y: string, s: string)
    requires Inside(x, r) == Inside(y, s) && NoQuote(r) && NoQuote(s)
    ensures x == y && r == s
  {
    hide Inside;
    InsideHead(x, r);
    InsideHead(y, s);
    if x == [] {
      Peel("'", r, s);
    } else {
      Peel(Doubled(x[0]), Inside(x[1..], r), Inside(y[1..], s));
      QuoteSplits(x[1..], r, y[1..], s);
      assert x == [x[0]] + x[1..] && y == [y[0]] + y[1..];
    }
  }

  lemma QuotedSplits(x: string, r: string, y: string, s: string)
    requires Quoted(x, r) == Quoted(y, s) && NoQuote(r) && NoQuote(s)
    ensures x == y && r == s
  {
    Peel("'", Inside(x, r), Inside(y, s));
    QuoteSplits(x, r, y, s);
  }

  lemma ColumnNameSplits(x: string, r: string, y: string, s: string)
    requires ColumnName(x, r) == ColumnName(y, s)
    requires EndsRun(IsIdentifierChar, r) && EndsRun(IsIdentifierChar, s) && NoQuote(r) && NoQuote(s)
    ensures x == y && r == s
  {
    ColumnNameHead(x, r);
    ColumnNameHead(y, s);
    if IsIdentifier(x) {
      IdentifierSplits(x, r, y, s);
    } else {
      QuotedSplits(x, r, y, s);
    }
  }

  lemma ColumnNameHead(x: string, r: string)
    ensures ColumnName(x, r) != []
    ensures IsLetter(ColumnName(x, r)[0]) || ColumnName(x, r)[0] == '\''
    ensures IsIdentifier(x) <==> IsLetter(ColumnName(x, r)[0])
  {
  }

  // ---------- expressions ----------

  lemma {:induction false} MembersSplit(a: seq<string>, r: string, b: seq<string>, s: string)
    requires PrintMembers(a, r) == PrintMembers(b, s) && Stops(r) && Stops(s)
    requires (forall m :: m in a ==> IsIdentifier(m)) && (forall m :: m in b ==> IsIdentifier(m))
    ensures a == b && r == s
  {
    if a != [] && b != [] {
      var t, u := PrintMembers(a[1..], r), PrintMembers(b[1..], s);
      Peel(".", a[0] + t, b[0] + u);
      MembersHead(a[1..], r);
      MembersHead(b[1..], s);
      IdentifierSplits(a[0], t, b[0], u);
      MembersSplit(a[1..], r, b[1..], s);
      assert a == [a[0]] + a[1..] && b == [b[0]] + b[1..];
    } else {
      MembersHead(a, r);
      MembersHead(b, s);
    }
  }

  lemma MembersHead(a: seq<string>, r: string)
    requires Stops(r)
    ensures PrintMembers(a, r) != []
    ensures PrintMembers(a, r)[0] == '.' <==> a != []
    ensures a == [] ==> PrintMembers(a, r) == r
    ensures EndsRun(IsIdentifierChar, PrintMembers(a, r)) && EndsRun(IsDigit, PrintMembers(a, r)) && NoQuote(PrintMembers(a, r))
  {
  }

  /** The first character tells the kinds of root apart, up to the comparison sign. */
  function RootMark(root: Root): char {
    match root
    case Variable(_) => '$'
    case BooleanRoot(b) => if b then 't' else 'f'
    case IntegerRoot(_) => '0'
    case StringRoot(_) => '\''
    case EqualRoot(_, _) => '('
    case NotEqualRoot(_, _) => '('
  }

  lemma RootHead(root: Root, r: string)
    ensures PrintRoot(root, r) != []
    ensures if root.IntegerRoot? then IsDigit(PrintRoot(root, r)[0]) || PrintRoot(root, r)[0] == '-'
            else PrintRoot(root, r)[0] == RootMark(root)
  {
    if root.IntegerRoot? {
      SignedDecimalHead(root.i);
      var i: int := root.i;
      DecimalReads(if i < 0 then -i else i);
      assert SignedDecimal(root.i)[0] == PrintRoot(root, r)[0];
    }
  }

  lemma NumeralSplits(i: nat, r: string, j: nat, s: string)
    requires Decimal(i) + r == Decimal(j) + s && EndsRun(IsDigit, r) && EndsRun(IsDigit, s)
    ensures i == j && r == s
  {
    DecimalReads(i);
    DecimalReads(j);
    RunSplits(IsDigit, Decimal(i), r, Decimal(j), s);
  }

  lemma IntegerSplits(i: int, r: string, j: int, s: string)
    requires SignedDecimal(i) + r == SignedDecimal(j) + s && EndsRun(IsDigit, r) && EndsRun(IsDigit, s)
    ensures i == j && r == s
  {
    SignedDecimalHead(i);
    SignedDecimalHead(j);
    HeadChar(SignedDecimal(i), r);
    HeadChar(SignedDecimal(j), s);
    if i < 0 {
      assert SignedDecimal(i) + r == "-" + (Decimal(-i) + r);
      assert SignedDecimal(j) + s == "-" + (Decimal(-j) + s);
      Peel("-", Decimal(-i) + r, Decimal(-j) + s);
      NumeralSplits(-i, r, -j, s);
    } else {
      NumeralSplits(i, r, j, s);
    }
  }

  lemma {:induction false} ExprSplits(a: Expr, r: string, b: Expr, s: string)
    requires ExprWellFormed(a) && ExprWellFormed(b) && Stops(r) && Stops(s)
    requires PrintExpr(a, r) == PrintExpr(b, s)
    ensures a == b && r == s
    decreases a, 1
  {
    var t, u := PrintMembers(a.members, r), PrintMembers(b.members, s);
    MembersHead(a.members, r);
    MembersHead(b.members, s);
    RootSplits(a, t, b, u);
    MembersSplit(a.members, r, b.members, s);
  }

  lemma {:induction false} RootSplits(a: Expr, r: string, b: Expr, s: string)
    requires ExprWellFormed(a) && ExprWellFormed(b)
    requires EndsRun(IsIdentifierChar, r) && EndsRun(IsDigit, r) && NoQuote(r)
    requires EndsRun(IsIdentifierChar, s) && EndsRun(IsDigit, s) && NoQuote(s)
    requires PrintRoot(a.root, r) == PrintRoot(b.root, s)
    ensures a.root == b.root && r == s
    decreases a, 0
  {
    hide PrintExpr;
    RootHead(a.root, r);
    RootHead(b.root, s);
    match a.root
    case Variable(x) =>
      Peel("$", x + r, b.root.name + s);
      IdentifierSplits(x, r, b.root.name, s);
    case BooleanRoot(x) => Peel(if x then "true" else "false", r, s);
    case IntegerRoot(i) => IntegerSplits(i, r, b.root.i, s);
    case StringRoot(x) => QuotedSplits(x, r, b.root.s, s);
    case EqualRoot(_, _) => ComparisonSplits(a, r, b, s);
    case NotEqualRoot(_, _) => ComparisonSplits(a, r, b, s);
  }

  function Sign(root: Root): string {
    if root.EqualRoot? then " == " else " != "
  }

  predicate IsComparison(root: Root) {
    root.EqualRoot? || root.NotEqualRoot?
  }

  lemma {:induction false} ComparisonSplits(a: Expr, r: string, b: Expr, s: string)
    requires ExprWellFormed(a) && ExprWellFormed(b) && IsComparison(a.root) && IsComparison(b.root)
    requires PrintRoot(a.root, r) == PrintRoot(b.root, s)
    ensures a.root == b.root && r == s
    decreases a.root
  {
    var ra, rb := PrintExpr(a.root.right, ")" + r), PrintExpr(b.root.right, ")" + s);
    var ta, tb := Sign(a.root) + ra, Sign(b.root) + rb;
    Peel("(", PrintExpr(a.root.left, ta), PrintExpr(b.root.left, tb));
    assert ta[0] == ' ' && tb[0] == ' ';
    ExprSplits(a.root.left, ta, b.root.left, tb);
    assert ta[1] == Sign(a.root)[1] && tb[1] == Sign(b.root)[1];
    Peel(Sign(a.root), ra, rb);
    ExprSplits(a.root.right, ")" + r, b.root.right, ")" + s);
    Peel(")", r, s);
  }

  // ---------- lists ----------

  /** A list ends where no separator follows. */
  predicate ClosesList(rest: string) {
    rest != [] && rest[0] == ']'
  }

  lemma SpecSplits(a: ColumnSpec, r: string, b: ColumnSpec, s: string)
    requires SpecWellFormed(a) && SpecWellFormed(b) && Stops(r) && Stops(s)
    requires PrintSpec(a, r) == PrintSpec(b, s)
    ensures a == b && r == s
  {
    var a1, b1 := " | " + PrintExpr(a.body, r), " | " + PrintExpr(b.body, s);
    ColumnNameSplits(a.alias, ": " + (a.parameter + a1), b.alias, ": " + (b.parameter + b1));
    Peel(": ", a.parameter + a1, b.parameter + b1);
    IdentifierSplits(a.parameter, a1, b.parameter, b1);
    Peel(" | ", PrintExpr(a.body, r), PrintExpr(b.body, s));
    ExprSplits(a.body, r, b.body, s);
  }

  lemma {:induction false} MoreSpecsSplit(a: seq<ColumnSpec>, r: string, b: seq<ColumnSpec>, s: string)
    requires (forall x :: x in a ==> SpecWellFormed(x)) && (forall x :: x in b ==> SpecWellFormed(x))
    requires PrintMoreSpecs(a, r) == PrintMoreSpecs(b, s) && ClosesList(r) && ClosesList(s)
    ensures a == b && r == s
    decreases |a|
  {
    MoreSpecsHead(a, r);
    MoreSpecsHead(b, s);
    if a != [] {
      var t, u := PrintMoreSpecs(a[1..], r), PrintMoreSpecs(b[1..], s);
      Peel(", ", PrintSpec(a[0], t), PrintSpec(b[0], u));
      MoreSpecsHead(a[1..], r);
      MoreSpecsHead(b[1..], s);
      SpecSplits(a[0], t, b[0], u);
      MoreSpecsSplit(a[1..], r, b[1..], s);
      assert a == [a[0]] + a[1..] && b == [b[0]] + b[1..];
    }
  }

  lemma MoreSpecsHead(a: seq<ColumnSpec>, r: string)
    requires ClosesList(r)
    ensures Stops(PrintMoreSpecs(a, r)) && (PrintMoreSpecs(a, r)[0] == ',' <==> a != [])
  {
  }

  lemma SpecsSplit(a: seq<ColumnSpec>, r: string, b: seq<ColumnSpec>, s: string)
    requires (forall x :: x in a ==> SpecWellFormed(x)) && (forall x :: x in b ==> SpecWellFormed(x))
    requires PrintSpecs(a, r) == PrintSpecs(b, s) && ClosesList(r) && ClosesList(s)
    ensures a == b && r == s
  {
    if a != [] {
      ColumnNameHead(a[0].alias, PrintSpecs(a, r));
      SpecHead(a[0], PrintMoreSpecs(a[1..], r));
    }
    if b != [] {
      SpecHead(b[0], PrintMoreSpecs(b[1..], s));
    }
    if a != [] && b != [] {
      MoreSpecsHead(a[1..], r);
      MoreSpecsHead(b[1..], s);
      SpecSplits(a[0], PrintMoreSpecs(a[1..], r), b[0], PrintMoreSpecs(b[1..], s));
      MoreSpecsSplit(a[1..], r, b[1..], s);
      assert a == [a[0]] + a[1..] && b == [b[0]] + b[1..];
    }
  }

  lemma SpecHead(a: ColumnSpec, r: string)
    ensures PrintSpec(a, r) != [] && PrintSpec(a, r)[0] != ']'
  {
    ColumnNameHead(a.alias, ": " + (a.parameter + (" | " + PrintExpr(a.body, r))));
  }

  lemma {:induction false} MoreNamesSplit(a: seq<string>, r: string, b: seq<string>, s: string)
    requires PrintMoreNames(a, r) == PrintMoreNames(b, s) && ClosesList(r) && ClosesList(s)
    ensures a == b && r == s
    decreases |a|
  {
    MoreNamesHead(a, r);
    MoreNamesHead(b, s);
    if a != [] {
      var t, u := PrintMoreNames(a[1..], r), PrintMoreNames(b[1..], s);
      Peel(", ", ColumnName(a[0], t), ColumnName(b[0], u));
      MoreNamesHead(a[1..], r);
      MoreNamesHead(b[1..], s);
      ColumnNameSplits(a[0], t, b[0], u);
      MoreNamesSplit(a[1..], r, b[1..], s);
      assert a == [a[0]] + a[1..] && b == [b[0]] + b[1..];
    }
  }

  lemma MoreNamesHead(a: seq<string>, r: string)
    requires ClosesList(r)
    ensures Stops(PrintMoreNames(a, r)) && (PrintMoreNames(a, r)[0] == ',' <==> a != [])
  {
  }

  lemma NamesSplit(a: seq<string>, r: string, b: seq<string>, s: string)
    requires PrintNames(a, r) == PrintNames(b, s) && ClosesList(r) && ClosesList(s)
    ensures a == b && r == s
  {
    if a != [] {
      ColumnNameHead(a[0], PrintMoreNames(a[1..], r));
    }
    if b != [] {
      ColumnNameHead(b[0], PrintMoreNames(b[1..], s));
    }
    if a != [] && b != [] {
      MoreNamesHead(a[1..], r);
      MoreNamesHead(b[1..], s);
      ColumnNameSplits(a[0], PrintMoreNames(a[1..], r), b[0], PrintMoreNames(b[1..], s));
      MoreNamesSplit(a[1..], r, b[1..], s);
      assert a == [a[0]] + a[1..] && b == [b[0]] + b[1..];
    }
  }

  lemma KeySplits(a: KeySpec, r: string, b: KeySpec, s: string)
    requires PrintKey(a, r) == PrintKey(b, s)
    ensures a == b && r == s
  {
    HeadChar(KeyHead(a.direction), ColumnName(a.column, ")" + r));
    HeadChar(KeyHead(b.direction), ColumnName(b.column, ")" + s));
    Peel(KeyHead(a.direction), ColumnName(a.column, ")" + r), ColumnName(b.column, ")" + s));
    ColumnNameSplits(a.column, ")" + r, b.column, ")" + s);
    Peel(")", r, s);
  }

  lemma {:induction false} MoreKeysSplit(a: seq<KeySpec>, r: string, b: seq<KeySpec>, s: string)
    requires PrintMoreKeys(a, r) == PrintMoreKeys(b, s) && ClosesList(r) && ClosesList(s)
    ensures a == b && r == s
    decreases |a|
  {
    assert a != [] ==> PrintMoreKeys(a, r)[0] == ',';
    assert b != [] ==> PrintMoreKeys(b, s)[0] == ',';
    if a != [] {
      var t, u := PrintMoreKeys(a[1..], r), PrintMoreKeys(b[1..], s);
      Peel(", ", PrintKey(a[0], t), PrintKey(b[0], u));
      KeySplits(a[0], t, b[0], u);
      MoreKeysSplit(a[1..], r, b[1..], s);
      assert a == [a[0]] + a[1..] && b == [b[0]] + b[1..];
    }
  }

  lemma PrintKeyHead(a: KeySpec, r: string)
    ensures PrintKey(a, r) != [] && PrintKey(a, r)[0] != ']'
  {
    HeadChar(KeyHead(a.direction), ColumnName(a.column, ")" + r));
  }

  lemma KeysSplit(a: seq<KeySpec>, r: string, b: seq<KeySpec>, s: string)
    requires PrintKeys(a, r) == PrintKeys(b, s) && ClosesList(r) && ClosesList(s)
    ensures a == b && r == s
  {
    hide PrintKey;
    if a != [] {
      PrintKeyHead(a[0], PrintMoreKeys(a[1..], r));
    }
    if b != [] {
      PrintKeyHead(b[0], PrintMoreKeys(b[1..], s));
    }
    if a != [] && b != [] {
      KeySplits(a[0], PrintMoreKeys(a[1..], r), b[0], PrintMoreKeys(b[1..], s));
      MoreKeysSplit(a[1..], r, b[1..], s);
      assert a == [a[0]] + a[1..] && b == [b[0]] + b[1..];
    }
  }

  // ---------- steps ----------

  /** A pipeline ends where no arrow follows. */
  predicate EndsPipeline(rest: string) {
    rest == [] || rest[0] != '-'
  }

  lemma StepHeadChars(step: Step, r: string)
    requires !step.PropertyStep?
    ensures |PrintStep(step, r)| >= 12 || (step.FilterStep? || step.MapStep? || step.JoinStep? || step.SortStep?)
    ensures |PrintStep(step, r)| >= 3 && PrintStep(step, r)[0] == '-' && PrintStep(step, r)[2] == StepHead(step)[2]
    ensures step.DistinctStep? || step.DistinctOnStep? ==>
              |PrintStep(step, r)| >= 12 && PrintStep(step, r)[11] == StepHead(step)[11]
    ensures StepHead(step) <= PrintStep(step, r)
  {
    var body := PrintStep(step, r)[|StepHead(step)|..];
    assert PrintStep(step, r) == StepHead(step) + body;
  }

  ghost predicate SameStepKind(a: Step, b: Step) {
    && a.FilterStep? == b.FilterStep? && a.MapStep? == b.MapStep? && a.ProjectStep? == b.ProjectStep?
    && a.JoinStep? == b.JoinStep? && a.DistinctStep? == b.DistinctStep? && a.DistinctOnStep? == b.DistinctOnStep?
    && a.SortStep? == b.SortStep?
  }

  lemma StepKinds(a: Step, r: string, b: Step, s: string)
    requires !a.PropertyStep? && !b.PropertyStep? && PrintStep(a, r) == PrintStep(b, s)
    ensures SameStepKind(a, b) && StepHead(a) == StepHead(b)
  {
    hide PrintStep;
    StepHeadChars(a, r);
    StepHeadChars(b, s);
  }

  lemma LambdaSplits(p: string, x: Expr, r: string, q: string, y: Expr, s: string)
    requires IsIdentifier(p) && IsIdentifier(q) && ExprWellFormed(x) && ExprWellFormed(y)
    requires p + ("| " + PrintExpr(x, ")" + r)) == q + ("| " + PrintExpr(y, ")" + s))
    ensures p == q && x == y && r == s
  {
    IdentifierSplits(p, "| " + PrintExpr(x, ")" + r), q, "| " + PrintExpr(y, ")" + s));
    Peel("| ", PrintExpr(x, ")" + r), PrintExpr(y, ")" + s));
    ExprSplits(x, ")" + r, y, ")" + s);
    Peel(")", r, s);
  }

  lemma {:induction false} StepSplits(a: Step, r: string, b: Step, s: string)
    requires StepWellFormed(a) && StepWellFormed(b) && PrintStep(a, r) == PrintStep(b, s)
    ensures a == b && r == s
    decreases a, 1
  {
    StepKinds(a, r, b, s);
    var head := StepHead(a);
    match a
    case FilterStep(p, x) =>
      Peel(head, p + ("| " + PrintExpr(x, ")" + r)), b.parameter + ("| " + PrintExpr(b.body, ")" + s)));
      LambdaSplits(p, x, r, b.parameter, b.body, s);
    case MapStep(p, x) =>
      Peel(head, p + ("| " + PrintExpr(x, ")" + r)), b.parameter + ("| " + PrintExpr(b.body, ")" + s)));
      LambdaSplits(p, x, r, b.parameter, b.body, s);
    case ProjectStep(specs) =>
      Peel(head, PrintSpecs(specs, "])" + r), PrintSpecs(b.specs, "])" + s));
      SpecsSplit(specs, "])" + r, b.specs, "])" + s);
      Peel("])", r, s);
    case JoinStep(_, _, _, _, _) => JoinStepSplits(a, r, b, s);
    case DistinctStep => Peel(head, r, s);
    case DistinctOnStep(columns) =>
      Peel(head, PrintNames(columns, "])" + r), PrintNames(b.columns, "])" + s));
      NamesSplit(columns, "])" + r, b.columns, "])" + s);
      Peel("])", r, s);
    case SortStep(keys) =>
      Peel(head, PrintKeys(keys, "])" + r), PrintKeys(b.keys, "])" + s));
      KeysSplit(keys, "])" + r, b.keys, "])" + s);
      Peel("])", r, s);
  }

  lemma {:induction false} JoinStepSplits(a: Step, r: string, b: Step, s: string)
    requires StepWellFormed(a) && StepWellFormed(b) && a.JoinStep? && b.JoinStep? && PrintStep(a, r) == PrintStep(b, s)
    ensures a == b && r == s
    decreases a, 0
  {
    var a4, b4 := PrintExpr(a.condition, "})" + r), PrintExpr(b.condition, "})" + s);
    var a3, b3 := " | " + a4, " | " + b4;
    var a2, b2 := ", " + (a.rightParameter + a3), ", " + (b.rightParameter + b3);
    var kind := ", JoinKind.INNER, {";
    var a1, b1 := kind + (a.leftParameter + a2), kind + (b.leftParameter + b2);
    Peel(StepHead(a), PrintQuery(a.right, a1), PrintQuery(b.right, b1));
    QuerySplits(a.right, a1, b.right, b1);
    Peel(kind, a.leftParameter + a2, b.leftParameter + b2);
    IdentifierSplits(a.leftParameter, a2, b.leftParameter, b2);
    Peel(", ", a.rightParameter + a3, b.rightParameter + b3);
    IdentifierSplits(a.rightParameter, a3, b.rightParameter, b3);
    Peel(" | ", a4, b4);
    ExprSplits(a.condition, "})" + r, b.condition, "})" + s);
    Peel("})", r, s);
  }

  lemma StepStarts(step: Step, r: string)
    requires StepWellFormed(step)
    ensures PrintStep(step, r) != [] && PrintStep(step, r)[0] == '-'
  {
    StepHeadChars(step, r);
  }

  lemma {:induction false} StepsSplit(a: seq<Step>, r: string, b: seq<Step>, s: string)
    requires StepsWellFormed(a) && StepsWellFormed(b) && EndsPipeline(r) && EndsPipeline(s)
    requires PrintSteps(a, r) == PrintSteps(b, s)
    ensures a == b && r == s
    decreases a, 2
  {
    hide PrintStep, StepWellFormed, StepHead;
    if a != [] {
      StepStarts(a[0], PrintSteps(a[1..], r));
    }
    if b != [] {
      StepStarts(b[0], PrintSteps(b[1..], s));
    }
    if a != [] && b != [] {
      StepSplits(a[0], PrintSteps(a[1..], r), b[0], PrintSteps(b[1..], s));
      StepsSplit(a[1..], r, b[1..], s);
      assert a == [a[0]] + a[1..] && b == [b[0]] + b[1..];
    }
  }

  lemma {:induction false} QuerySplits(a: Query, r: string, b: Query, s: string)
    requires QueryWellFormed(a) && QueryWellFormed(b) && EndsPipeline(r) && EndsPipeline(s)
    requires PrintQuery(a, r) == PrintQuery(b, s)
    ensures a == b && r == s
    decreases a, 3
  {
    var t, u := ".all()" + PrintSteps(a.steps, r), ".all()" + PrintSteps(b.steps, s);
    SegmentsCoverPath(a.path, "");
    SegmentsCoverPath(b.path, "");
    RunSplits(IsPathChar, a.path, t, b.path, u);
    Peel(".all()", PrintSteps(a.steps, r), PrintSteps(b.steps, s));
    StepsSplit(a.steps, r, b.steps, s);
  }

  /** `as_str` of an emitted query. */
  function QueryText(q: Query): string {
    PrintQuery(q, "")
  }

  /** Equal texts are equal queries. */
  lemma TextIsUnambiguous(a: Query, b: Query)
    requires QueryWellFormed(a) && QueryWellFormed(b)
    ensures QueryText(a) == QueryText(b) <==> a == b
  {
    if QueryText(a) == QueryText(b) {
      QuerySplits(a, "", b, "");
    }
  }
}
