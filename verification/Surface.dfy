/** Surface queries: a class extent followed by pipeline steps with named
    lambdas, and the text canonical emission prints for them.
    Every printer takes the text that follows, as the key encoders do. */
module Surface {
  import opened Basics
  import opened Text
  import opened Relational

  /** What an expression starts from. */
  datatype Root =
    | Variable(name: string)
    | BooleanRoot(b: bool)
    | IntegerRoot(i: i64)
    | StringRoot(s: string)
    | EqualRoot(left: Expr, right: Expr)
    | NotEqualRoot(left: Expr, right: Expr)

  /** A root and the properties read from it, in order. */
  datatype Expr = Chain(root: Root, members: seq<string>)

  datatype ColumnSpec = ColumnSpec(alias: string, parameter: string, body: Expr)

  datatype KeySpec = KeySpec(direction: SortDirection, column: string)

  /** `grouped` says that a join's right operand stands in parentheses. */
  datatype Step =
    | PropertyStep(name: string)
    | FilterStep(parameter: string, body: Expr)
    | MapStep(parameter: string, body: Expr)
    | ProjectStep(specs: seq<ColumnSpec>)
    | JoinStep(right: Query, grouped: bool, leftParameter: string, rightParameter: string, condition: Expr)
    | DistinctStep
    | DistinctOnStep(columns: seq<string>)
    | SortStep(keys: seq<KeySpec>)

  datatype Query = Query(path: string, steps: seq<Step>)

  // ---------- names and literals ----------

  /** The words the lexer keeps for itself: they look like identifiers, but a
      property, an alias or a selector spelled like one without quotes is refused. */
  const RESERVED := {"all", "let", "allVersions", "allVersionsInRange", "toBytes"}

  predicate IsLetter(c: char) {
    'a' <= c <= 'z' || 'A' <= c <= 'Z' || c == '_'
  }

  predicate IsIdentifierChar(c: char) {
    IsLetter(c) || IsDigit(c)
  }

  /** `is_emittable_identifier`. */
  predicate IsIdentifier(s: string) {
    s != [] && IsLetter(s[0]) && (forall i :: 0 <= i < |s| ==> IsIdentifierChar(s[i])) && s != "true" && s != "false"
  }

  predicate IsPathChar(c: char) {
    IsIdentifierChar(c) || c == ':'
  }

  /** `path.split("::")`. */
  function SplitPath(path: string): (segments: seq<string>)
    ensures segments != []
  {
    SplitFrom(path, "")
  }

  function SplitFrom(path: string, segment: string): (segments: seq<string>)
    ensures segments != []
    decreases |path|
  {
    if path == [] then [segment]
    else if |path| >= 2 && path[0] == ':' && path[1] == ':' then [segment] + SplitFrom(path[2..], "")
    else SplitFrom(path[1..], segment + [path[0]])
  }

  /** `is_emittable_path`. */
  predicate IsEmittablePath(path: string) {
    forall segment :: segment in SplitPath(path) ==> IsIdentifier(segment)
  }

  /** `path.rsplit("::").next()`. */
  function SimpleName(path: string): string {
    var segments := SplitPath(path);
    segments[|segments| - 1]
  }

  function DoubleQuotes(s: string): string {
    if s == [] then [] else (if s[0] == '\'' then "''" else [s[0]]) + DoubleQuotes(s[1..])
  }

  /** `value.replace("''", "'")`. */
  function UndoubleQuotes(s: string): string {
    if |s| < 2 then s
    else if s[0] == '\'' && s[1] == '\'' then "'" + UndoubleQuotes(s[2..])
    else [s[0]] + UndoubleQuotes(s[1..])
  }

  /** A quoted text, and what follows it. */
  function Quoted(s: string, rest: string): string {
    "'" + (DoubleQuotes(s) + ("'" + rest))
  }

  /** `pure_string`. */
  function PureString(text: string): Option<string> {
    if |text| >= 1 && text[0] == '\'' then
      StripClosingQuote(text[1..])
    else None
  }

  function StripClosingQuote(value: string): Option<string> {
    if |value| >= 1 && value[|value| - 1] == '\'' then Some(UndoubleQuotes(value[..|value| - 1])) else None
  }

  lemma {:induction false} UndoubleDoubles(s: string)
    ensures UndoubleQuotes(DoubleQuotes(s)) == s
  {
    if s != [] {
      UndoubleDoubles(s[1..]);
      var d := DoubleQuotes(s[1..]);
      assert s == [s[0]] + s[1..];
      if s[0] == '\'' {
        assert DoubleQuotes(s)[2..] == d;
      } else {
        assert DoubleQuotes(s)[1..] == d;
      }
    }
  }

  /** Reading a quoted literal back recovers the text it was quoted from. */
  lemma PureStringReadsQuoted(s: string)
    ensures PureString(Quoted(s, "")) == Some(s)
  {
    var d := DoubleQuotes(s);
    assert Quoted(s, "")[1..] == d + "'";
    assert (d + "'")[..|d + "'"| - 1] == d;
    UndoubleDoubles(s);
  }

  /** `column_name`. */
  function ColumnName(name: string, rest: string): string {
    if IsIdentifier(name) then name + rest else Quoted(name, rest)
  }

  // ---------- printing ----------

  function PrintMembers(members: seq<string>, rest: string): string {
    if members == [] then rest else "." + (members[0] + PrintMembers(members[1..], rest))
  }

  function PrintExpr(e: Expr, rest: string): string
    decreases e, 1
  {
    PrintRoot(e.root, PrintMembers(e.members, rest))
  }

  function PrintRoot(root: Root, rest: string): string
    decreases root, 0
  {
    match root
    case Variable(name) => "$" + (name + rest)
    case BooleanRoot(b) => (if b then "true" else "false") + rest
    case IntegerRoot(i) => SignedDecimal(i) + rest
    case StringRoot(s) => Quoted(s, rest)
    case EqualRoot(left, right) => "(" + PrintExpr(left, " == " + PrintExpr(right, ")" + rest))
    case NotEqualRoot(left, right) => "(" + PrintExpr(left, " != " + PrintExpr(right, ")" + rest))
  }

  function PrintSpec(spec: ColumnSpec, rest: string): string {
    ColumnName(spec.alias, ": " + (spec.parameter + (" | " + PrintExpr(spec.body, rest))))
  }

  function PrintSpecs(specs: seq<ColumnSpec>, rest: string): string {
    if specs == [] then rest else PrintSpec(specs[0], PrintMoreSpecs(specs[1..], rest))
  }

  function PrintMoreSpecs(specs: seq<ColumnSpec>, rest: string): string {
    if specs == [] then rest else ", " + PrintSpec(specs[0], PrintMoreSpecs(specs[1..], rest))
  }

  function PrintNames(names: seq<string>, rest: string): string {
    if names == [] then rest else ColumnName(names[0], PrintMoreNames(names[1..], rest))
  }

  function PrintMoreNames(names: seq<string>, rest: string): string {
    if names == [] then rest else ", " + ColumnName(names[0], PrintMoreNames(names[1..], rest))
  }

  function KeyHead(direction: SortDirection): string {
    match direction
    case Ascending => "ascending(~"
    case Descending => "descending(~"
  }

  function PrintKey(key: KeySpec, rest: string): string {
    KeyHead(key.direction) + ColumnName(key.column, ")" + rest)
  }

  function PrintKeys(keys: seq<KeySpec>, rest: string): string {
    if keys == [] then rest else PrintKey(keys[0], PrintMoreKeys(keys[1..], rest))
  }

  function PrintMoreKeys(keys: seq<KeySpec>, rest: string): string {
    if keys == [] then rest else ", " + PrintKey(keys[0], PrintMoreKeys(keys[1..], rest))
  }

  function StepHead(step: Step): string {
    match step
    case PropertyStep(_) => "."
    case FilterStep(_, _) => "->filter("
    case MapStep(_, _) => "->map("
    case ProjectStep(_) => "->project(~["
    case JoinStep(_, _, _, _, _) => "->join("
    case DistinctStep => "->distinct()"
    case DistinctOnStep(_) => "->distinct(~["
    case SortStep(_) => "->sort(["
  }

  function PrintStep(step: Step, rest: string): string
    decreases step, 0
  {
    StepHead(step) +
    match step
    case PropertyStep(name) => name + rest
    case FilterStep(parameter, body) => parameter + ("| " + PrintExpr(body, ")" + rest))
    case MapStep(parameter, body) => parameter + ("| " + PrintExpr(body, ")" + rest))
    case ProjectStep(specs) => PrintSpecs(specs, "])" + rest)
    case JoinStep(right, grouped, l, r, condition) =>
      var others := ", JoinKind.INNER, {" + (l + (", " + (r + (" | " + PrintExpr(condition, "})" + rest)))));
      if grouped then "(" + PrintQuery(right, ")" + others) else PrintQuery(right, others)
    case DistinctStep => rest
    case DistinctOnStep(columns) => PrintNames(columns, "])" + rest)
    case SortStep(keys) => PrintKeys(keys, "])" + rest)
  }

  function PrintSteps(steps: seq<Step>, rest: string): string
    decreases steps, 1
  {
    if steps == [] then rest else PrintStep(steps[0], PrintSteps(steps[1..], rest))
  }

  function PrintQuery(q: Query, rest: string): string
    decreases q, 2
  {
    q.path + (".all()" + PrintSteps(q.steps, rest))
  }

  /** One more step prints after the ones before it. */
  lemma {:induction false} PrintStepsAppend(steps: seq<Step>, step: Step, rest: string)
    ensures PrintSteps(steps + [step], rest) == PrintSteps(steps, PrintStep(step, rest))
  {
    if steps == [] {
      assert steps + [step] == [step];
      assert [step][1..] == [];
    } else {
      assert (steps + [step])[1..] == steps[1..] + [step];
      PrintStepsAppend(steps[1..], step, rest);
    }
  }

  lemma {:induction false} PrintMembersAppend(members: seq<string>, member: string, rest: string)
    ensures PrintMembers(members + [member], rest) == PrintMembers(members, "." + (member + rest))
  {
    if members == [] {
      assert members + [member] == [member];
      assert [member][1..] == [];
    } else {
      assert (members + [member])[1..] == members[1..] + [member];
      PrintMembersAppend(members[1..], member, rest);
    }
  }
}
