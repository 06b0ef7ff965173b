/** Reading canonical text back: a recursive descent over the characters, words
    by longest run and apart from the reserved ones, numbers without a sign,
    doubled quotes undone. It stands for the lexer, the parser and the
    extraction of names from their tokens, over the spellings emission uses. */
module Reader {
  import opened Basics
  import opened Text
  import opened Relational
  import opened Surface
  import opened Unambiguity

  type Reading<+T> = Option<(T, string)>

  // ---------- words, names and literals ----------

  function Expect(head: string, text: string): (rest: Option<string>)
    ensures rest.Some? ==> |rest.value| + |head| == |text|
  {
    if head <= text then Some(text[|head|..]) else None
  }

  /** How far a run of such characters goes. */
  function RunLength(inClass: char -> bool, text: string): (n: nat)
    ensures n <= |text|
  {
    if text == [] || !inClass(text[0]) then 0 else 1 + RunLength(inClass, text[1..])
  }

  function ReadRun(inClass: char -> bool, text: string): (r: (string, string))
    ensures |r.0| + |r.1| == |text|
  {
    var n := RunLength(inClass, text);
    (text[..n], text[n..])
  }

  /** A word the parser takes for a name in a path: any but the two booleans. */
  function ReadPathWord(text: string): (r: Reading<string>)
    ensures r.Some? ==> |r.value.1| < |text|
  {
    if text == [] || !IsLetter(text[0]) then None
    else
      var run := ReadRun(IsIdentifierChar, text);
      if run.0 == [] || run.0 == "true" || run.0 == "false" then None else Some(run)
  }

  /** A bare property, alias, selector or parameter: no reserved word. */
  function ReadIdentifier(text: string): (r: Reading<string>)
    ensures r.Some? ==> |r.value.1| < |text|
  {
    var word := ReadPathWord(text);
    if word.None? || word.value.0 in RESERVED then None else word
  }

  /** The rest of a quoted text, its doubled quotes undone. */
  function ReadInside(text: string): (r: Reading<string>)
    ensures r.Some? ==> |r.value.1| < |text|
    decreases |text|
  {
    if text == [] then None
    else if text[0] == '\'' then
      if |text| >= 2 && text[1] == '\'' then
        match ReadInside(text[2..])
        case None => None
        case Some((s, rest)) => Some((['\''] + s, rest))
      else Some(("", text[1..]))
    else
      match ReadInside(text[1..])
      case None => None
      case Some((s, rest)) => Some(([text[0]] + s, rest))
  }

  function ReadQuoted(text: string): (r: Reading<string>)
    ensures r.Some? ==> |r.value.1| < |text|
  {
    if text == [] || text[0] != '\'' then None else ReadInside(text[1..])
  }

  predicate IsControl(c: char) {
    c as int < 0x20 || 0x7F <= c as int < 0xA0
  }

  predicate HasSeparator(s: string) {
    exists i :: 0 <= i < |s| - 1 && s[i] == ':' && s[i + 1] == ':'
  }

  /** What the model accepts as a simple name. */
  predicate IsName(s: string) {
    s != [] && (forall c :: c in s ==> !IsControl(c)) && !HasSeparator(s)
  }

  /** An alias or a selector: a bare name, or a quoted one the model accepts. */
  function ReadLabel(text: string): (r: Reading<string>)
    ensures r.Some? ==> |r.value.1| < |text|
  {
    if text != [] && text[0] == '\'' then
      var quoted := ReadQuoted(text);
      if quoted.Some? && IsName(quoted.value.0) then quoted else None
    else ReadIdentifier(text)
  }

  const I64_LIMIT: nat := 0x8000_0000_0000_0000

  lemma {:induction false} RunIsInClass(inClass: char -> bool, text: string)
    ensures forall c :: c in ReadRun(inClass, text).0 ==> inClass(c)
  {
    if text != [] && inClass(text[0]) {
      RunIsInClass(inClass, text[1..]);
      var n := RunLength(inClass, text);
      assert text[..n] == [text[0]] + text[1..][..n - 1];
    }
  }

  /** An integer is a run of digits: a sign is an operator, not part of it. */
  function ReadInteger(text: string): (r: Reading<i64>)
    ensures r.Some? ==> |r.value.1| < |text|
  {
    var run := ReadRun(IsDigit, text);
    RunIsInClass(IsDigit, text);
    if run.0 == [] || Numeral(run.0) >= I64_LIMIT then None else Some((Numeral(run.0), run.1))
  }

  // ---------- expressions ----------

  function ReadMembers(text: string): (r: Reading<seq<string>>)
    ensures r.Some? ==> |r.value.1| <= |text|
    decreases |text|
  {
    if text == [] || text[0] != '.' then Some(([], text))
    else
      match ReadIdentifier(text[1..])
      case None => None
      case Some((name, rest)) =>
        match ReadMembers(rest)
        case None => None
        case Some((names, after)) => Some(([name] + names, after))
  }

  function ReadRoot(text: string): (r: Reading<Root>)
    ensures r.Some? ==> |r.value.1| < |text|
    decreases |text|, 1
  {
    if text == [] then None
    else if text[0] == '$' then
      match ReadIdentifier(text[1..])
      case None => None
      case Some((name, rest)) => Some((Variable(name), rest))
    else if text[0] == '\'' then
      match ReadQuoted(text)
      case None => None
      case Some((s, rest)) => Some((StringRoot(s), rest))
    else if IsDigit(text[0]) then
      match ReadInteger(text)
      case None => None
      case Some((i, rest)) => Some((IntegerRoot(i), rest))
    else if text[0] == '(' then ReadComparison(text)
    else
      var word := ReadRun(IsIdentifierChar, text);
      if word.0 == "true" then Some((BooleanRoot(true), word.1))
      else if word.0 == "false" then Some((BooleanRoot(false), word.1))
      else None
  }

  function ReadComparison(text: string): (r: Reading<Root>)
    requires text != [] && text[0] == '('
    ensures r.Some? ==> |r.value.1| < |text|
    decreases |text|, 0
  {
    match ReadExpr(text[1..])
    case None => None
    case Some((left, rest)) =>
      var equal, different := Expect(" == ", rest), Expect(" != ", rest);
      if equal.None? && different.None? then None
      else
        match ReadExpr(if equal.Some? then equal.value else different.value)
        case None => None
        case Some((right, after)) =>
          var closed := Expect(")", after);
          if closed.None? then None
          else Some((if equal.Some? then EqualRoot(left, right) else NotEqualRoot(left, right), closed.value))
  }

  function ReadExpr(text: string): (r: Reading<Expr>)
    ensures r.Some? ==> |r.value.1| < |text|
    decreases |text|, 2
  {
    match ReadRoot(text)
    case None => None
    case Some((root, rest)) =>
      match ReadMembers(rest)
      case None => None
      case Some((members, after)) => Some((Chain(root, members), after))
  }

  // ---------- steps ----------

  function ReadLambda(text: string): (r: Reading<(string, Expr)>)
    ensures r.Some? ==> |r.value.1| < |text|
  {
    match ReadIdentifier(text)
    case None => None
    case Some((parameter, rest)) =>
      var bar := Expect("| ", rest);
      if bar.None? then None
      else
        match ReadExpr(bar.value)
        case None => None
        case Some((body, after)) => Some(((parameter, body), after))
  }

  function ReadSpec(text: string): (r: Reading<ColumnSpec>)
    ensures r.Some? ==> |r.value.1| < |text|
  {
    match ReadLabel(text)
    case None => None
    case Some((alias, rest)) =>
      var colon := Expect(": ", rest);
      if colon.None? then None
      else
        match ReadIdentifier(colon.value)
        case None => None
        case Some((parameter, more)) =>
          var bar := Expect(" | ", more);
          if bar.None? then None
          else
            match ReadExpr(bar.value)
            case None => None
            case Some((body, after)) => Some((ColumnSpec(alias, parameter, body), after))
  }

  function ReadKey(text: string): (r: Reading<KeySpec>)
    ensures r.Some? ==> |r.value.1| < |text|
  {
    var up, down := Expect("ascending(~", text), Expect("descending(~", text);
    if up.None? && down.None? then None
    else
      match ReadLabel(if up.Some? then up.value else down.value)
      case None => None
      case Some((column, rest)) =>
        var closed := Expect(")", rest);
        if closed.None? then None
        else Some((KeySpec(if up.Some? then Ascending else Descending, column), closed.value))
  }

  function ReadMoreSpecs(text: string): (r: Reading<seq<ColumnSpec>>)
    ensures r.Some? ==> |r.value.1| <= |text|
    decreases |text|
  {
    var comma := Expect(", ", text);
    if comma.None? then Some(([], text))
    else
      match ReadSpec(comma.value)
      case None => None
      case Some((spec, rest)) =>
        match ReadMoreSpecs(rest)
        case None => None
        case Some((specs, after)) => Some(([spec] + specs, after))
  }

  function ReadSpecs(text: string): (r: Reading<seq<ColumnSpec>>)
    ensures r.Some? ==> |r.value.1| <= |text|
  {
    if text != [] && text[0] == ']' then Some(([], text))
    else
      match ReadSpec(text)
      case None => None
      case Some((spec, rest)) =>
        match ReadMoreSpecs(rest)
        case None => None
        case Some((specs, after)) => Some(([spec] + specs, after))
  }

  function ReadMoreNames(text: string): (r: Reading<seq<string>>)
    ensures r.Some? ==> |r.value.1| <= |text|
    decreases |text|
  {
    var comma := Expect(", ", text);
    if comma.None? then Some(([], text))
    else
      match ReadLabel(comma.value)
      case None => None
      case Some((name, rest)) =>
        match ReadMoreNames(rest)
        case None => None
        case Some((names, after)) => Some(([name] + names, after))
  }

  function ReadNames(text: string): (r: Reading<seq<string>>)
    ensures r.Some? ==> |r.value.1| <= |text|
  {
    if text != [] && text[0] == ']' then Some(([], text))
    else
      match ReadLabel(text)
      case None => None
      case Some((name, rest)) =>
        match ReadMoreNames(rest)
        case None => None
        case Some((names, after)) => Some(([name] + names, after))
  }

  function ReadMoreKeys(text: string): (r: Reading<seq<KeySpec>>)
    ensures r.Some? ==> |r.value.1| <= |text|
    decreases |text|
  {
    var comma := Expect(", ", text);
    if comma.None? then Some(([], text))
    else
      match ReadKey(comma.value)
      case None => None
      case Some((key, rest)) =>
        match ReadMoreKeys(rest)
        case None => None
        case Some((keys, after)) => Some(([key] + keys, after))
  }

  function ReadKeys(text: string): (r: Reading<seq<KeySpec>>)
    ensures r.Some? ==> |r.value.1| <= |text|
  {
    if text != [] && text[0] == ']' then Some(([], text))
    else
      match ReadKey(text)
      case None => None
      case Some((key, rest)) =>
        match ReadMoreKeys(rest)
        case None => None
        case Some((keys, after)) => Some(([key] + keys, after))
  }

  function ReadMorePath(text: string): (r: Reading<string>)
    ensures r.Some? ==> |r.value.1| <= |text|
    decreases |text|
  {
    var separator := Expect("::", text);
    if separator.None? then Some(("", text))
    else
      match ReadPathWord(separator.value)
      case None => None
      case Some((word, rest)) =>
        match ReadMorePath(rest)
        case None => None
        case Some((more, after)) => Some(("::" + (word + more), after))
  }

  function ReadPath(text: string): (r: Reading<string>)
    ensures r.Some? ==> |r.value.1| < |text|
  {
    match ReadPathWord(text)
    case None => None
    case Some((word, rest)) =>
      match ReadMorePath(rest)
      case None => None
      case Some((more, after)) => Some((word + more, after))
  }

  /** What closes a step after the part of it that was read. */
  function Closed<T>(r: Reading<T>, tail: string, make: T -> Step): (s: Reading<Step>)
    ensures s.Some? ==> r.Some? && |s.value.1| <= |r.value.1|
  {
    match r
    case None => None
    case Some((part, rest)) =>
      var after := Expect(tail, rest);
      if after.None? then None else Some((make(part), after.value))
  }

  function ReadStep(text: string): (r: Reading<Step>)
    ensures r.Some? ==> |r.value.1| < |text|
    decreases |text|, 0
  {
    var filter, map_, project, join := Expect("->filter(", text), Expect("->map(", text), Expect("->project(~[", text), Expect("->join(", text);
    var distinct, selected, sort := Expect("->distinct()", text), Expect("->distinct(~[", text), Expect("->sort([", text);
    if filter.Some? then Closed(ReadLambda(filter.value), ")", (l: (string, Expr)) => FilterStep(l.0, l.1))
    else if map_.Some? then Closed(ReadLambda(map_.value), ")", (l: (string, Expr)) => MapStep(l.0, l.1))
    else if project.Some? then Closed(ReadSpecs(project.value), "])", specs => ProjectStep(specs))
    else if join.Some? then
      match ReadQuery(join.value)
      case None => None
      case Some((right, rest)) => ReadJoin(right, rest)
    else if distinct.Some? then Some((DistinctStep, distinct.value))
    else if selected.Some? then Closed(ReadNames(selected.value), "])", names => DistinctOnStep(names))
    else if sort.Some? then Closed(ReadKeys(sort.value), "])", keys => SortStep(keys))
    else None
  }

  /** A join from behind its right operand. */
  function ReadJoin(right: Query, text: string): (r: Reading<Step>)
    ensures r.Some? ==> |r.value.1| < |text|
  {
    var kind := Expect(", JoinKind.INNER, {", text);
    if kind.None? then None
    else
      match ReadIdentifier(kind.value)
      case None => None
      case Some((l, rest)) =>
        var comma := Expect(", ", rest);
        if comma.None? then None
        else
          match ReadIdentifier(comma.value)
          case None => None
          case Some((r, more)) =>
            var bar := Expect(" | ", more);
            if bar.None? then None
            else Closed(ReadExpr(bar.value), "})", condition => JoinStep(right, false, l, r, condition))
  }

  function ReadSteps(text: string): (r: Reading<seq<Step>>)
    ensures r.Some? ==> |r.value.1| <= |text|
    decreases |text|, 1
  {
    if Expect("->", text).None? then Some(([], text))
    else
      match ReadStep(text)
      case None => None
      case Some((step, rest)) =>
        match ReadSteps(rest)
        case None => None
        case Some((steps, after)) => Some(([step] + steps, after))
  }

  function ReadQuery(text: string): (r: Reading<Query>)
    ensures r.Some? ==> |r.value.1| < |text|
    decreases |text|, 2
  {
    match ReadPath(text)
    case None => None
    case Some((path, rest)) =>
      var all := Expect(".all()", rest);
      if all.None? then None
      else
        match ReadSteps(all.value)
        case None => None
        case Some((steps, after)) => Some((Query(path, steps), after))
  }

  /** The query a whole text spells, if it spells one. */
  function ReadText(text: string): Option<Query> {
    match ReadQuery(text)
    case None => None
    case Some((q, rest)) => if rest == [] then Some(q) else None
  }

  // ---------- what reads back ----------

  ghost predicate LabelReads(name: string) {
    if IsIdentifier(name) then name !in RESERVED else IsName(name)
  }

  ghost predicate ExprReads(e: Expr)
    decreases e
  {
    && (forall m :: m in e.members ==> m !in RESERVED)
    && match e.root
       case Variable(name) => name !in RESERVED
       case BooleanRoot(_) => true
       case IntegerRoot(i) => i >= 0
       case StringRoot(_) => true
       case EqualRoot(left, right) => ExprReads(left) && ExprReads(right)
       case NotEqualRoot(left, right) => ExprReads(left) && ExprReads(right)
  }

  ghost predicate SpecReads(spec: ColumnSpec) {
    LabelReads(spec.alias) && spec.parameter !in RESERVED && ExprReads(spec.body)
  }

  ghost predicate StepReads(step: Step)
    decreases step, 0
  {
    match step
    case PropertyStep(_) => false
    case FilterStep(parameter, body) => parameter !in RESERVED && ExprReads(body)
    case MapStep(parameter, body) => parameter !in RESERVED && ExprReads(body)
    case ProjectStep(specs) => forall i :: 0 <= i < |specs| ==> SpecReads(specs[i])
    case JoinStep(right, _, l, r, condition) => QueryReads(right) && l !in RESERVED && r !in RESERVED && ExprReads(condition)
    case DistinctStep => true
    case DistinctOnStep(names) => forall i :: 0 <= i < |names| ==> LabelReads(names[i])
    case SortStep(keys) => forall i :: 0 <= i < |keys| ==> LabelReads(keys[i].column)
  }

  ghost predicate StepsRead(steps: seq<Step>)
    decreases steps, 1
  {
    steps != [] ==> StepReads(steps[0]) && StepsRead(steps[1..])
  }

  /** No word printed bare is reserved, no number is negative, and every quoted label is a name. */
  ghost predicate QueryReads(q: Query)
    decreases q, 2
  {
    StepsRead(q.steps)
  }

  // ---------- reading what was printed: words and literals ----------

  lemma Expected(head: string, text: string)
    ensures Expect(head, head + text) == Some(text)
  {
    assert (head + text)[|head|..] == text;
  }

  lemma NotExpected(head: string, other: string, text: string, i: nat)
    requires i < |head| && i < |other| && head[i] != other[i]
    ensures Expect(head, other + text) == None
  {
    assert (other + text)[i] == other[i];
  }

  lemma {:induction false} RunReads(inClass: char -> bool, x: string, rest: string)
    requires (forall c :: c in x ==> inClass(c)) && EndsRun(inClass, rest)
    ensures ReadRun(inClass, x + rest) == (x, rest)
  {
    RunLengthReads(inClass, x, rest);
    assert (x + rest)[..|x|] == x && (x + rest)[|x|..] == rest;
  }

  lemma {:induction false} RunLengthReads(inClass: char -> bool, x: string, rest: string)
    requires (forall c :: c in x ==> inClass(c)) && EndsRun(inClass, rest)
    ensures RunLength(inClass, x + rest) == |x|
  {
    if x == [] {
      assert x + rest == rest;
    } else {
      assert (x + rest)[0] == x[0] && (x + rest)[1..] == x[1..] + rest;
      RunLengthReads(inClass, x[1..], rest);
    }
  }

  lemma WordReads(w: string, rest: string)
    requires IsIdentifier(w) && EndsRun(IsIdentifierChar, rest)
    ensures ReadPathWord(w + rest) == Some((w, rest))
    ensures ReadIdentifier(w + rest) == if w in RESERVED then None else Some((w, rest))
  {
    RunReads(IsIdentifierChar, w, rest);
    assert (w + rest)[0] == w[0];
  }

  lemma {:induction false} InsideReads(s: string, rest: string)
    requires NoQuote(rest)
    ensures ReadInside(Inside(s, rest)) == Some((s, rest))
  {
    hide Inside, NoQuote;
    InsideHead(s, rest);
    var text := Inside(s, rest);
    if s == [] {
      ClosingQuote(rest);
    } else {
      InsideReads(s[1..], rest);
      var more := Inside(s[1..], rest);
      assert s == [s[0]] + s[1..];
      if s[0] == '\'' {
        assert text == "''" + more;
        assert text[2..] == more;
      } else {
        assert text == [s[0]] + more;
        assert text[1..] == more;
      }
    }
  }

  lemma ClosingQuote(rest: string)
    requires NoQuote(rest)
    ensures ReadInside("'" + rest) == Some(("", rest))
  {
    assert ("'" + rest)[1..] == rest;
  }

  lemma QuotedReads(s: string, rest: string)
    requires NoQuote(rest)
    ensures ReadQuoted(Quoted(s, rest)) == Some((s, rest))
  {
    InsideReads(s, rest);
    assert Quoted(s, rest)[1..] == Inside(s, rest);
  }

  lemma LabelIsRead(name: string, rest: string)
    requires EndsRun(IsIdentifierChar, rest) && NoQuote(rest)
    ensures ReadLabel(ColumnName(name, rest)) == if LabelReads(name) then Some((name, rest)) else None
  {
    hide ReadIdentifier, ReadQuoted, IsName;
    ColumnNameHead(name, rest);
    if IsIdentifier(name) {
      WordReads(name, rest);
    } else {
      QuotedReads(name, rest);
    }
  }

  lemma IntegerReads(i: i64, rest: string)
    requires EndsRun(IsDigit, rest) && i >= 0
    ensures ReadInteger(SignedDecimal(i) + rest) == Some((i, rest))
    ensures SignedDecimal(i) != [] && IsDigit(SignedDecimal(i)[0])
  {
    DecimalReads(i);
    var d := Decimal(i);
    assert d[0] in d;
    RunReads(IsDigit, d, rest);
  }

  // ---------- expressions ----------

  lemma {:induction false} MembersRead(members: seq<string>, rest: string)
    requires (forall m :: m in members ==> IsIdentifier(m)) && Stops(rest)
    ensures ReadMembers(PrintMembers(members, rest)) ==
            if forall m :: m in members ==> m !in RESERVED then Some((members, rest)) else None
  {
    hide ReadIdentifier, IsIdentifier;
    if members != [] {
      var tail := PrintMembers(members[1..], rest);
      MembersHead(members[1..], rest);
      WordReads(members[0], tail);
      MembersRead(members[1..], rest);
      var text := "." + (members[0] + tail);
      assert text[1..] == members[0] + tail;
      assert members == [members[0]] + members[1..];
      assert (forall m :: m in members ==> m !in RESERVED) <==> members[0] !in RESERVED && forall m :: m in members[1..] ==> m !in RESERVED;
    }
  }

  lemma {:induction false} ExprRead(e: Expr, rest: string)
    requires ExprWellFormed(e) && Stops(rest)
    ensures ReadExpr(PrintExpr(e, rest)) == if ExprReads(e) then Some((e, rest)) else None
    decreases e, 1
  {
    hide ReadRoot, PrintRoot, ReadMembers, PrintMembers, Stops;
    var tail := PrintMembers(e.members, rest);
    MembersHead(e.members, rest);
    RootRead(e, tail);
    MembersRead(e.members, rest);
  }

  ghost predicate RootReads(root: Root) {
    match root
    case Variable(name) => name !in RESERVED
    case BooleanRoot(_) => true
    case IntegerRoot(i) => i >= 0
    case StringRoot(_) => true
    case EqualRoot(left, right) => ExprReads(left) && ExprReads(right)
    case NotEqualRoot(left, right) => ExprReads(left) && ExprReads(right)
  }

  lemma {:induction false} RootRead(e: Expr, rest: string)
    requires ExprWellFormed(e) && EndsRun(IsIdentifierChar, rest) && EndsRun(IsDigit, rest) && NoQuote(rest)
    ensures ReadRoot(PrintRoot(e.root, rest)) == if RootReads(e.root) then Some((e.root, rest)) else None
    decreases e, 0
  {
    hide ReadIdentifier, ReadQuoted, ReadInteger, ReadComparison, IsIdentifier, Quoted;
    match e.root
    case Variable(name) =>
      WordReads(name, rest);
      assert ("$" + (name + rest))[1..] == name + rest;
    case BooleanRoot(b) => BooleanReads(b, rest);
    case IntegerRoot(i) =>
      if i >= 0 {
        IntegerReads(i, rest);
        assert (SignedDecimal(i) + rest)[0] == SignedDecimal(i)[0];
      } else {
        assert (SignedDecimal(i) + rest)[0] == '-';
        SignIsNoRoot(SignedDecimal(i) + rest);
      }
    case StringRoot(s) =>
      QuotedReads(s, rest);
      QuotedHead(s, rest);
    case EqualRoot(_, _) => ComparisonRead(e.root, rest);
    case NotEqualRoot(_, _) => ComparisonRead(e.root, rest);
  }

  lemma QuotedHead(s: string, rest: string)
    ensures Quoted(s, rest) != [] && Quoted(s, rest)[0] == '\''
  {
  }

  lemma SignIsNoRoot(text: string)
    requires text != [] && text[0] == '-'
    ensures ReadRoot(text) == None
  {
    assert RunLength(IsIdentifierChar, text) == 0;
    assert ReadRun(IsIdentifierChar, text).0 == "";
  }

  lemma BooleanReads(b: bool, rest: string)
    requires EndsRun(IsIdentifierChar, rest)
    ensures ReadRoot((if b then "true" else "false") + rest) == Some((BooleanRoot(b), rest))
  {
    var w := if b then "true" else "false";
    RunReads(IsIdentifierChar, w, rest);
    assert (w + rest)[0] == w[0];
  }

  lemma {:induction false} ComparisonRead(root: Root, rest: string)
    requires IsComparison(root) && ExprWellFormed(root.left) && ExprWellFormed(root.right)
    ensures ReadRoot(PrintRoot(root, rest)) == if ExprReads(root.left) && ExprReads(root.right) then Some((root, rest)) else None
    decreases root
  {
    hide PrintExpr, ReadExpr, ExprReads;
    var sign := Sign(root);
    var more := PrintExpr(root.right, ")" + rest);
    var body := PrintExpr(root.left, sign + more);
    var text := "(" + body;
    assert PrintRoot(root, rest) == text && text[1..] == body && text[0] == '(';
    assert Stops(sign + more) && Stops(")" + rest);
    ExprRead(root.left, sign + more);
    ExprRead(root.right, ")" + rest);
    Expected(sign, more);
    Expected(")", rest);
    NotExpected(" != ", " == ", more, 1);
    NotExpected(" == ", " != ", more, 1);
  }

  // ---------- lists ----------

  lemma SpecRead(spec: ColumnSpec, rest: string)
    requires SpecWellFormed(spec) && Stops(rest)
    ensures ReadSpec(PrintSpec(spec, rest)) == if SpecReads(spec) then Some((spec, rest)) else None
  {
    hide ReadLabel, ReadIdentifier, ReadExpr, PrintExpr, LabelReads, ExprReads, ColumnName, IsIdentifier;
    var body := PrintExpr(spec.body, rest);
    var bar := " | " + body;
    var colon := ": " + (spec.parameter + bar);
    LabelIsRead(spec.alias, colon);
    Expected(": ", spec.parameter + bar);
    WordReads(spec.parameter, bar);
    Expected(" | ", body);
    ExprRead(spec.body, rest);
  }

  lemma KeyRead(key: KeySpec, rest: string)
    ensures ReadKey(PrintKey(key, rest)) == if LabelReads(key.column) then Some((key, rest)) else None
  {
    hide ReadLabel, LabelReads, ColumnName;
    var named := ColumnName(key.column, ")" + rest);
    LabelIsRead(key.column, ")" + rest);
    Expected(KeyHead(key.direction), named);
    NotExpected("ascending(~", "descending(~", named, 0);
    NotExpected("descending(~", "ascending(~", named, 0);
    Expected(")", rest);
  }

  /** No separator stands where a list closes. */
  lemma NoMore(rest: string)
    requires ClosesList(rest)
    ensures Expect(", ", rest) == None
  {
  }

  lemma {:induction false} MoreSpecsRead(specs: seq<ColumnSpec>, rest: string)
    requires (forall s :: s in specs ==> SpecWellFormed(s)) && ClosesList(rest)
    ensures ReadMoreSpecs(PrintMoreSpecs(specs, rest)) ==
            if forall i :: 0 <= i < |specs| ==> SpecReads(specs[i]) then Some((specs, rest)) else None
    decreases |specs|
  {
    hide ReadSpec, PrintSpec, SpecReads, SpecWellFormed;
    if specs == [] {
      NoMore(rest);
    } else {
      var tail := PrintMoreSpecs(specs[1..], rest);
      MoreSpecsHead(specs[1..], rest);
      Expected(", ", PrintSpec(specs[0], tail));
      SpecRead(specs[0], tail);
      MoreSpecsRead(specs[1..], rest);
      AllOfList(specs, SpecReads);
      assert specs == [specs[0]] + specs[1..];
    }
  }

  lemma AllOfList<T>(list: seq<T>, holds: T -> bool)
    requires list != []
    ensures (forall i :: 0 <= i < |list| ==> holds(list[i])) <==> holds(list[0]) && forall i :: 0 <= i < |list[1..]| ==> holds(list[1..][i])
  {
    if holds(list[0]) && forall i :: 0 <= i < |list[1..]| ==> holds(list[1..][i]) {
      forall i | 0 <= i < |list| ensures holds(list[i]) {
        if i > 0 {
          assert list[i] == list[1..][i - 1];
        }
      }
    }
    if forall i :: 0 <= i < |list| ==> holds(list[i]) {
      forall i | 0 <= i < |list[1..]| ensures holds(list[1..][i]) {
        assert list[1..][i] == list[i + 1];
      }
    }
  }

  lemma SpecsRead(specs: seq<ColumnSpec>, rest: string)
    requires (forall s :: s in specs ==> SpecWellFormed(s)) && ClosesList(rest)
    ensures ReadSpecs(PrintSpecs(specs, rest)) ==
            if forall i :: 0 <= i < |specs| ==> SpecReads(specs[i]) then Some((specs, rest)) else None
  {
    hide ReadSpec, PrintSpec, SpecReads, SpecWellFormed;
    if specs != [] {
      var tail := PrintMoreSpecs(specs[1..], rest);
      SpecHead(specs[0], tail);
      MoreSpecsHead(specs[1..], rest);
      SpecRead(specs[0], tail);
      MoreSpecsRead(specs[1..], rest);
      AllOfList(specs, SpecReads);
      assert specs == [specs[0]] + specs[1..];
    }
  }

  lemma {:induction false} MoreNamesRead(names: seq<string>, rest: string)
    requires ClosesList(rest)
    ensures ReadMoreNames(PrintMoreNames(names, rest)) ==
            if forall i :: 0 <= i < |names| ==> LabelReads(names[i]) then Some((names, rest)) else None
    decreases |names|
  {
    hide ReadLabel, ColumnName, LabelReads;
    if names == [] {
      NoMore(rest);
    } else {
      var tail := PrintMoreNames(names[1..], rest);
      MoreNamesHead(names[1..], rest);
      Expected(", ", ColumnName(names[0], tail));
      LabelIsRead(names[0], tail);
      MoreNamesRead(names[1..], rest);
      AllOfList(names, LabelReads);
      assert names == [names[0]] + names[1..];
    }
  }

  lemma NamesRead(names: seq<string>, rest: string)
    requires ClosesList(rest)
    ensures ReadNames(PrintNames(names, rest)) ==
            if forall i :: 0 <= i < |names| ==> LabelReads(names[i]) then Some((names, rest)) else None
  {
    hide ReadLabel, ColumnName, LabelReads;
    if names != [] {
      var tail := PrintMoreNames(names[1..], rest);
      ColumnNameHead(names[0], tail);
      MoreNamesHead(names[1..], rest);
      LabelIsRead(names[0], tail);
      MoreNamesRead(names[1..], rest);
      AllOfList(names, LabelReads);
      assert names == [names[0]] + names[1..];
    }
  }

  ghost predicate KeyReads(key: KeySpec) {
    LabelReads(key.column)
  }

  lemma {:induction false} MoreKeysRead(keys: seq<KeySpec>, rest: string)
    requires ClosesList(rest)
    ensures ReadMoreKeys(PrintMoreKeys(keys, rest)) ==
            if forall i :: 0 <= i < |keys| ==> KeyReads(keys[i]) then Some((keys, rest)) else None
    decreases |keys|
  {
    hide ReadKey, PrintKey, LabelReads;
    if keys == [] {
      NoMore(rest);
    } else {
      var tail := PrintMoreKeys(keys[1..], rest);
      Expected(", ", PrintKey(keys[0], tail));
      KeyRead(keys[0], tail);
      MoreKeysRead(keys[1..], rest);
      AllOfList(keys, KeyReads);
      assert keys == [keys[0]] + keys[1..];
    }
  }

  lemma KeysRead(keys: seq<KeySpec>, rest: string)
    requires ClosesList(rest)
    ensures ReadKeys(PrintKeys(keys, rest)) ==
            if forall i :: 0 <= i < |keys| ==> KeyReads(keys[i]) then Some((keys, rest)) else None
  {
    hide ReadKey, PrintKey, LabelReads;
    if keys != [] {
      var tail := PrintMoreKeys(keys[1..], rest);
      PrintKeyHead(keys[0], tail);
      KeyRead(keys[0], tail);
      MoreKeysRead(keys[1..], rest);
      AllOfList(keys, KeyReads);
      assert keys == [keys[0]] + keys[1..];
    }
  }

  // ---------- paths ----------

  function JoinPath(segments: seq<string>): string {
    if segments == [] then "" else "::" + (segments[0] + JoinPath(segments[1..]))
  }

  /** A path is its segments with separators between them. */
  lemma {:induction false} SegmentsMakePath(path: string, segment: string)
    ensures var segments := SplitFrom(path, segment);
            segment + path == segments[0] + JoinPath(segments[1..])
    decreases |path|
  {
    if path == [] {
      assert segment + path == segment;
      assert [segment][1..] == [];
    } else if |path| >= 2 && path[0] == ':' && path[1] == ':' {
      SegmentsMakePath(path[2..], "");
      var others := SplitFrom(path[2..], "");
      assert path == "::" + path[2..];
      assert "" + path[2..] == path[2..];
      assert SplitFrom(path, segment)[1..] == others;
    } else {
      SegmentsMakePath(path[1..], segment + [path[0]]);
      assert segment + path == (segment + [path[0]]) + path[1..];
    }
  }

  lemma {:induction false} MorePathRead(segments: seq<string>, rest: string)
    requires (forall s :: s in segments ==> IsIdentifier(s)) && EndsRun(IsPathChar, rest)
    ensures ReadMorePath(JoinPath(segments) + rest) == Some((JoinPath(segments), rest))
    ensures EndsRun(IsIdentifierChar, JoinPath(segments) + rest)
  {
    hide ReadPathWord, IsIdentifier;
    if segments == [] {
      assert JoinPath(segments) + rest == rest;
      assert Expect("::", rest) == None;
    } else {
      var tail := JoinPath(segments[1..]) + rest;
      MorePathRead(segments[1..], rest);
      WordReads(segments[0], tail);
      assert JoinPath(segments) + rest == "::" + (segments[0] + tail);
      Expected("::", segments[0] + tail);
    }
  }

  lemma PathRead(path: string, rest: string)
    requires IsEmittablePath(path) && EndsRun(IsPathChar, rest)
    ensures ReadPath(path + rest) == Some((path, rest))
  {
    hide ReadPathWord, ReadMorePath, IsIdentifier;
    SegmentsMakePath(path, "");
    var segments := SplitPath(path);
    assert "" + path == path;
    var tail := JoinPath(segments[1..]) + rest;
    MorePathRead(segments[1..], rest);
    WordReads(segments[0], tail);
    assert path + rest == segments[0] + tail;
  }

  // ---------- steps ----------

  /** Only its own head opens a step. */
  lemma HeadsOpen(step: Step, body: string)
    requires !step.PropertyStep?
    ensures var text := StepHead(step) + body;
            && Expect("->", text).Some?
            && Expect("->filter(", text) == (if step.FilterStep? then Some(body) else None)
            && Expect("->map(", text) == (if step.MapStep? then Some(body) else None)
            && Expect("->project(~[", text) == (if step.ProjectStep? then Some(body) else None)
            && Expect("->join(", text) == (if step.JoinStep? then Some(body) else None)
            && Expect("->distinct()", text) == (if step.DistinctStep? then Some(body) else None)
            && Expect("->distinct(~[", text) == (if step.DistinctOnStep? then Some(body) else None)
            && Expect("->sort([", text) == (if step.SortStep? then Some(body) else None)
  {
    hide Expect;
    var head := StepHead(step);
    Expected(head, body);
    var more := head[2..] + body;
    assert head + body == "->" + more;
    Expected("->", more);
    if !step.FilterStep? {
      NotExpected("->filter(", head, body, 2);
    }
    if !step.MapStep? {
      NotExpected("->map(", head, body, 2);
    }
    if !step.ProjectStep? {
      NotExpected("->project(~[", head, body, 2);
    }
    if !step.JoinStep? {
      NotExpected("->join(", head, body, 2);
    }
    if !step.DistinctStep? {
      NotExpected("->distinct()", head, body, if step.DistinctOnStep? then 11 else 2);
    }
    if !step.DistinctOnStep? {
      NotExpected("->distinct(~[", head, body, if step.DistinctStep? then 11 else 2);
    }
    if !step.SortStep? {
      NotExpected("->sort([", head, body, 2);
    }
  }

  lemma LambdaRead(parameter: string, body: Expr, rest: string)
    requires IsIdentifier(parameter) && ExprWellFormed(body)
    ensures ReadLambda(parameter + ("| " + PrintExpr(body, ")" + rest))) ==
            if parameter !in RESERVED && ExprReads(body) then Some(((parameter, body), ")" + rest)) else None
  {
    hide ReadIdentifier, ReadExpr, PrintExpr, ExprReads, IsIdentifier;
    var text := PrintExpr(body, ")" + rest);
    WordReads(parameter, "| " + text);
    Expected("| ", text);
    ExprRead(body, ")" + rest);
  }

  lemma JoinTailRead(right: Query, l: string, r: string, condition: Expr, rest: string)
    requires IsIdentifier(l) && IsIdentifier(r) && ExprWellFormed(condition)
    ensures ReadJoin(right, ", JoinKind.INNER, {" + (l + (", " + (r + (" | " + PrintExpr(condition, "})" + rest)))))) ==
            if l !in RESERVED && r !in RESERVED && ExprReads(condition) then Some((JoinStep(right, false, l, r, condition), rest)) else None
  {
    hide ReadIdentifier, ReadExpr, PrintExpr, ExprReads, IsIdentifier;
    var text := PrintExpr(condition, "})" + rest);
    var bar := " | " + text;
    var comma := ", " + (r + bar);
    Expected(", JoinKind.INNER, {", l + comma);
    WordReads(l, comma);
    Expected(", ", r + bar);
    WordReads(r, bar);
    Expected(" | ", text);
    ExprRead(condition, "})" + rest);
    Expected("})", rest);
  }

  function StepBody(step: Step, rest: string): string {
    PrintStep(step, rest)[|StepHead(step)|..]
  }

  lemma {:induction false} StepRead(step: Step, rest: string)
    requires StepWellFormed(step)
    ensures ReadStep(PrintStep(step, rest)) == if StepReads(step) then Some((step, rest)) else None
    ensures Expect("->", PrintStep(step, rest)).Some?
    decreases step, 1
  {
    hide ReadLambda, ReadSpecs, ReadNames, ReadKeys, ReadQuery, ReadJoin, PrintExpr, PrintSpecs, PrintNames, PrintKeys, PrintQuery, ExprReads, SpecReads,
         LabelReads, QueryReads, Expect, IsIdentifier;
    var body := StepBody(step, rest);
    assert PrintStep(step, rest) == StepHead(step) + body;
    HeadsOpen(step, body);
    Expected(")", rest);
    Expected("])", rest);
    match step
    case FilterStep(parameter, x) => LambdaRead(parameter, x, rest);
    case MapStep(parameter, x) => LambdaRead(parameter, x, rest);
    case ProjectStep(specs) => SpecsRead(specs, "])" + rest);
    case JoinStep(right, _, l, r, condition) =>
      var others := ", JoinKind.INNER, {" + (l + (", " + (r + (" | " + PrintExpr(condition, "})" + rest)))));
      assert body == PrintQuery(right, others);
      QueryRead(right, others);
      JoinTailRead(right, l, r, condition, rest);
    case DistinctStep => assert body == rest;
    case DistinctOnStep(names) => NamesRead(names, "])" + rest);
    case SortStep(keys) =>
      KeysRead(keys, "])" + rest);
      assert (forall i :: 0 <= i < |keys| ==> KeyReads(keys[i])) <==> forall i :: 0 <= i < |keys| ==> LabelReads(keys[i].column);
  }

  /** Where a pipeline ends no arrow stands. */
  lemma NoArrow(rest: string)
    requires EndsPipeline(rest)
    ensures Expect("->", rest) == None
  {
  }

  lemma {:induction false} StepsAreRead(steps: seq<Step>, rest: string)
    requires StepsWellFormed(steps) && EndsPipeline(rest)
    ensures ReadSteps(PrintSteps(steps, rest)) == if StepsRead(steps) then Some((steps, rest)) else None
    decreases steps, 2
  {
    hide ReadStep, PrintStep, StepReads, StepWellFormed, Expect;
    if steps == [] {
      NoArrow(rest);
    } else {
      var tail := PrintSteps(steps[1..], rest);
      StepRead(steps[0], tail);
      StepsAreRead(steps[1..], rest);
      assert steps == [steps[0]] + steps[1..];
    }
  }

  lemma {:induction false} QueryRead(q: Query, rest: string)
    requires QueryWellFormed(q) && EndsPipeline(rest)
    ensures ReadQuery(PrintQuery(q, rest)) == if QueryReads(q) then Some((q, rest)) else None
    decreases q, 3
  {
    hide ReadPath, ReadSteps, PrintSteps, StepsRead, StepsWellFormed, IsEmittablePath;
    var tail := PrintSteps(q.steps, rest);
    PathRead(q.path, ".all()" + tail);
    Expected(".all()", tail);
    StepsAreRead(q.steps, rest);
  }

  /** Reading a printed query recovers it exactly when no bare word of it is
      reserved, no number negative and every quoted label a name; otherwise the
      text spells no query. */
  lemma TextReadsExactly(q: Query)
    requires QueryWellFormed(q)
    ensures ReadText(QueryText(q)) == if QueryReads(q) then Some(q) else None
  {
    hide ReadQuery, PrintQuery, QueryReads, QueryWellFormed;
    QueryRead(q, "");
  }
}
