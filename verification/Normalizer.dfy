/** Bounded normalization: three guarded rewrites applied bottom-up, a work
    budget charged once per node and a depth bound on live frames. */
module Normalization {
  import opened Basics
  import opened Relational
  import opened Semantics

  // ---------- the rewrites ----------

  predicate IsIdentityRead(projection: Projection, column: Column) {
    var e := projection.expression;
    && projection.column == column.id
    && e.typeRef == column.typeRef
    && e.multiplicity == column.multiplicity
    && e.nullability == column.nullability
    && e.totality.Unknown?
    && e.operator == ColumnRead(column.id)
  }

  predicate IsIdentityProject(input: Relation, schema: Schema, facts: Facts, projections: seq<Projection>) {
    && schema == input.schema
    && facts == input.facts
    && |projections| == |schema|
    && forall i :: 0 <= i < |schema| ==> IsIdentityRead(projections[i], schema[i])
  }

  predicate IsLiteralTrueFilter(input: Relation, schema: Schema, facts: Facts, condition: Scalar) {
    && schema == input.schema
    && facts == input.facts
    && condition.totality.Unknown?
    && condition.operator == Literal(BooleanLiteral(true))
  }

  predicate IsRepeatedDistinct(input: Relation, schema: Schema, facts: Facts) {
    schema == input.schema && facts.Matches(input.facts) && input.operator.Distinct?
  }

  /** Whether a rewrite applies at the root of `r`. */
  predicate IsRedex(r: Relation) {
    match r.operator
    case Filter(input, condition) => IsLiteralTrueFilter(input, r.schema, r.facts, condition)
    case Project(input, projections, _) => IsIdentityProject(input, r.schema, r.facts, projections)
    case Distinct(input) => IsRepeatedDistinct(input, r.schema, r.facts)
    case _ => false
  }

  /** The normal form: normalize the inputs, then drop the node if it is a redex. */
  function Normal(r: Relation): Relation
    decreases r
  {
    match r.operator
    case Scan(_) => r
    case Filter(input, condition) =>
      var n := Normal(input);
      if IsLiteralTrueFilter(n, r.schema, r.facts, condition) then n else r.(operator := Filter(n, condition))
    case Project(input, projections, kind) =>
      var n := Normal(input);
      if IsIdentityProject(n, r.schema, r.facts, projections) then n else r.(operator := Project(n, projections, kind))
    case Join(kind, left, right, condition) => r.(operator := Join(kind, Normal(left), Normal(right), condition))
    case Distinct(input) =>
      var n := Normal(input);
      if IsRepeatedDistinct(n, r.schema, r.facts) then n else r.(operator := Distinct(n))
    case DistinctOn(input, columns) => r.(operator := DistinctOn(Normal(input), columns))
    case Sort(input, keys) => r.(operator := Sort(Normal(input), keys))
  }

  /** Rebuilding never fails: the normal form is valid, with the same output
      schema and, up to how they were proved, the same facts. */
  lemma {:induction false} NormalIsValid(r: Relation)
    requires Valid(r)
    ensures Valid(Normal(r))
    ensures Normal(r).schema == r.schema
    ensures Normal(r).facts.Matches(r.facts)
    decreases r
  {
    match r.operator
    case Scan(_) =>
    case Filter(input, _) => NormalIsValid(input);
    case Project(input, _, _) => NormalIsValid(input);
    case Join(_, left, right, _) =>
      NormalIsValid(left);
      NormalIsValid(right);
    case Distinct(input) => NormalIsValid(input);
    case DistinctOn(input, _) => NormalIsValid(input);
    case Sort(input, _) => NormalIsValid(input);
  }

  lemma {:induction false} TrueFilterKeepsAll(db: Database, ids: seq<ColumnId>, condition: Scalar, rows: seq<Row>)
    requires condition.operator == Literal(BooleanLiteral(true))
    ensures FilterRows(db, ids, condition, rows) == rows
  {
    if rows != [] {
      TrueFilterKeepsAll(db, ids, condition, rows[1..]);
      assert rows == [rows[0]] + rows[1..];
    }
  }

  lemma IdentityProjectKeepsAll(db: Database, input: Relation, projections: seq<Projection>)
    requires Valid(input)
    requires IsIdentityProject(input, input.schema, input.facts, projections)
    ensures ProjectRows(db, Ids(input.schema), projections, Denote(db, input)) == Denote(db, input)
  {
    var ids, rows := Ids(input.schema), Denote(db, input);
    RowWidth(db, input);
    forall i | 0 <= i < |rows| ensures ProjectRow(db, ids, projections, rows[i]) == rows[i] {
      forall j | 0 <= j < |projections| ensures ProjectRow(db, ids, projections, rows[i])[j] == rows[i][j] {
        assert IsIdentityRead(projections[j], input.schema[j]);
        assert NoRepeats(ids) && ids[j] == input.schema[j].id;
        PositionOf(ids, j);
      }
    }
  }

  /** Normalization preserves meaning, through every rewrite at any nesting. */
  lemma {:induction false} NormalPreservesMeaning(db: Database, r: Relation)
    requires Valid(r)
    ensures Denote(db, Normal(r)) == Denote(db, r)
    decreases r
  {
    match r.operator
    case Scan(_) =>
    case Filter(input, condition) =>
      NormalPreservesMeaning(db, input);
      NormalIsValid(input);
      if IsLiteralTrueFilter(Normal(input), r.schema, r.facts, condition) {
        TrueFilterKeepsAll(db, Ids(input.schema), condition, Denote(db, input));
      }
    case Project(input, projections, _) =>
      NormalPreservesMeaning(db, input);
      NormalIsValid(input);
      if IsIdentityProject(Normal(input), r.schema, r.facts, projections) {
        IdentityProjectKeepsAll(db, Normal(input), projections);
      }
    case Join(_, left, right, _) =>
      NormalPreservesMeaning(db, left);
      NormalPreservesMeaning(db, right);
      NormalIsValid(left);
      NormalIsValid(right);
    case Distinct(input) =>
      NormalPreservesMeaning(db, input);
      NormalIsValid(input);
      if IsRepeatedDistinct(Normal(input), r.schema, r.facts) {
        DistinctTwice(Denote(db, Normal(input).operator.input));
      }
    case DistinctOn(input, _) =>
      NormalPreservesMeaning(db, input);
      NormalIsValid(input);
    case Sort(input, _) =>
      NormalPreservesMeaning(db, input);
      NormalIsValid(input);
  }

  /** No rewrite applies anywhere inside. */
  predicate IsNormalForm(r: Relation)
    decreases r
  {
    && !IsRedex(r)
    && match r.operator
       case Scan(_) => true
       case Filter(input, _) => IsNormalForm(input)
       case Project(input, _, _) => IsNormalForm(input)
       case Join(_, left, right, _) => IsNormalForm(left) && IsNormalForm(right)
       case Distinct(input) => IsNormalForm(input)
       case DistinctOn(input, _) => IsNormalForm(input)
       case Sort(input, _) => IsNormalForm(input)
  }

  /** Exactly the normal forms are left unchanged, and every result is one. */
  lemma {:induction false} NormalFormsAreFixed(r: Relation)
    ensures IsNormalForm(Normal(r))
    ensures IsNormalForm(r) ==> Normal(r) == r
    decreases r
  {
    match r.operator
    case Scan(_) =>
    case Filter(input, _) => NormalFormsAreFixed(input);
    case Project(input, _, _) => NormalFormsAreFixed(input);
    case Join(_, left, right, _) =>
      NormalFormsAreFixed(left);
      NormalFormsAreFixed(right);
    case Distinct(input) => NormalFormsAreFixed(input);
    case DistinctOn(input, _) => NormalFormsAreFixed(input);
    case Sort(input, _) => NormalFormsAreFixed(input);
  }

  /** The operators of a relation. */
  function Operators(r: Relation): nat
    decreases r
  {
    match r.operator
    case Scan(_) => 1
    case Filter(input, _) => 1 + Operators(input)
    case Project(input, _, _) => 1 + Operators(input)
    case Join(_, left, right, _) => 1 + Operators(left) + Operators(right)
    case Distinct(input) => 1 + Operators(input)
    case DistinctOn(input, _) => 1 + Operators(input)
    case Sort(input, _) => 1 + Operators(input)
  }

  /** Normalization drops an operator from everything that is not a normal form. */
  lemma {:induction false} NormalDropsOperators(r: Relation)
    ensures Operators(Normal(r)) <= Operators(r)
    ensures Operators(Normal(r)) == Operators(r) ==> Normal(r) == r
    decreases r
  {
    hide IsIdentityProject, IsLiteralTrueFilter, IsRepeatedDistinct;
    match r.operator
    case Scan(_) =>
    case Filter(input, _) => NormalDropsOperators(input);
    case Project(input, _, _) => NormalDropsOperators(input);
    case Join(_, left, right, _) =>
      NormalDropsOperators(left);
      NormalDropsOperators(right);
    case Distinct(input) => NormalDropsOperators(input);
    case DistinctOn(input, _) => NormalDropsOperators(input);
    case Sort(input, _) => NormalDropsOperators(input);
  }

  // ---------- work and depth ----------

  function Max(a: nat, b: nat): nat {
    if a < b then b else a
  }

  function ScalarCount(e: Scalar): nat
    decreases e
  {
    match e.operator
    case ColumnRead(_) => 1
    case Literal(_) => 1
    case Navigation(input, _) => 1 + ScalarCount(input)
    case Equal(left, right) => 1 + ScalarCount(left) + ScalarCount(right)
    case Not(input) => 1 + ScalarCount(input)
  }

  function ScalarHeight(e: Scalar): nat
    decreases e
  {
    match e.operator
    case ColumnRead(_) => 1
    case Literal(_) => 1
    case Navigation(input, _) => 1 + ScalarHeight(input)
    case Equal(left, right) => 1 + Max(ScalarHeight(left), ScalarHeight(right))
    case Not(input) => 1 + ScalarHeight(input)
  }

  function ProjectionsCount(projections: seq<Projection>): nat {
    if projections == [] then 0
    else ScalarCount(projections[0].expression) + ProjectionsCount(projections[1..])
  }

  function ProjectionsHeight(projections: seq<Projection>): nat {
    if projections == [] then 0
    else Max(ScalarHeight(projections[0].expression), ProjectionsHeight(projections[1..]))
  }

  /** Relation and scalar nodes in a query. */
  function Count(r: Relation): nat
    decreases r
  {
    match r.operator
    case Scan(_) => 1
    case Filter(input, condition) => 1 + Count(input) + ScalarCount(condition)
    case Project(input, projections, _) => 1 + Count(input) + ProjectionsCount(projections)
    case Join(_, left, right, condition) => 1 + Count(left) + Count(right) + ScalarCount(condition)
    case Distinct(input) => 1 + Count(input)
    case DistinctOn(input, _) => 1 + Count(input)
    case Sort(input, _) => 1 + Count(input)
  }

  /** The longest chain of nested relation and scalar nodes. */
  function Height(r: Relation): nat
    decreases r
  {
    match r.operator
    case Scan(_) => 1
    case Filter(input, condition) => 1 + Max(Height(input), ScalarHeight(condition))
    case Project(input, projections, _) => 1 + Max(Height(input), ProjectionsHeight(projections))
    case Join(_, left, right, condition) => 1 + Max(Max(Height(left), Height(right)), ScalarHeight(condition))
    case Distinct(input) => 1 + Height(input)
    case DistinctOn(input, _) => 1 + Height(input)
    case Sort(input, _) => 1 + Height(input)
  }

  /** The nodes a run opens, in order: each with its origin and the number of
      frames already open above it. */
  datatype Trace = Done | Visit(origin: IrOrigin, depth: nat, next: Trace)

  function ScalarVisits(e: Scalar, depth: nat, rest: Trace): Trace
    decreases e, 1
  {
    Visit(e.origin, depth, ScalarVisitsBelow(e, depth + 1, rest))
  }

  function ScalarVisitsBelow(e: Scalar, depth: nat, rest: Trace): Trace
    decreases e, 0
  {
    match e.operator
    case ColumnRead(_) => rest
    case Literal(_) => rest
    case Navigation(input, _) => ScalarVisits(input, depth, rest)
    case Equal(left, right) => ScalarVisits(left, depth, ScalarVisits(right, depth, rest))
    case Not(input) => ScalarVisits(input, depth, rest)
  }

  function ProjectionVisits(projections: seq<Projection>, depth: nat, rest: Trace): Trace {
    if projections == [] then rest
    else ScalarVisits(projections[0].expression, depth, ProjectionVisits(projections[1..], depth, rest))
  }

  /** The nodes of `r`, and then `rest`. */
  function Visits(r: Relation, depth: nat, rest: Trace): Trace
    decreases r, 1
  {
    Visit(r.origin, depth, VisitsBelow(r, depth + 1, rest))
  }

  function VisitsBelow(r: Relation, depth: nat, rest: Trace): Trace
    decreases r, 0
  {
    match r.operator
    case Scan(_) => rest
    case Filter(input, condition) => Visits(input, depth, ScalarVisits(condition, depth, rest))
    case Project(input, projections, _) => Visits(input, depth, ProjectionVisits(projections, depth, rest))
    case Join(_, left, right, condition) =>
      Visits(left, depth, Visits(right, depth, ScalarVisits(condition, depth, rest)))
    case Distinct(input) => Visits(input, depth, rest)
    case DistinctOn(input, _) => Visits(input, depth, rest)
    case Sort(input, _) => Visits(input, depth, rest)
  }

  datatype Outcome = Finished(left: nat) | Refused(origin: IrOrigin)

  /** A run ends at the first node the work budget or the depth bound turns
      away, or after the last node with the unspent budget. */
  function Run(trace: Trace, budget: nat): Outcome {
    match trace
    case Done => Finished(budget)
    case Visit(origin, depth, next) =>
      if budget == 0 || depth >= MAX_RELATIONAL_RECURSION_DEPTH then Refused(origin) else Run(next, budget - 1)
  }

  ghost predicate Spends(trace: Trace, rest: Trace, budget: nat, count: nat, deepest: nat) {
    if count <= budget && deepest <= MAX_RELATIONAL_RECURSION_DEPTH
    then Run(trace, budget) == Run(rest, budget - count)
    else Run(trace, budget).Refused?
  }

  lemma {:induction false} ScalarSpends(e: Scalar, depth: nat, rest: Trace, budget: nat)
    ensures Spends(ScalarVisits(e, depth, rest), rest, budget, ScalarCount(e), depth + ScalarHeight(e))
    decreases e
  {
    if budget > 0 && depth < MAX_RELATIONAL_RECURSION_DEPTH {
      match e.operator
      case ColumnRead(_) =>
      case Literal(_) =>
      case Navigation(input, _) => ScalarSpends(input, depth + 1, rest, budget - 1);
      case Equal(left, right) =>
        ScalarSpends(left, depth + 1, ScalarVisits(right, depth + 1, rest), budget - 1);
        if ScalarCount(left) < budget {
          ScalarSpends(right, depth + 1, rest, budget - 1 - ScalarCount(left));
        }
      case Not(input) => ScalarSpends(input, depth + 1, rest, budget - 1);
    }
  }

  lemma {:induction false} ProjectionsSpend(projections: seq<Projection>, depth: nat, rest: Trace, budget: nat)
    requires depth <= MAX_RELATIONAL_RECURSION_DEPTH
    ensures Spends(ProjectionVisits(projections, depth, rest), rest, budget,
                   ProjectionsCount(projections), depth + ProjectionsHeight(projections))
  {
    if projections != [] {
      var e := projections[0].expression;
      ScalarSpends(e, depth, ProjectionVisits(projections[1..], depth, rest), budget);
      if ScalarCount(e) <= budget {
        ProjectionsSpend(projections[1..], depth, rest, budget - ScalarCount(e));
      }
    }
  }

  /** Costs add up and depths take the larger when one stretch follows another. */
  lemma SpendsInSequence(first: Trace, second: Trace, rest: Trace, budget: nat, c1: nat, d1: nat, c2: nat, d2: nat)
    requires Spends(first, second, budget, c1, d1)
    requires c1 <= budget ==> Spends(second, rest, budget - c1, c2, d2)
    ensures Spends(first, rest, budget, c1 + c2, Max(d1, d2))
  {
  }

  lemma NodeSpends(origin: IrOrigin, depth: nat, below: Trace, rest: Trace, budget: nat, count: nat, deepest: nat)
    requires deepest > depth
    requires budget > 0 && depth < MAX_RELATIONAL_RECURSION_DEPTH ==> Spends(below, rest, budget - 1, count, deepest)
    ensures Spends(Visit(origin, depth, below), rest, budget, 1 + count, deepest)
  {
  }

  lemma NothingSpent(rest: Trace, budget: nat, deepest: nat)
    requires deepest <= MAX_RELATIONAL_RECURSION_DEPTH
    ensures Spends(rest, rest, budget, 0, deepest)
  {
  }

  lemma {:induction false} RelationSpends(r: Relation, depth: nat, rest: Trace, budget: nat)
    ensures Spends(Visits(r, depth, rest), rest, budget, Count(r), depth + Height(r))
    decreases r, 2
  {
    hide Run, Spends;
    if budget > 0 && depth < MAX_RELATIONAL_RECURSION_DEPTH {
      BelowSpends(r, depth + 1, rest, budget - 1);
    }
    NodeSpends(r.origin, depth, VisitsBelow(r, depth + 1, rest), rest, budget, Count(r) - 1, depth + Height(r));
  }

  lemma {:induction false} BelowSpends(r: Relation, d: nat, rest: Trace, b: nat)
    requires d <= MAX_RELATIONAL_RECURSION_DEPTH
    ensures Spends(VisitsBelow(r, d, rest), rest, b, Count(r) - 1, d + Height(r) - 1)
    decreases r, 1
  {
    hide Run, Spends, ScalarVisits, ProjectionVisits, ScalarCount, ScalarHeight, ProjectionsCount, ProjectionsHeight;
    match r.operator
    case Scan(_) => NothingSpent(rest, b, d);
    case Filter(input, condition) =>
      var second := ScalarVisits(condition, d, rest);
      RelationSpends(input, d, second, b);
      if Count(input) <= b {
        ScalarSpends(condition, d, rest, b - Count(input));
      }
      SpendsInSequence(Visits(input, d, second), second, rest, b,
                       Count(input), d + Height(input), ScalarCount(condition), d + ScalarHeight(condition));
    case Project(input, projections, _) =>
      var second := ProjectionVisits(projections, d, rest);
      RelationSpends(input, d, second, b);
      if Count(input) <= b {
        ProjectionsSpend(projections, d, rest, b - Count(input));
      }
      SpendsInSequence(Visits(input, d, second), second, rest, b,
                       Count(input), d + Height(input), ProjectionsCount(projections), d + ProjectionsHeight(projections));
    case Join(_, _, _, _) => JoinSpends(r, d, rest, b);
    case Distinct(input) => RelationSpends(input, d, rest, b);
    case DistinctOn(input, _) => RelationSpends(input, d, rest, b);
    case Sort(input, _) => RelationSpends(input, d, rest, b);
  }

  lemma {:induction false} JoinSpends(r: Relation, d: nat, rest: Trace, b: nat)
    requires d <= MAX_RELATIONAL_RECURSION_DEPTH && r.operator.Join?
    ensures Spends(VisitsBelow(r, d, rest), rest, b, Count(r) - 1, d + Height(r) - 1)
    decreases r, 0
  {
    hide Run, Spends, ScalarVisits, ScalarCount, ScalarHeight;
    var left, right, condition := r.operator.left, r.operator.right, r.operator.condition;
    var third := ScalarVisits(condition, d, rest);
    var second := Visits(right, d, third);
    RelationSpends(left, d, second, b);
    if Count(left) <= b {
      RelationSpends(right, d, third, b - Count(left));
    }
    SpendsInSequence(Visits(left, d, second), second, third, b,
                     Count(left), d + Height(left), Count(right), d + Height(right));
    if Count(left) + Count(right) <= b {
      ScalarSpends(condition, d, rest, b - Count(left) - Count(right));
    }
    SpendsInSequence(Visits(left, d, second), third, rest, b,
                     Count(left) + Count(right), Max(d + Height(left), d + Height(right)),
                     ScalarCount(condition), d + ScalarHeight(condition));
  }

  /** Exactly when normalization goes through: the node count fits the budget
      and no chain of nested nodes is longer than the depth bound. */
  lemma RunFinishes(r: Relation, budget: nat)
    ensures Run(Visits(r, 0, Done), budget).Finished? <==>
            Count(r) <= budget && Height(r) <= MAX_RELATIONAL_RECURSION_DEPTH
    ensures Run(Visits(r, 0, Done), budget).Finished? ==>
            Run(Visits(r, 0, Done), budget) == Finished(budget - Count(r))
  {
    RelationSpends(r, 0, Done, budget);
  }

  /** Rewriting never adds work or depth. */
  lemma {:induction false} NormalIsNoLarger(r: Relation)
    ensures Count(Normal(r)) <= Count(r)
    ensures Height(Normal(r)) <= Height(r)
    decreases r
  {
    hide IsIdentityProject, IsLiteralTrueFilter, IsRepeatedDistinct, ScalarCount, ScalarHeight, ProjectionsCount, ProjectionsHeight;
    match r.operator
    case Scan(_) =>
    case Filter(input, _) => NormalIsNoLarger(input);
    case Project(input, _, _) => NormalIsNoLarger(input);
    case Join(_, left, right, _) =>
      NormalIsNoLarger(left);
      NormalIsNoLarger(right);
    case Distinct(input) => NormalIsNoLarger(input);
    case DistinctOn(input, _) => NormalIsNoLarger(input);
    case Sort(input, _) => NormalIsNoLarger(input);
  }

  // ---------- the normalizer ----------

  /** What opening `trace` up to `rest` does to the budget and hands back. */
  ghost predicate Ran<T>(trace: Trace, rest: Trace, before: nat, value: T, result: Result<T, IrOrigin>, after: nat) {
    match result
    case Success(v) => v == value && Run(trace, before) == Run(rest, after)
    case Failure(origin) => Run(trace, before) == Refused(origin)
  }

  class Normalizer {
    var remainingSteps: nat
    var depth: nat

    constructor (budget: nat)
      ensures remainingSteps == budget && depth == 0
    {
      remainingSteps := budget;
      depth := 0;
    }

    method Consume() returns (ok: bool)
      modifies this`remainingSteps
      ensures ok <==> old(remainingSteps) > 0
      ensures remainingSteps == if ok then old(remainingSteps) - 1 else 0
    {
      if remainingSteps == 0 {
        return false;
      }
      remainingSteps := remainingSteps - 1;
      return true;
    }

    method Enter() returns (ok: bool)
      modifies this`depth
      ensures ok <==> old(depth) < MAX_RELATIONAL_RECURSION_DEPTH
      ensures depth == if ok then old(depth) + 1 else old(depth)
    {
      if depth >= MAX_RELATIONAL_RECURSION_DEPTH {
        return false;
      }
      depth := depth + 1;
      return true;
    }

    method RelationNode(r: Relation, ghost rest: Trace) returns (result: Result<Relation, IrOrigin>)
      requires Valid(r)
      modifies this
      ensures depth == old(depth)
      ensures Ran(Visits(r, old(depth), rest), rest, old(remainingSteps), Normal(r), result, remainingSteps)
      decreases r, 1
    {
      var ok := Consume();
      if !ok {
        return Failure(r.origin);
      }
      ok := Enter();
      if !ok {
        return Failure(r.origin);
      }
      result := RelationAtDepth(r, rest);
      depth := depth - 1;
    }

    method RelationAtDepth(r: Relation, ghost rest: Trace) returns (result: Result<Relation, IrOrigin>)
      requires Valid(r) && depth > 0
      modifies this
      ensures depth == old(depth)
      ensures Ran(VisitsBelow(r, old(depth), rest), rest, old(remainingSteps), Normal(r), result, remainingSteps)
      decreases r, 0
    {
      NormalIsValid(r);
      match r.operator {
        case Scan(_) =>
          return Success(r);
        case Filter(input, condition) =>
          NormalIsValid(input);
          var n := RelationNode(input, ScalarVisits(condition, depth, rest));
          if n.Failure? {
            return n;
          }
          var p := ScalarNode(condition, rest);
          if p.Failure? {
            return Failure(p.error);
          }
          if IsLiteralTrueFilter(n.value, r.schema, r.facts, p.value) {
            return n;
          }
          result := Rebuild(Filter(n.value, p.value), r.schema, r.facts, r.origin);
        case Project(input, projections, kind) =>
          NormalIsValid(input);
          var n := RelationNode(input, ProjectionVisits(projections, depth, rest));
          if n.Failure? {
            return n;
          }
          var ps := Projections(projections, rest);
          if ps.Failure? {
            return Failure(ps.error);
          }
          if IsIdentityProject(n.value, r.schema, r.facts, ps.value) {
            return n;
          }
          result := Rebuild(Project(n.value, ps.value, kind), r.schema, r.facts, r.origin);
        case Join(kind, left, right, condition) =>
          NormalIsValid(left);
          NormalIsValid(right);
          var l := RelationNode(left, Visits(right, depth, ScalarVisits(condition, depth, rest)));
          if l.Failure? {
            return l;
          }
          var rr := RelationNode(right, ScalarVisits(condition, depth, rest));
          if rr.Failure? {
            return rr;
          }
          var p := ScalarNode(condition, rest);
          if p.Failure? {
            return Failure(p.error);
          }
          result := Rebuild(Join(kind, l.value, rr.value, p.value), r.schema, r.facts, r.origin);
        case Distinct(input) =>
          NormalIsValid(input);
          var n := RelationNode(input, rest);
          if n.Failure? {
            return n;
          }
          if IsRepeatedDistinct(n.value, r.schema, r.facts) {
            return n;
          }
          result := Rebuild(Distinct(n.value), r.schema, r.facts, r.origin);
        case DistinctOn(input, columns) =>
          NormalIsValid(input);
          var n := RelationNode(input, rest);
          if n.Failure? {
            return n;
          }
          result := Rebuild(DistinctOn(n.value, columns), r.schema, r.facts, r.origin);
        case Sort(input, keys) =>
          NormalIsValid(input);
          var n := RelationNode(input, rest);
          if n.Failure? {
            return n;
          }
          result := Rebuild(Sort(n.value, keys), r.schema, r.facts, r.origin);
      }
    }

    method Projections(projections: seq<Projection>, ghost rest: Trace) returns (result: Result<seq<Projection>, IrOrigin>)
      modifies this
      ensures depth == old(depth)
      ensures Ran(ProjectionVisits(projections, old(depth), rest), rest, old(remainingSteps), projections, result, remainingSteps)
      decreases projections, 2
    {
      var done: seq<Projection> := [];
      for i := 0 to |projections|
        invariant depth == old(depth)
        invariant done == projections[..i]
        invariant Run(ProjectionVisits(projections, depth, rest), old(remainingSteps)) ==
                  Run(ProjectionVisits(projections[i..], depth, rest), remainingSteps)
      {
        assert projections[i..][1..] == projections[i + 1..];
        var e := ScalarNode(projections[i].expression, ProjectionVisits(projections[i + 1..], depth, rest));
        if e.Failure? {
          return Failure(e.error);
        }
        done := done + [Projection(projections[i].column, e.value)];
      }
      assert projections[..|projections|] == projections;
      return Success(done);
    }

    method ScalarNode(e: Scalar, ghost rest: Trace) returns (result: Result<Scalar, IrOrigin>)
      modifies this
      ensures depth == old(depth)
      ensures Ran(ScalarVisits(e, old(depth), rest), rest, old(remainingSteps), e, result, remainingSteps)
      decreases e, 1
    {
      var ok := Consume();
      if !ok {
        return Failure(e.origin);
      }
      ok := Enter();
      if !ok {
        return Failure(e.origin);
      }
      result := ScalarAtDepth(e, rest);
      depth := depth - 1;
    }

    method ScalarAtDepth(e: Scalar, ghost rest: Trace) returns (result: Result<Scalar, IrOrigin>)
      requires depth > 0
      modifies this
      ensures depth == old(depth)
      ensures Ran(ScalarVisitsBelow(e, old(depth), rest), rest, old(remainingSteps), e, result, remainingSteps)
      decreases e, 0
    {
      match e.operator {
        case ColumnRead(_) =>
        case Literal(_) =>
        case Navigation(input, _) =>
          var n := ScalarNode(input, rest);
          if n.Failure? {
            return n;
          }
        case Equal(left, right) =>
          var n := ScalarNode(left, ScalarVisits(right, depth, rest));
          if n.Failure? {
            return n;
          }
          n := ScalarNode(right, rest);
          if n.Failure? {
            return n;
          }
        case Not(input) =>
          var n := ScalarNode(input, rest);
          if n.Failure? {
            return n;
          }
      }
      return Success(e);
    }
  }

  method Rebuild(operator: RelationOperator, schema: Schema, facts: Facts, origin: IrOrigin)
    returns (result: Result<Relation, IrOrigin>)
    ensures OperatorOk(operator, schema) && KeysInScope(facts, schema) ==>
              result == Success(Relation(operator, schema, facts, origin))
    ensures !(OperatorOk(operator, schema) && KeysInScope(facts, schema)) ==> result == Failure(origin)
  {
    var r := NewRelation(operator, schema, facts, origin);
    return if r.Success? then Success(r.value) else Failure(origin);
  }
}
