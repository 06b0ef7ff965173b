/** Dropping a relation of any depth with a worklist instead of recursion.
    Operators are values here: detaching an input yields the operator with a
    childless placeholder in its place, and the operator that was taken out. */
module IterativeDrop {
  import opened Basics
  import opened Relational

  /** The source at the end of the first-input chain. */
  function LeafSource(r: Relation): ResolvedClass
    decreases r
  {
    match r.operator
    case Scan(c) => c
    case Filter(input, _) => LeafSource(input)
    case Project(input, _, _) => LeafSource(input)
    case Join(_, left, _, _) => LeafSource(left)
    case Distinct(input) => LeafSource(input)
    case DistinctOn(input, _) => LeafSource(input)
    case Sort(input, _) => LeafSource(input)
  }

  /** `leaf_source`: follows first inputs down to a scan. */
  method FindLeafSource(r: Relation) returns (c: ResolvedClass)
    ensures c == LeafSource(r)
  {
    var current := r;
    while true
      invariant LeafSource(current) == LeafSource(r)
      decreases current
    {
      match current.operator {
        case Scan(source) => return source;
        case Filter(input, _) => current := input;
        case Project(input, _, _) => current := input;
        case Join(_, left, _, _) => current := left;
        case Distinct(input) => current := input;
        case DistinctOn(input, _) => current := input;
        case Sort(input, _) => current := input;
      }
    }
  }

  function Inputs(operator: RelationOperator): seq<Relation> {
    match operator
    case Scan(_) => []
    case Filter(input, _) => [input]
    case Project(input, _, _) => [input]
    case Join(_, left, right, _) => [left, right]
    case Distinct(input) => [input]
    case DistinctOn(input, _) => [input]
    case Sort(input, _) => [input]
  }

  /** A node left behind with a placeholder in place of its operator. */
  function Placeholder(r: Relation, seed: ResolvedClass): Relation {
    r.(operator := Scan(seed))
  }

  /** The operator once its inputs have been taken out. */
  function Detached(operator: RelationOperator, seed: ResolvedClass): RelationOperator {
    match operator
    case Scan(_) => operator
    case Filter(input, condition) => Filter(Placeholder(input, seed), condition)
    case Project(input, projections, kind) => Project(Placeholder(input, seed), projections, kind)
    case Join(kind, left, right, condition) => Join(kind, Placeholder(left, seed), Placeholder(right, seed), condition)
    case Distinct(input) => Distinct(Placeholder(input, seed))
    case DistinctOn(input, columns) => DistinctOn(Placeholder(input, seed), columns)
    case Sort(input, keys) => Sort(Placeholder(input, seed), keys)
  }

  function InputOperators(operator: RelationOperator): seq<RelationOperator> {
    match operator
    case Scan(_) => []
    case Filter(input, _) => [input.operator]
    case Project(input, _, _) => [input.operator]
    case Join(_, left, right, _) => [left.operator, right.operator]
    case Distinct(input) => [input.operator]
    case DistinctOn(input, _) => [input.operator]
    case Sort(input, _) => [input.operator]
  }

  /** Every operator strictly below `operator`, with multiplicity. */
  ghost function Below(operator: RelationOperator): multiset<RelationOperator>
    decreases operator
  {
    match operator
    case Scan(_) => multiset{}
    case Filter(input, _) => multiset{input.operator} + Below(input.operator)
    case Project(input, _, _) => multiset{input.operator} + Below(input.operator)
    case Join(_, left, right, _) =>
      multiset{left.operator} + Below(left.operator) + (multiset{right.operator} + Below(right.operator))
    case Distinct(input) => multiset{input.operator} + Below(input.operator)
    case DistinctOn(input, _) => multiset{input.operator} + Below(input.operator)
    case Sort(input, _) => multiset{input.operator} + Below(input.operator)
  }

  /** The operators of a worklist and everything below them. */
  ghost function Waiting(pending: seq<RelationOperator>): multiset<RelationOperator> {
    if pending == [] then multiset{}
    else Waiting(pending[..|pending| - 1]) + multiset{pending[|pending| - 1]} + Below(pending[|pending| - 1])
  }

  lemma WaitingForOne(pending: seq<RelationOperator>, operator: RelationOperator)
    ensures Waiting(pending + [operator]) == Waiting(pending) + multiset{operator} + Below(operator)
  {
    assert (pending + [operator])[..|pending + [operator]| - 1] == pending;
  }

  lemma WaitingForInputs(pending: seq<RelationOperator>, operator: RelationOperator)
    ensures Waiting(pending + InputOperators(operator)) == Waiting(pending) + Below(operator)
  {
    hide Waiting;
    var inputs := InputOperators(operator);
    if |inputs| == 2 {
      WaitingForOne(pending, inputs[0]);
      WaitingForOne(pending + [inputs[0]], inputs[1]);
      assert pending + inputs == (pending + [inputs[0]]) + [inputs[1]];
    } else if |inputs| == 1 {
      WaitingForOne(pending, inputs[0]);
    } else {
      assert pending + inputs == pending;
    }
  }

  lemma WaitingLast(pending: seq<RelationOperator>, operator: RelationOperator)
    ensures Waiting(pending + [operator]) == Waiting(pending + InputOperators(operator)) + multiset{operator}
    ensures Waiting([]) == multiset{}
  {
    WaitingForInputs(pending, operator);
    WaitingForOne(pending, operator);
  }

  /** An operator whose drop reaches at most its own placeholder inputs. */
  ghost predicate Childless(operator: RelationOperator) {
    forall r :: r in Inputs(operator) ==> r.operator.Scan?
  }

  lemma DetachedIsChildless(operator: RelationOperator, seed: ResolvedClass)
    ensures Childless(Detached(operator, seed))
  {
  }

  /** `detach_children`. */
  method DetachChildren(operator: RelationOperator, seed: ResolvedClass, pending: seq<RelationOperator>)
    returns (detached: RelationOperator, queued: seq<RelationOperator>)
    ensures detached == Detached(operator, seed)
    ensures queued == pending + InputOperators(operator)
  {
    detached, queued := operator, pending;
    match operator {
      case Scan(_) =>
      case Filter(input, condition) =>
        detached, queued := Filter(Placeholder(input, seed), condition), queued + [input.operator];
      case Project(input, projections, kind) =>
        detached, queued := Project(Placeholder(input, seed), projections, kind), queued + [input.operator];
      case Join(kind, left, right, condition) =>
        queued := queued + [left.operator];
        queued := queued + [right.operator];
        detached := Join(kind, Placeholder(left, seed), Placeholder(right, seed), condition);
      case Distinct(input) =>
        detached, queued := Distinct(Placeholder(input, seed)), queued + [input.operator];
      case DistinctOn(input, columns) =>
        detached, queued := DistinctOn(Placeholder(input, seed), columns), queued + [input.operator];
      case Sort(input, keys) =>
        detached, queued := Sort(Placeholder(input, seed), keys), queued + [input.operator];
    }
  }

  /** What is destroyed for each operator taken out. */
  ghost predicate FreedFor(freed: seq<RelationOperator>, taken: seq<RelationOperator>, seed: ResolvedClass) {
    && |freed| == |taken|
    && forall i :: 0 <= i < |freed| ==> freed[i] == Detached(taken[i], seed) && Childless(freed[i])
  }

  /** `Drop::drop`: terminates, takes every operator below the root out exactly
      once, and hands each to its own destructor with only childless inputs. */
  method Drop(root: Relation) returns (remnant: Relation, freed: seq<RelationOperator>, ghost taken: seq<RelationOperator>)
    ensures multiset(taken) == Below(root.operator)
    ensures FreedFor(freed, taken, LeafSource(root))
    ensures remnant == root.(operator := Detached(root.operator, LeafSource(root))) && Childless(remnant.operator)
  {
    hide Waiting, Below, Detached, Childless, InputOperators, LeafSource;
    var seed := FindLeafSource(root);
    freed, taken := [], [];
    var top, pending := DetachChildren(root.operator, seed, []);
    DetachedIsChildless(root.operator, seed);
    remnant := root.(operator := top);
    WaitingForInputs([], root.operator);
    WaitingLast([], root.operator);
    while pending != []
      invariant multiset(taken) + Waiting(pending) == Below(root.operator)
      invariant FreedFor(freed, taken, seed)
      decreases |Waiting(pending)|
    {
      var operator, earlier := pending[|pending| - 1], pending[..|pending| - 1];
      assert pending == earlier + [operator];
      WaitingLast(earlier, operator);
      var detached;
      detached, pending := DetachChildren(operator, seed, earlier);
      DetachedIsChildless(operator, seed);
      freed := freed + [detached];
      taken := taken + [operator];
    }
    WaitingLast([], root.operator);
  }
}
