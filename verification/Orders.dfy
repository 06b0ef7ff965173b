/** Total orders, lexicographic order, sorting and de-duplication.
    `Canonical` is the `sort_unstable` + `dedup` idiom used wherever a set is
    kept in a vector: candidate keys, key positions and model-origin keys. */
module Orders {

  datatype Order = Less | Equal | Greater {
    function Flip(): Order {
      match this
      case Less => Greater
      case Equal => Equal
      case Greater => Less
    }

    predicate Le() {
      !Greater?
    }

    /** `Ordering::then_with`. */
    function Then(next: Order): Order {
      if Equal? then next else this
    }
  }

  ghost predicate Antisymmetric<T(!new)>(cmp: (T, T) -> Order) {
    && (forall a, b :: cmp(b, a) == cmp(a, b).Flip())
    && (forall a, b :: cmp(a, b) == Equal <==> a == b)
  }

  ghost predicate TotalOrder<T(!new)>(cmp: (T, T) -> Order) {
    && Antisymmetric(cmp)
    && (forall a, b, c :: cmp(a, b).Le() && cmp(b, c).Le() ==> cmp(a, c).Le())
  }

  function CompareInt(a: int, b: int): Order {
    if a < b then Less else if a == b then Equal else Greater
  }

  function CompareNat(a: nat, b: nat): Order {
    CompareInt(a, b)
  }

  function CompareChar(a: char, b: char): Order {
    CompareInt(a as int, b as int)
  }

  /** The derived `Ord` of a vector: lexicographic, a proper prefix first. */
  function Lex<T>(cmp: (T, T) -> Order, a: seq<T>, b: seq<T>): Order {
    if a == [] then
      if b == [] then Equal else Less
    else if b == [] then Greater
    else cmp(a[0], b[0]).Then(Lex(cmp, a[1..], b[1..]))
  }

  lemma {:induction false} LexFlips<T(!new)>(cmp: (T, T) -> Order, a: seq<T>, b: seq<T>)
    requires Antisymmetric(cmp)
    ensures Lex(cmp, b, a) == Lex(cmp, a, b).Flip()
    ensures Lex(cmp, a, b) == Equal <==> a == b
  {
    if a != [] && b != [] {
      LexFlips(cmp, a[1..], b[1..]);
      assert a == [a[0]] + a[1..] && b == [b[0]] + b[1..];
      assert cmp(b[0], a[0]) == cmp(a[0], b[0]).Flip();
    }
  }

  lemma {:induction false} LexTransitive<T(!new)>(cmp: (T, T) -> Order, a: seq<T>, b: seq<T>, c: seq<T>)
    requires TotalOrder(cmp)
    requires Lex(cmp, a, b).Le() && Lex(cmp, b, c).Le()
    ensures Lex(cmp, a, c).Le()
  {
    if a != [] && b != [] && c != [] {
      assert cmp(a[0], b[0]).Le() && cmp(b[0], c[0]).Le();
      assert cmp(a[0], c[0]).Le();
      if cmp(a[0], c[0]) == Equal {
        assert cmp(b[0], a[0]).Le();
        assert cmp(a[0], b[0]) == Equal;
        LexTransitive(cmp, a[1..], b[1..], c[1..]);
      }
    }
  }

  /** Sorted position lists, the canonical form of one candidate key. */
  function ComparePositions(a: seq<nat>, b: seq<nat>): Order {
    Lex(CompareNat, a, b)
  }

  /** `str` order. UTF-8 preserves scalar-value order, so this is byte order. */
  function CompareText(a: string, b: string): Order {
    Lex(CompareChar, a, b)
  }

  lemma CompareNatTotal()
    ensures TotalOrder(CompareNat)
  {
  }

  lemma ComparePositionsTotal()
    ensures TotalOrder(ComparePositions)
  {
    CompareNatTotal();
    forall a, b ensures ComparePositions(b, a) == ComparePositions(a, b).Flip()
      ensures ComparePositions(a, b) == Equal <==> a == b {
      LexFlips(CompareNat, a, b);
    }
    forall a, b, c | ComparePositions(a, b).Le() && ComparePositions(b, c).Le()
      ensures ComparePositions(a, c).Le() {
      LexTransitive(CompareNat, a, b, c);
    }
  }

  lemma CompareTextTotal()
    ensures TotalOrder(CompareText)
  {
    assert TotalOrder(CompareChar);
    forall a, b ensures CompareText(b, a) == CompareText(a, b).Flip()
      ensures CompareText(a, b) == Equal <==> a == b {
      LexFlips(CompareChar, a, b);
    }
    forall a, b, c | CompareText(a, b).Le() && CompareText(b, c).Le()
      ensures CompareText(a, c).Le() {
      LexTransitive(CompareChar, a, b, c);
    }
  }

  function Insert<T>(cmp: (T, T) -> Order, x: T, s: seq<T>): seq<T> {
    if s == [] || cmp(x, s[0]).Le() then [x] + s else [s[0]] + Insert(cmp, x, s[1..])
  }

  function Sort<T>(cmp: (T, T) -> Order, s: seq<T>): seq<T> {
    if s == [] then [] else Insert(cmp, s[0], Sort(cmp, s[1..]))
  }

  /** `Vec::dedup`: drops every element equal to its predecessor. */
  function Dedup<T(==)>(s: seq<T>): seq<T> {
    if |s| < 2 then s
    else if s[0] == s[1] then Dedup(s[1..])
    else [s[0]] + Dedup(s[1..])
  }

  function Canonical<T(==)>(cmp: (T, T) -> Order, s: seq<T>): seq<T> {
    Dedup(Sort(cmp, s))
  }

  ghost predicate Ascending<T>(cmp: (T, T) -> Order, s: seq<T>) {
    forall i, j :: 0 <= i < j < |s| ==> cmp(s[i], s[j]).Le()
  }

  ghost predicate StrictlyAscending<T>(cmp: (T, T) -> Order, s: seq<T>) {
    forall i, j :: 0 <= i < j < |s| ==> cmp(s[i], s[j]) == Less
  }

  lemma {:induction false} InsertFacts<T(!new)>(cmp: (T, T) -> Order, x: T, s: seq<T>)
    requires TotalOrder(cmp) && Ascending(cmp, s)
    ensures Ascending(cmp, Insert(cmp, x, s))
    ensures forall y :: y in Insert(cmp, x, s) <==> y == x || y in s
    ensures |Insert(cmp, x, s)| == |s| + 1
  {
    var r := Insert(cmp, x, s);
    if s == [] || cmp(x, s[0]).Le() {
      forall i, j | 0 <= i < j < |r| ensures cmp(r[i], r[j]).Le() {
        if i == 0 && j > 1 {
          assert cmp(s[0], s[j - 1]).Le();
        }
      }
    } else {
      InsertFacts(cmp, x, s[1..]);
      var t := Insert(cmp, x, s[1..]);
      forall i, j | 0 <= i < j < |r| ensures cmp(r[i], r[j]).Le() {
        if i == 0 {
          assert t[j - 1] in t;
          if t[j - 1] == x {
            assert cmp(s[0], x) == cmp(x, s[0]).Flip();
          } else {
            assert t[j - 1] in s[1..];
          }
        }
      }
      assert s == [s[0]] + s[1..];
    }
  }

  lemma {:induction false} SortFacts<T(!new)>(cmp: (T, T) -> Order, s: seq<T>)
    requires TotalOrder(cmp)
    ensures Ascending(cmp, Sort(cmp, s))
    ensures forall y :: y in Sort(cmp, s) <==> y in s
    ensures |Sort(cmp, s)| == |s|
  {
    if s != [] {
      SortFacts(cmp, s[1..]);
      InsertFacts(cmp, s[0], Sort(cmp, s[1..]));
      assert s == [s[0]] + s[1..];
    }
  }

  lemma {:induction false} DedupFacts<T(!new)>(cmp: (T, T) -> Order, s: seq<T>)
    requires TotalOrder(cmp) && Ascending(cmp, s)
    ensures StrictlyAscending(cmp, Dedup(s))
    ensures forall y :: y in Dedup(s) <==> y in s
    ensures s != [] ==> Dedup(s) != [] && Dedup(s)[0] == s[0]
  {
    if |s| >= 2 {
      DedupFacts(cmp, s[1..]);
      assert s == [s[0]] + s[1..];
      if s[0] != s[1] {
        var t := Dedup(s[1..]);
        forall j | 0 <= j < |t| ensures cmp(s[0], t[j]) == Less {
          assert cmp(s[0], s[1]) == Less by { assert cmp(s[0], s[1]).Le(); }
          assert t[0] == s[1];
          if j > 0 {
            assert cmp(t[0], t[j]) == Less;
            assert cmp(s[0], t[j]).Le();
            assert cmp(t[0], s[0]) == cmp(s[0], t[0]).Flip() == Greater;
          }
        }
      }
    }
  }

  /** Canonicalizing yields the strictly ascending listing of the same set. */
  lemma CanonicalFacts<T(!new)>(cmp: (T, T) -> Order, s: seq<T>)
    requires TotalOrder(cmp)
    ensures StrictlyAscending(cmp, Canonical(cmp, s))
    ensures forall y :: y in Canonical(cmp, s) <==> y in s
  {
    SortFacts(cmp, s);
    DedupFacts(cmp, Sort(cmp, s));
  }

  /** A set has only one strictly ascending listing. */
  lemma {:induction false} AscendingUnique<T(!new)>(cmp: (T, T) -> Order, a: seq<T>, b: seq<T>)
    requires TotalOrder(cmp)
    requires StrictlyAscending(cmp, a) && StrictlyAscending(cmp, b)
    requires forall y :: y in a <==> y in b
    ensures a == b
  {
    assert b != [] ==> b[0] in a;
    if a != [] {
      assert a[0] in b;
      HeadLeast(cmp, a, b[0]);
      HeadLeast(cmp, b, a[0]);
      assert cmp(b[0], a[0]) == cmp(a[0], b[0]).Flip();
      assert a[0] == b[0];
      TailMembers(cmp, a);
      TailMembers(cmp, b);
      AscendingUnique(cmp, a[1..], b[1..]);
      assert a == [a[0]] + a[1..] && b == [b[0]] + b[1..];
    }
  }

  lemma HeadLeast<T(!new)>(cmp: (T, T) -> Order, a: seq<T>, y: T)
    requires TotalOrder(cmp) && StrictlyAscending(cmp, a) && y in a
    ensures cmp(a[0], y).Le()
  {
    var i :| 0 <= i < |a| && a[i] == y;
  }

  lemma TailMembers<T(!new)>(cmp: (T, T) -> Order, a: seq<T>)
    requires TotalOrder(cmp) && StrictlyAscending(cmp, a) && a != []
    ensures StrictlyAscending(cmp, a[1..])
    ensures forall y :: y in a[1..] <==> y in a && y != a[0]
  {
    forall y | y in a[1..] ensures y != a[0] {
      var k :| 0 <= k < |a[1..]| && a[1..][k] == y;
      assert cmp(a[0], a[k + 1]) == Less;
      assert cmp(a[0], a[0]) == Equal;
    }
    assert a == [a[0]] + a[1..];
  }

  /** Two listings of the same set canonicalize identically. */
  lemma CanonicalAgrees<T(!new)>(cmp: (T, T) -> Order, a: seq<T>, b: seq<T>)
    requires TotalOrder(cmp)
    ensures Canonical(cmp, a) == Canonical(cmp, b) <==> forall y :: y in a <==> y in b
  {
    CanonicalFacts(cmp, a);
    CanonicalFacts(cmp, b);
    if forall y :: y in a <==> y in b {
      AscendingUnique(cmp, Canonical(cmp, a), Canonical(cmp, b));
    } else {
      var y :| (y in a) != (y in b);
      assert (y in Canonical(cmp, a)) != (y in Canonical(cmp, b));
    }
  }
}
