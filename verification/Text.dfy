/** Decimal numerals, UTF-8 byte lengths and the length-prefixed fragment stream. */
module Text {

  predicate IsDigit(c: char) {
    '0' <= c <= '9'
  }

  function Digit(n: nat): char
    requires n < 10
  {
    (n + '0' as int) as char
  }

  /** `to_string` of an unsigned integer. */
  function Decimal(n: nat): string {
    if n < 10 then [Digit(n)] else Decimal(n / 10) + [Digit(n % 10)]
  }

  /** `to_string` of a signed integer. */
  function SignedDecimal(n: int): string {
    if n < 0 then "-" + Decimal(-n) else Decimal(n)
  }

  function Numeral(s: string): nat
    requires forall c :: c in s ==> IsDigit(c)
  {
    if s == [] then 0
    else
      var last := s[|s| - 1];
      assert IsDigit(last);
      Numeral(s[..|s| - 1]) * 10 + (last as int - '0' as int)
  }

  lemma {:induction false} DecimalReads(n: nat)
    ensures Decimal(n) != []
    ensures forall c :: c in Decimal(n) ==> IsDigit(c)
    ensures Numeral(Decimal(n)) == n
  {
    if n < 10 {
      assert Decimal(n)[..0] == [];
      assert Numeral([]) == 0;
    } else {
      DecimalReads(n / 10);
      assert Decimal(n)[..|Decimal(n)| - 1] == Decimal(n / 10);
    }
  }

  lemma DecimalInjective(a: nat, b: nat)
    requires Decimal(a) == Decimal(b)
    ensures a == b
  {
    DecimalReads(a);
    DecimalReads(b);
  }

  lemma SignedDecimalHead(n: int)
    ensures SignedDecimal(n) != []
    ensures SignedDecimal(n)[0] == '-' <==> n < 0
  {
    DecimalReads(if n < 0 then -n else n);
    if n >= 0 {
      assert IsDigit(Decimal(n)[0]);
    }
  }

  lemma SignedDecimalInjective(a: int, b: int)
    requires SignedDecimal(a) == SignedDecimal(b)
    ensures a == b
  {
    SignedDecimalHead(a);
    SignedDecimalHead(b);
    if a < 0 && b < 0 {
      assert SignedDecimal(a)[1..] == Decimal(-a) && SignedDecimal(b)[1..] == Decimal(-b);
      DecimalInjective(-a, -b);
    } else if a >= 0 && b >= 0 {
      DecimalInjective(a, b);
    }
  }

  /** A numeral is never one of the words used beside numbers in a key. */
  lemma DecimalIsNoWord(n: nat, word: string)
    requires word != [] && !IsDigit(word[0])
    ensures Decimal(n) != word
  {
    DecimalReads(n);
    assert Decimal(n)[0] in Decimal(n);
  }

  /** Bytes one scalar value occupies in UTF-8. */
  function Utf8Width(c: char): nat {
    if c as int < 0x80 then 1 else if c as int < 0x800 then 2 else if c as int < 0x10000 then 3 else 4
  }

  /** `str::len`. */
  function ByteLen(s: string): nat {
    if s == [] then 0 else Utf8Width(s[0]) + ByteLen(s[1..])
  }

  /** A text is determined by its byte length and any text it starts. */
  lemma {:induction false} ByteLenSplits(x: string, r: string, y: string, s: string)
    requires x + r == y + s && ByteLen(x) == ByteLen(y)
    ensures x == y && r == s
  {
    if x == [] {
      assert y == [];
      assert x + r == r && y + s == s;
    } else if y != [] {
      assert x[0] == (x + r)[0] == (y + s)[0] == y[0];
      assert x[1..] + r == (x + r)[1..] == (y + s)[1..] == y[1..] + s;
      ByteLenSplits(x[1..], r, y[1..], s);
      assert x == [x[0]] + x[1..] && y == [y[0]] + y[1..];
    }
  }

  /** Nothing follows, or something outside the class does. */
  predicate EndsRun(inClass: char -> bool, rest: string) {
    rest == [] || !inClass(rest[0])
  }

  /** A run of characters of one class, followed by something outside it,
      splits from what follows in only one way. */
  lemma {:induction false} RunSplits(inClass: char -> bool, x: string, r: string, y: string, s: string)
    requires x + r == y + s
    requires forall c :: c in x || c in y ==> inClass(c)
    requires EndsRun(inClass, r) && EndsRun(inClass, s)
    ensures x == y && r == s
  {
    assert x != [] ==> (x + r)[0] == x[0] && x[0] in x;
    assert y != [] ==> (y + s)[0] == y[0] && y[0] in y;
    assert x == [] ==> x + r == r;
    assert y == [] ==> y + s == s;
    if x != [] && y != [] {
      assert x[0] == (x + r)[0] == (y + s)[0] == y[0];
      assert x[1..] + r == (x + r)[1..] == (y + s)[1..] == y[1..] + s;
      RunSplits(inClass, x[1..], r, y[1..], s);
      assert x == [x[0]] + x[1..] && y == [y[0]] + y[1..];
    }
  }

  /** One fragment: its byte length, a colon, its text. */
  function Fragment(value: string): string {
    Decimal(ByteLen(value)) + ":" + value
  }

  /** A stream of fragments, first one outermost. */
  datatype Tokens = End | Token(text: string, rest: Tokens)

  function Render(t: Tokens): string {
    match t
    case End => ""
    case Token(text, rest) => Fragment(text) + Render(rest)
  }

  lemma FragmentSplits(a: string, r: string, b: string, s: string)
    requires Fragment(a) + r == Fragment(b) + s
    ensures a == b && r == s
  {
    var da, db := Decimal(ByteLen(a)), Decimal(ByteLen(b));
    DecimalReads(ByteLen(a));
    DecimalReads(ByteLen(b));
    var ra, rb := ":" + a + r, ":" + b + s;
    assert Fragment(a) + r == da + ra && Fragment(b) + s == db + rb;
    RunSplits(IsDigit, da, ra, db, rb);
    DecimalInjective(ByteLen(a), ByteLen(b));
    assert ra[1..] == a + r && rb[1..] == b + s;
    ByteLenSplits(a, r, b, s);
  }

  /** The length-prefixed stream decodes uniquely. */
  lemma {:induction false} RenderInjective(a: Tokens, b: Tokens)
    requires Render(a) == Render(b)
    ensures a == b
  {
    assert a.Token? ==> |Fragment(a.text)| > 0;
    assert b.Token? ==> |Fragment(b.text)| > 0;
    if a.Token? && b.Token? {
      FragmentSplits(a.text, Render(a.rest), b.text, Render(b.rest));
      RenderInjective(a.rest, b.rest);
    }
  }
}
