/** UTF-8: the bytes of a text, and the text some bytes are, if any. */
module Utf8 {
  import opened Basics
  import opened Text

  type Byte = x: nat | x < 0x100

  /** The low six bits of `n`, as a continuation byte. */
  function Continuation(n: nat): Byte {
    0x80 + n % 0x40
  }

  function CharBytes(c: char): (bytes: seq<Byte>)
    ensures |bytes| == Utf8Width(c)
  {
    var n := c as int;
    var m := n / 0x40;
    var l := m / 0x40;
    if n < 0x80 then [n]
    else if n < 0x800 then [0xC0 + m, Continuation(n)]
    else if n < 0x10000 then [0xE0 + l, Continuation(m), Continuation(n)]
    else [0xF0 + l / 0x40, Continuation(l), Continuation(m), Continuation(n)]
  }

  /** `str::as_bytes`. */
  function Bytes(s: string): seq<Byte> {
    if s == [] then [] else CharBytes(s[0]) + Bytes(s[1..])
  }

  lemma {:induction false} BytesCounted(s: string)
    ensures |Bytes(s)| == ByteLen(s)
  {
    if s != [] {
      BytesCounted(s[1..]);
    }
  }

  predicate Continues(bytes: seq<Byte>, i: nat) {
    i < |bytes| && 0x80 <= bytes[i] < 0xC0
  }

  /** A number and six more bits. */
  function Extended(n: nat, continuation: Byte): nat
    requires continuation >= 0x80
  {
    0x40 * n + (continuation - 0x80)
  }

  function TwoBytes(bytes: seq<Byte>): Option<char>
    requires bytes != [] && 0xC2 <= bytes[0] < 0xE0
  {
    if Continues(bytes, 1) then Some(Extended(bytes[0] - 0xC0, bytes[1]) as char) else None
  }

  function ThreeBytes(bytes: seq<Byte>): Option<char>
    requires bytes != [] && 0xE0 <= bytes[0] < 0xF0
  {
    if Continues(bytes, 1) && Continues(bytes, 2) && (bytes[0] == 0xE0 ==> bytes[1] >= 0xA0) && (bytes[0] == 0xED ==> bytes[1] < 0xA0) then
      Some(Extended(Extended(bytes[0] - 0xE0, bytes[1]), bytes[2]) as char)
    else None
  }

  function FourBytes(bytes: seq<Byte>): Option<char>
    requires bytes != [] && 0xF0 <= bytes[0] < 0xF5
  {
    if Continues(bytes, 1) && Continues(bytes, 2) && Continues(bytes, 3)
       && (bytes[0] == 0xF0 ==> bytes[1] >= 0x90) && (bytes[0] == 0xF4 ==> bytes[1] < 0x90) then
      Some(Extended(Extended(Extended(bytes[0] - 0xF0, bytes[1]), bytes[2]), bytes[3]) as char)
    else None
  }

  /** The scalar value at the front, by the byte ranges of section 4 of RFC 3629:
      no overlong form, no surrogate, nothing past the last scalar value. */
  function CharAtFront(bytes: seq<Byte>): Option<char> {
    if bytes == [] then None
    else if bytes[0] < 0x80 then Some(bytes[0] as char)
    else if bytes[0] < 0xC2 then None
    else if bytes[0] < 0xE0 then TwoBytes(bytes)
    else if bytes[0] < 0xF0 then ThreeBytes(bytes)
    else if bytes[0] < 0xF5 then FourBytes(bytes)
    else None
  }

  /** `String::from_utf8`. */
  function FromBytes(bytes: seq<Byte>): Option<string>
    decreases |bytes|
  {
    if bytes == [] then Some([])
    else
      match CharAtFront(bytes)
      case None => None
      case Some(c) =>
        if Utf8Width(c) > |bytes| then None
        else
          match FromBytes(bytes[Utf8Width(c)..])
          case None => None
          case Some(rest) => Some([c] + rest)
  }

  lemma CharReads(c: char, rest: seq<Byte>)
    ensures CharAtFront(CharBytes(c) + rest) == Some(c)
  {
    var n := c as int;
    var m := n / 0x40;
    var l := m / 0x40;
    var k := l / 0x40;
    assert n == 0x40 * m + n % 0x40 && m == 0x40 * l + m % 0x40 && l == 0x40 * k + l % 0x40;
    var bytes := CharBytes(c) + rest;
    assert forall i :: 0 <= i < |CharBytes(c)| ==> bytes[i] == CharBytes(c)[i];
    if n >= 0x10000 {
      assert bytes[1] == Continuation(l) && bytes[2] == Continuation(m) && bytes[3] == Continuation(n);
      assert FourBytes(bytes) == Some(c);
    } else if n >= 0x800 {
      assert ThreeBytes(bytes) == Some(c);
    } else if n >= 0x80 {
      assert TwoBytes(bytes) == Some(c);
    }
  }

  lemma SixBits(n: nat, continuation: Byte)
    requires 0x80 <= continuation < 0xC0
    ensures Extended(n, continuation) / 0x40 == n && Continuation(Extended(n, continuation)) == continuation
  {
  }

  lemma FrontIsChar(bytes: seq<Byte>)
    requires CharAtFront(bytes).Some?
    ensures CharBytes(CharAtFront(bytes).value) <= bytes
  {
    hide Extended, Continuation;
    var b := bytes[0];
    if 0xF0 <= b {
      var l := Extended(b - 0xF0, bytes[1]);
      var m := Extended(l, bytes[2]);
      SixBits(b - 0xF0, bytes[1]);
      SixBits(l, bytes[2]);
      SixBits(m, bytes[3]);
      FourWide(b - 0xF0, bytes[1], bytes[2], bytes[3]);
      assert CharBytes(CharAtFront(bytes).value) == bytes[..4];
    } else if 0xE0 <= b {
      var m := Extended(b - 0xE0, bytes[1]);
      SixBits(b - 0xE0, bytes[1]);
      SixBits(m, bytes[2]);
      ThreeWide(b - 0xE0, bytes[1], bytes[2]);
      assert CharBytes(CharAtFront(bytes).value) == bytes[..3];
    } else if 0x80 <= b {
      SixBits(b - 0xC0, bytes[1]);
      TwoWide(b - 0xC0, bytes[1]);
      assert CharBytes(CharAtFront(bytes).value) == bytes[..2];
    } else {
      assert CharBytes(CharAtFront(bytes).value) == bytes[..1];
    }
  }

  lemma TwoWide(n: nat, a: Byte)
    requires 2 <= n < 0x20 && 0x80 <= a < 0xC0
    ensures 0x80 <= Extended(n, a) < 0x800
  {
  }

  lemma ThreeWide(n: nat, a: Byte, b: Byte)
    requires n < 0x10 && 0x80 <= a < 0xC0 && 0x80 <= b < 0xC0 && (n == 0 ==> a >= 0xA0) && (n == 0xD ==> a < 0xA0)
    ensures var m := Extended(Extended(n, a), b); 0x800 <= m < 0xD800 || 0xE000 <= m < 0x10000
  {
  }

  lemma FourWide(n: nat, a: Byte, b: Byte, c: Byte)
    requires n < 5 && 0x80 <= a < 0xC0 && 0x80 <= b < 0xC0 && 0x80 <= c < 0xC0 && (n == 0 ==> a >= 0x90) && (n == 4 ==> a < 0x90)
    ensures 0x10000 <= Extended(Extended(Extended(n, a), b), c) < 0x110000
  {
  }

  /** Bytes are read as a text exactly when they are that text's bytes. */
  lemma {:induction false} FromBytesExactly(bytes: seq<Byte>, s: string)
    ensures FromBytes(bytes) == Some(s) <==> bytes == Bytes(s)
    decreases |bytes|
  {
    hide CharAtFront, CharBytes;
    if bytes != [] && CharAtFront(bytes).Some? {
      var c := CharAtFront(bytes).value;
      var n := Utf8Width(c);
      FrontIsChar(bytes);
      assert bytes == CharBytes(c) + bytes[n..];
      if s != [] {
        FromBytesExactly(bytes[n..], s[1..]);
        assert s == [s[0]] + s[1..];
        if bytes == Bytes(s) {
          CharReads(s[0], Bytes(s[1..]));
        }
        if FromBytes(bytes) == Some(s) {
          assert s[1..] == FromBytes(bytes[n..]).value;
        }
      }
    } else if s != [] {
      CharReads(s[0], Bytes(s[1..]));
    }
  }
}
