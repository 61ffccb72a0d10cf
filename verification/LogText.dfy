/** The bytes of the log file stand for the text: UTF-8 read back, as RFC 3629 (section 3) defines it. */
module LogText {
  import opened LogWindow

  predicate IsTail(b: Byte) { 0x80 <= b < 0xC0 }

  function Bits(b: Byte): nat
    requires IsTail(b)
  {
    b as int - 0x80
  }

  predicate Tails(b: seq<Byte>, k: nat) {
    |b| > k && forall i :: 1 <= i <= k ==> IsTail(b[i])
  }

  /** The code units of a character. */
  function Units(c: nat): Text
    requires c < 0x11_0000
  {
    if c < 0x1_0000 then [c as CodeUnit]
    else [(0xD800 + (c - 0x1_0000) / 0x400) as CodeUnit, (0xDC00 + (c - 0x1_0000) % 0x400) as CodeUnit]
  }

  /** The first character of the bytes, and how many of them it takes. */
  function FirstOf(b: seq<Byte>): (r: (nat, nat))
    requires b != []
    ensures 1 <= r.1 <= |b|
  {
    if b[0] < 0x80 then (b[0] as nat, 1)
    else if 0xC0 <= b[0] < 0xE0 && Tails(b, 1) then ((b[0] as int - 0xC0) * 0x40 + Bits(b[1]), 2)
    else if 0xE0 <= b[0] < 0xF0 && Tails(b, 2) then
      ((b[0] as int - 0xE0) * 0x1000 + Bits(b[1]) * 0x40 + Bits(b[2]), 3)
    else if 0xF0 <= b[0] < 0xF5 && Tails(b, 3) then
      ((b[0] as int - 0xF0) * 0x4_0000 + Bits(b[1]) * 0x1000 + Bits(b[2]) * 0x40 + Bits(b[3]), 4)
    else (0xFFFD, 1)
  }

  function FromUtf8(b: seq<Byte>): Text
    decreases |b|
  {
    if b == [] then []
    else
      var (c, k) := FirstOf(b);
      (if c < 0x11_0000 then Units(c) else [0xFFFD]) + FromUtf8(b[k..])
  }

  /** The text with a question mark for each half of a surrogate pair that stands alone. */
  function Paired(t: Text): Text {
    if t == [] then []
    else if Pair(t, 0) then t[..2] + Paired(t[2..])
    else if IsHigh(t[0]) || IsLow(t[0]) then [0x3F] + Paired(t[1..])
    else [t[0]] + Paired(t[1..])
  }

  lemma FirstAscii(n: nat, rest: seq<Byte>)
    requires n < 0x80
    ensures FromUtf8([n as Byte] + rest) == [n as CodeUnit] + FromUtf8(rest)
  {
    var b := [n as Byte] + rest;
    assert b[1..] == rest;
  }

  lemma FirstTwo(n: nat, rest: seq<Byte>)
    requires 0x80 <= n < 0x800
    ensures FromUtf8([(0xC0 + n / 0x40) as Byte, Tail(n)] + rest) == [n as CodeUnit] + FromUtf8(rest)
  {
    var b := [(0xC0 + n / 0x40) as Byte, Tail(n)] + rest;
    assert b[2..] == rest && Tails(b, 1) && FirstOf(b) == (n, 2);
  }

  lemma FirstThree(n: nat, rest: seq<Byte>)
    requires 0x800 <= n < 0x1_0000
    ensures FromUtf8([(0xE0 + n / 0x1000) as Byte, Tail(n / 0x40), Tail(n)] + rest) == [n as CodeUnit] + FromUtf8(rest)
  {
    var b := [(0xE0 + n / 0x1000) as Byte, Tail(n / 0x40), Tail(n)] + rest;
    assert b[3..] == rest && Tails(b, 2);
    assert n == n / 0x1000 * 0x1000 + n / 0x40 % 0x40 * 0x40 + n % 0x40;
    assert FirstOf(b) == (n, 3);
  }

  lemma DivTwice(c: nat, d: nat, e: nat)
    requires d == c / 0x40 && e == d / 0x40
    ensures c / 0x1000 == e
  {
    assert c == 0x40 * d + c % 0x40 && d == 0x40 * e + d % 0x40;
    assert 0x1000 * e <= c < 0x1000 * (e + 1);
  }

  lemma DivThrice(c: nat, e: nat, f: nat)
    requires e == c / 0x1000 && f == e / 0x40
    ensures c / 0x4_0000 == f
  {
    assert c == 0x1000 * e + c % 0x1000 && e == 0x40 * f + e % 0x40;
    assert 0x4_0000 * f <= c < 0x4_0000 * (f + 1);
  }

  lemma FourDigits(c: nat)
    requires 0x1_0000 <= c < 0x11_0000
    ensures c == c / 0x4_0000 * 0x4_0000 + c / 0x1000 % 0x40 * 0x1000 + c / 0x40 % 0x40 * 0x40 + c % 0x40
    ensures c / 0x4_0000 < 5
  {
    var d := c / 0x40;
    var e := d / 0x40;
    var f := e / 0x40;
    DivTwice(c, d, e);
    DivThrice(c, e, f);
    assert c == 0x40 * d + c % 0x40 && d == 0x40 * e + d % 0x40 && e == 0x40 * f + e % 0x40;
  }

  lemma FirstFour(c: nat, rest: seq<Byte>, b: seq<Byte>)
    requires 0x1_0000 <= c < 0x11_0000
    requires b == [(0xF0 + c / 0x4_0000) as Byte, Tail(c / 0x1000), Tail(c / 0x40), Tail(c)] + rest
    ensures FromUtf8(b) == Units(c) + FromUtf8(rest)
  {
    FourDigits(c);
    assert b[4..] == rest;
    assert Tails(b, 3) && Bits(b[1]) == c / 0x1000 % 0x40 && Bits(b[2]) == c / 0x40 % 0x40 && Bits(b[3]) == c % 0x40;
    assert FirstOf(b) == (c, 4);
  }

  lemma PairUnits(high: CodeUnit, low: CodeUnit, c: nat)
    requires IsHigh(high) && IsLow(low)
    requires c == 0x1_0000 + (high as int - 0xD800) * 0x400 + (low as int - 0xDC00)
    ensures 0x1_0000 <= c < 0x11_0000 && Units(c) == [high, low]
  {
  }

  lemma PairIsReadBack(t: Text)
    requires Pair(t, 0) && FromUtf8(Utf8(t[2..])) == Paired(t[2..])
    ensures FromUtf8(Utf8(t)) == Paired(t)
  {
    var c := 0x1_0000 + (t[0] as int - 0xD800) * 0x400 + (t[1] as int - 0xDC00);
    PairUnits(t[0], t[1], c);
    FirstFour(c, Utf8(t[2..]), Utf8(t));
    assert t[..2] == [t[0], t[1]];
  }

  lemma UnitIsReadBack(t: Text)
    requires t != [] && !Pair(t, 0) && FromUtf8(Utf8(t[1..])) == Paired(t[1..])
    ensures FromUtf8(Utf8(t)) == Paired(t)
  {
    var n, rest := t[0] as int, Utf8(t[1..]);
    if n < 0x80 {
      FirstAscii(n, rest);
    } else if n < 0x800 {
      FirstTwo(n, rest);
    } else if IsHigh(t[0]) || IsLow(t[0]) {
      FirstAscii(0x3F, rest);
    } else {
      FirstThree(n, rest);
    }
  }

  /** Every text is read back from its bytes, but for halves of pairs. */
  lemma {:induction false} TextIsReadBack(t: Text)
    ensures FromUtf8(Utf8(t)) == Paired(t)
    decreases |t|
  {
    if t != [] {
      if Pair(t, 0) {
        TextIsReadBack(t[2..]);
        PairIsReadBack(t);
      } else {
        TextIsReadBack(t[1..]);
        UnitIsReadBack(t);
      }
    }
  }
}
