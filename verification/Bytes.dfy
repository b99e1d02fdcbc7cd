/** Octets and the places they stand in a buffer. */
module Bytes {
  type Byte = b: int | 0 <= b < 256

  /** The bytes b stand in raw at address a. */
  ghost predicate StandsAt(raw: seq<Byte>, a: nat, b: seq<Byte>) {
    a + |b| <= |raw| && forall i {:trigger b[i]} :: 0 <= i < |b| ==> raw[a + i] == b[i]
  }

  lemma StandsAtSplit(raw: seq<Byte>, a: nat, x: seq<Byte>, y: seq<Byte>)
    requires StandsAt(raw, a, x + y)
    ensures StandsAt(raw, a, x) && StandsAt(raw, a + |x|, y)
  {
    forall i | 0 <= i < |x| ensures raw[a + i] == x[i] { assert (x + y)[i] == x[i]; }
    forall i | 0 <= i < |y| ensures raw[a + |x| + i] == y[i] { assert (x + y)[|x| + i] == y[i]; }
  }

  lemma StandsAtJoin(raw: seq<Byte>, a: nat, x: seq<Byte>, y: seq<Byte>)
    requires StandsAt(raw, a, x) && StandsAt(raw, a + |x|, y)
    ensures StandsAt(raw, a, x + y)
  {
    forall i | 0 <= i < |x + y| ensures raw[a + i] == (x + y)[i]
    {
      if i >= |x| { assert raw[a + |x| + (i - |x|)] == y[i - |x|]; }
    }
  }

  lemma StandsAtSlice(raw: seq<Byte>, a: nat, x: seq<Byte>)
    requires a + |x| <= |raw|
    ensures StandsAt(raw, a, x) <==> raw[a..a + |x|] == x
  {
    var slice := raw[a..a + |x|];
    assert forall i :: 0 <= i < |x| ==> slice[i] == raw[a + i];
  }

  predicate BitOf(b: Byte, k: nat)
    requires k < 8
  {
    if k == 0 then b % 2 == 1 else if k == 1 then b / 2 % 2 == 1 else if k == 2 then b / 4 % 2 == 1
    else if k == 3 then b / 8 % 2 == 1 else if k == 4 then b / 16 % 2 == 1 else if k == 5 then b / 32 % 2 == 1
    else if k == 6 then b / 64 % 2 == 1 else b / 128 == 1
  }

  function Num(b: bool): nat { if b then 1 else 0 }

  /** The number with these four bits, the lowest first. */
  function Four(b0: bool, b1: bool, b2: bool, b3: bool): nat { Num(b0) + 2 * Num(b1) + 4 * Num(b2) + 8 * Num(b3) }

  /** Quotient and remainder are what they are. */
  lemma Div(n: nat, d: nat, low: nat, rest: nat)
    requires low < d && n == d * rest + low
    ensures n / d == rest && n % d == low
  {
    Scaled(d, n / d + 1, rest);
    Scaled(d, rest + 1, n / d);
  }

  lemma Scaled(d: nat, x: int, y: int)
    ensures x <= y ==> d * x <= d * y
  {
  }

  lemma HalveAgain(n: nat, d: nat)
    requires d > 0
    ensures n / d / 2 == n / (2 * d)
  {
    var q := n / d;
    var low := n % d + d * (q % 2);
    assert q % 2 == 0 || q % 2 == 1;
    assert n == d * q + n % d && q == 2 * (q / 2) + q % 2;
    assert n == 2 * d * (q / 2) + low by { assert d * q == d * (2 * (q / 2)) + d * (q % 2); }
    Div(n, 2 * d, low, q / 2);
  }

  /** The bits one after the other. */
  lemma Halves(b: Byte)
    ensures b / 2 / 2 == b / 4 && b / 4 / 2 == b / 8 && b / 8 / 2 == b / 16
    ensures b / 16 / 2 == b / 32 && b / 32 / 2 == b / 64 && b / 64 / 2 == b / 128
  {
    HalveAgain(b, 2);
    HalveAgain(b, 4);
    HalveAgain(b, 8);
    HalveAgain(b, 16);
    HalveAgain(b, 32);
    HalveAgain(b, 64);
  }

  function Half(n: nat): nat { n / 2 }

  function Odd(n: nat): nat { n % 2 }

  lemma Split(n: nat)
    ensures n == Odd(n) + 2 * Half(n) && Odd(n) < 2
  {
  }

  /** An octet is the sum of its bits. */
  lemma OctetBits(b: Byte)
    ensures b == Four(BitOf(b, 0), BitOf(b, 1), BitOf(b, 2), BitOf(b, 3))
                 + 16 * Four(BitOf(b, 4), BitOf(b, 5), BitOf(b, 6), BitOf(b, 7))
  {
    hide Half, Odd, BitOf;
    var q1 := Half(b);
    var q2 := Half(q1);
    var q3 := Half(q2);
    var q4 := Half(q3);
    var q5 := Half(q4);
    var q6 := Half(q5);
    Split(b); Split(q1); Split(q2); Split(q3); Split(q4); Split(q5); Split(q6);
    BitsAre(b);
  }

  lemma BitsAre(b: Byte)
    ensures Num(BitOf(b, 0)) == Odd(b) && Num(BitOf(b, 1)) == Odd(Half(b)) && Num(BitOf(b, 2)) == Odd(Half(Half(b)))
    ensures Num(BitOf(b, 3)) == Odd(Half(Half(Half(b)))) && Num(BitOf(b, 4)) == Odd(Half(Half(Half(Half(b)))))
    ensures Num(BitOf(b, 5)) == Odd(Half(Half(Half(Half(Half(b))))))
    ensures Num(BitOf(b, 6)) == Odd(Half(Half(Half(Half(Half(Half(b)))))))
    ensures Num(BitOf(b, 7)) == Half(Half(Half(Half(Half(Half(Half(b)))))))
  {
    Halves(b);
  }

  /** And no other sum. */
  lemma OctetOf(b: Byte, b0: bool, b1: bool, b2: bool, b3: bool, b4: bool, b5: bool, b6: bool, b7: bool)
    requires b == Four(b0, b1, b2, b3) + 16 * Four(b4, b5, b6, b7)
    ensures BitOf(b, 0) == b0 && BitOf(b, 1) == b1 && BitOf(b, 2) == b2 && BitOf(b, 3) == b3
    ensures BitOf(b, 4) == b4 && BitOf(b, 5) == b5 && BitOf(b, 6) == b6 && BitOf(b, 7) == b7
  {
    hide BitOf, Four;
    OctetBits(b);
    var high, top := Four(b4, b5, b6, b7), Four(BitOf(b, 4), BitOf(b, 5), BitOf(b, 6), BitOf(b, 7));
    SameFour(b0, b1, b2, b3, high, BitOf(b, 0), BitOf(b, 1), BitOf(b, 2), BitOf(b, 3), top);
    SameFour(b4, b5, b6, b7, 0, BitOf(b, 4), BitOf(b, 5), BitOf(b, 6), BitOf(b, 7), 0);
  }

  lemma SameFour(x0: bool, x1: bool, x2: bool, x3: bool, r: int, y0: bool, y1: bool, y2: bool, y3: bool, s: int)
    requires Four(x0, x1, x2, x3) + 16 * r == Four(y0, y1, y2, y3) + 16 * s
    ensures x0 == y0 && x1 == y1 && x2 == y2 && x3 == y3 && r == s
  {
    hide Num;
    SameBit(x0, y0, Num(x1) + 2 * Num(x2) + 4 * Num(x3) + 8 * r, Num(y1) + 2 * Num(y2) + 4 * Num(y3) + 8 * s);
    SameBit(x1, y1, Num(x2) + 2 * Num(x3) + 4 * r, Num(y2) + 2 * Num(y3) + 4 * s);
    SameBit(x2, y2, Num(x3) + 2 * r, Num(y3) + 2 * s);
    SameBit(x3, y3, r, s);
  }

  lemma SameBit(x: bool, y: bool, r: int, s: int)
    requires Num(x) + 2 * r == Num(y) + 2 * s
    ensures x == y && r == s
  {
  }

  /** Two octets in network order. */
  function U16(m: seq<Byte>, i: nat): (r: nat)
    requires i + 1 < |m|
    ensures r < 0x1_0000
  {
    m[i] as nat * 256 + m[i + 1] as nat
  }

  function Be16(n: nat): (r: seq<Byte>)
    requires n < 0x1_0000
    ensures |r| == 2
  {
    [n / 256, n % 256]
  }
}
