/** The bits of naturals, the lowest one first. */
module Bits {
  import opened Words

  function Pow2(n: nat): (r: nat)
    ensures r > 0
  {
    if n == 0 then 1 else 2 * Pow2(n - 1)
  }

  /** h without its n lowest bits. */
  function Down(h: nat, n: nat): nat { if n == 0 then h else Down(h / 2, n - 1) }

  function Bit(h: nat, k: nat): nat { Down(h, k) % 2 }

  lemma DivTwice(h: nat, b: nat)
    requires b > 0
    ensures h / (2 * b) == h / 2 / b
  {
    var q := h / 2 / b;
    assert h / 2 == b * q + h / 2 % b;
    DivUnique(h, 2 * b, q, h - 2 * (b * q));
  }

  lemma DivUnique(h: nat, d: nat, q: nat, r: nat)
    requires h == d * q + r && r < d
    ensures h / d == q && h % d == r
  {
    var e := h / d;
    assert h == d * e + h % d;
    if e < q {
      MulMono(e + 1, q, d);
    } else if q < e {
      MulMono(q + 1, e, d);
    }
  }

  lemma MulMono(a: nat, b: nat, k: nat)
    requires a <= b
    ensures k * a <= k * b
  {}

  /** Bit k is the last one of the quotient by its value. */
  lemma {:induction false} DownIs(h: nat, n: nat)
    ensures Down(h, n) == h / Pow2(n)
  {
    if n > 0 {
      DownIs(h / 2, n - 1);
      DivTwice(h, Pow2(n - 1));
    }
  }

  lemma {:induction false} DownAgain(h: nat, a: nat, b: nat)
    ensures Down(h, a + b) == Down(Down(h, a), b)
  {
    if a > 0 { DownAgain(h / 2, a - 1, b); }
  }

  /** Dropping the a lowest bits moves the others down. */
  lemma BitAbove(h: nat, a: nat, b: nat)
    ensures Bit(h, a + b) == Bit(Down(h, a), b)
  {
    DownAgain(h, a, b);
  }

  /** What is added above the a lowest bits does not change these. */
  lemma {:induction false} BitBelow(h: nat, a: nat, q: nat, b: nat)
    requires b < a
    ensures Bit(h + Pow2(a) * q, b) == Bit(h, b)
  {
    var c := Pow2(a - 1) * q;
    Twice(a, q);
    hide Pow2;
    if b > 0 {
      assert (h + 2 * c) / 2 == h / 2 + c;
      BitBelow(h / 2, a - 1, q, b - 1);
    }
  }

  lemma Twice(a: nat, q: nat)
    requires a > 0
    ensures Pow2(a) * q == 2 * (Pow2(a - 1) * q)
  {}

  lemma Powers()
    ensures Pow2(7) == 0x80 && Pow2(8) == 0x100 && Pow2(16) == 0x1_0000 && Pow2(24) == 0x100_0000
    ensures Pow2(25) == 0x200_0000 && Pow2(32) == WORD
  {
    assert Pow2(4) == 16;
    assert Pow2(7) == 0x80 && Pow2(8) == 0x100;
    assert Pow2(12) == 0x1000 && Pow2(16) == 0x1_0000;
    assert Pow2(20) == 0x10_0000 && Pow2(24) == 0x100_0000;
    assert Pow2(28) == 0x1000_0000;
  }

  /** A word's bytes lie in it lowest first: bit 8 * i + j of the word is bit j of byte i. */
  lemma WordBits(b: seq<byte>, o: nat, i: nat, j: nat)
    requires o + 4 <= |b| && i < 4 && j < 8
    ensures Bit(Rd(b, o), 8 * i + j) == Bit(b[o + i], j)
  {
    var above := WordByte(b, o, i);
    BitAbove(Rd(b, o), 8 * i, j);
    hide Rd, Bit, Down;
    ByteBit(b[o + i], above, j);
  }

  lemma WordByte(b: seq<byte>, o: nat, i: nat) returns (above: nat)
    requires o + 4 <= |b| && i < 4
    ensures Down(Rd(b, o), 8 * i) == b[o + i] + 0x100 * above
  {
    var b0: nat, b1: nat, b2: nat, b3: nat := b[o], b[o + 1], b[o + 2], b[o + 3];
    var h := Rd(b, o);
    Powers();
    DownIs(h, 8);
    DownIs(h, 16);
    DownIs(h, 24);
    hide Pow2, Down;
    if i == 0 {
      above := b1 + 0x100 * (b2 + 0x100 * b3);
      DownNone(h);
    } else if i == 1 {
      above := b2 + 0x100 * b3;
    } else if i == 2 {
      above := b3;
    } else {
      above := 0;
    }
  }

  lemma DownNone(h: nat)
    ensures Down(h, 0) == h
  {}

  lemma ByteBit(x: byte, above: nat, j: nat)
    requires j < 8
    ensures Bit(x + 0x100 * above, j) == Bit(x, j)
  {
    Powers();
    hide Pow2;
    BitBelow(x, 8, above, j);
  }
}
