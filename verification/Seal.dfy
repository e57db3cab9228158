/** The rotating-xor checksum that seals a translated program binary. */
module Seal {
  import opened Words
  import opened Bits

  /** Bitwise exclusive or of two naturals, lowest bit first. */
  function Xor(a: nat, b: nat): nat
    decreases a + b
  {
    if a == 0 && b == 0 then 0 else (a + b) % 2 + 2 * Xor(a / 2, b / 2)
  }

  lemma {:induction false} XorBound(a: nat, b: nat, n: nat)
    requires a < Pow2(n) && b < Pow2(n)
    ensures Xor(a, b) < Pow2(n)
  {
    if n > 0 { XorBound(a / 2, b / 2, n - 1); }
  }

  lemma XorWord(a: word, b: word)
    ensures Xor(a, b) < WORD
  {
    Powers();
    XorBound(a, b, 32);
  }

  lemma SameHalves(h: nat, a: nat, b: nat)
    requires a / 2 == b / 2 && (h + a) % 2 == (h + b) % 2
    ensures a == b
  {}

  /** Exclusive or with a fixed left operand loses nothing. */
  lemma {:induction false} XorInjective(h: nat, a: nat, b: nat)
    requires Xor(h, a) == Xor(h, b)
    ensures a == b
    decreases h + a + b
  {
    if h + a + b > 0 {
      var x, y := Xor(h / 2, a / 2), Xor(h / 2, b / 2);
      assert Xor(h, a) == (h + a) % 2 + 2 * x;
      assert Xor(h, b) == (h + b) % 2 + 2 * y;
      assert x == y;
      XorInjective(h / 2, a / 2, b / 2);
      SameHalves(h, a, b);
    }
  }

  lemma {:induction false} XorInjectiveLeft(a: nat, b: nat, c: nat)
    requires Xor(a, c) == Xor(b, c)
    ensures a == b
  {
    XorCommutes(a, c);
    XorCommutes(b, c);
    XorInjective(c, a, b);
  }

  lemma {:induction false} XorCommutes(a: nat, b: nat)
    ensures Xor(a, b) == Xor(b, a)
    decreases a + b
  {
    if a == 0 && b == 0 {} else { XorCommutes(a / 2, b / 2); }
  }

  /** Rotate left by seven bits, (h >> 25) | (h << 7): the two parts share no bit. */
  function Rot7(h: word): word
  {
    h / 0x200_0000 + h % 0x200_0000 * 0x80
  }

  lemma Rot7Injective(g: word, h: word)
    requires Rot7(g) == Rot7(h)
    ensures g == h
  {
    assert Rot7(g) % 0x80 == g / 0x200_0000 && Rot7(h) % 0x80 == h / 0x200_0000;
  }

  /** One round: mix in a byte, rotate. */
  function Round(h: word, p: byte): word
  {
    XorWord(h, p);
    Rot7(Xor(h, p))
  }

  function RotXor(p: seq<byte>): word
  {
    if p == [] then 0 else Round(RotXor(p[..|p| - 1]), p[|p| - 1])
  }

  /** The original's loop over the buffer. */
  method ComputeRotXor(p: array<byte>) returns (h: word)
    ensures h == RotXor(p[..])
  {
    h := 0;
    var i := 0;
    while i < p.Length
      invariant 0 <= i <= p.Length
      invariant h == RotXor(p[..i])
    {
      assert p[..i + 1][..i] == p[..i];
      h := Round(h, p[i]);
      i := i + 1;
    }
    assert p[..i] == p[..];
  }

  /** Each bit of an exclusive or is set exactly if one of the two is. */
  lemma {:induction false} XorBit(a: nat, b: nat, k: nat)
    ensures Bit(Xor(a, b), k) == (Bit(a, k) + Bit(b, k)) % 2
  {
    if k > 0 {
      assert Xor(a, b) / 2 == Xor(a / 2, b / 2);
      XorBit(a / 2, b / 2, k - 1);
    }
  }

  /** Every bit moves up by seven places, the upper ones around to the bottom. */
  lemma Rot7Bit(h: word, k: nat)
    requires k < 32
    ensures Bit(Rot7(h), (k + 7) % 32) == Bit(h, k)
  {
    var lo, hi := h % 0x200_0000, h / 0x200_0000;
    Powers();
    hide Pow2, Bit, Down;
    if k < 25 {
      BitAbove(Rot7(h), 7, k);
      DownIs(Rot7(h), 7);
      assert Rot7(h) / 0x80 == lo;
      BitBelow(lo, 25, hi, k);
    } else {
      BitAbove(h, 25, k - 25);
      DownIs(h, 25);
      assert (k + 7) % 32 == k - 25;
      BitBelow(hi, 7, lo, k - 25);
    }
  }

  lemma RoundBit(h: word, p: byte, k: nat)
    requires k < 32
    ensures Bit(Round(h, p), (k + 7) % 32) == (Bit(h, k) + Bit(p, k)) % 2
  {
    XorWord(h, p);
    Rot7Bit(Xor(h, p), k);
    XorBit(h, p, k);
  }

  /**
   * How many of the bits that rotation brings to place k are set: of byte i, which n - i rounds rotate, the
   * one 7 * (n - i) places lower, counted around the word.
   */
  function Ones(p: seq<byte>, n: nat, k: nat): nat
    requires |p| <= n
  {
    if p == [] then 0
    else
      var i := |p| - 1;
      Ones(p[..i], n, k) + Bit(p[i], (k - 7 * (n - i)) % 32)
  }

  lemma {:induction false} OnesShift(p: seq<byte>, n: nat, k: nat)
    requires |p| <= n
    ensures Ones(p, n + 1, k) == Ones(p, n, (k - 7) % 32)
  {
    if p != [] {
      var i := |p| - 1;
      OnesShift(p[..i], n, k);
      Around(k, 7 * (n - i));
    }
  }

  lemma Around(k: int, d: int)
    ensures (k - 7 - d) % 32 == ((k - 7) % 32 - d) % 32
  {}

  lemma {:induction false} ZeroBits(k: nat)
    ensures Bit(0, k) == 0
  {
    if k > 0 { ZeroBits(k - 1); }
  }

  lemma LastRound(p: seq<byte>)
    requires p != []
    ensures RotXor(p) == Round(RotXor(p[..|p| - 1]), p[|p| - 1])
  {}

  lemma LastOnes(p: seq<byte>, k: nat)
    requires p != []
    ensures var i := |p| - 1;
      Ones(p, |p|, k) == Ones(p[..i], i, (k - 7) % 32) + Bit(p[i], (k - 7) % 32)
  {
    hide Bit;
    OnesShift(p[..|p| - 1], |p| - 1, k);
  }

  /** Bit k of the checksum is the parity of these bits. */
  lemma {:induction false} SealBits(p: seq<byte>, k: nat)
    requires k < 32
    ensures Bit(RotXor(p), k) == Ones(p, |p|, k) % 2
  {
    hide Bit, Round, RotXor;
    if p == [] {
      Nothing(k);
    } else {
      var before := if k < 7 then k + 25 else k - 7;
      assert before == (k - 7) % 32 && (before + 7) % 32 == k;
      LastRound(p);
      LastOnes(p, k);
      hide Ones;
      SealBits(p[..|p| - 1], before);
      RoundBit(RotXor(p[..|p| - 1]), p[|p| - 1], before);
    }
  }

  lemma Nothing(k: nat)
    ensures Bit(RotXor([]), k) == 0
  {
    ZeroBits(k);
  }

  /** Two byte strings that agree except in exactly one byte never seal alike. */
  lemma {:induction false} OneByteChangesSeal(p: seq<byte>, q: seq<byte>, at: nat)
    requires |p| == |q| && at < |p| && p[at] != q[at]
    requires forall k :: 0 <= k < |p| && k != at ==> p[k] == q[k]
    ensures RotXor(p) != RotXor(q)
  {
    var n := |p| - 1;
    var hp, hq := RotXor(p[..n]), RotXor(q[..n]);
    if RotXor(p) == RotXor(q) {
      XorWord(hp, p[n]);
      XorWord(hq, q[n]);
      Rot7Injective(Xor(hp, p[n]), Xor(hq, q[n]));
      if at == n {
        assert p[..n] == q[..n];
        XorInjective(hp, p[n], q[n]);
      } else {
        OneByteChangesSeal(p[..n], q[..n], at);
        XorInjectiveLeft(hp, hq, p[n]);
      }
    }
  }
}
