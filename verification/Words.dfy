/** Bytes and little-endian 32-bit words, as the translator reads and writes them. */
module Words {
  type byte = x: int | 0 <= x < 256

  const WORD := 0x1_0000_0000

  type word = x: int | 0 <= x < 0x1_0000_0000

  /** The word whose four bytes start at offset o. */
  function Rd(b: seq<byte>, o: nat): word
    requires o + 4 <= |b|
  {
    var b0: int, b1: int, b2: int, b3: int := b[o], b[o + 1], b[o + 2], b[o + 3];
    b0 + 0x100 * b1 + 0x1_0000 * b2 + 0x100_0000 * b3
  }

  /** Unsigned 32-bit addition. */
  function Add32(a: word, d: nat): (r: word)
  {
    (a + d) % 0x1_0000_0000
  }

  lemma Add32Small(a: word, d: nat)
    requires a + d < WORD
    ensures Add32(a, d) == a + d
  {}

  /** Byte number k of the little-endian form of v. */
  function ByteOf(v: word, k: nat): byte
    requires k < 4
  {
    if k == 0 then v % 0x100
    else if k == 1 then v / 0x100 % 0x100
    else if k == 2 then v / 0x1_0000 % 0x100
    else v / 0x100_0000
  }

  lemma BytesOfWord(v: word)
    ensures ByteOf(v, 0) + 0x100 * ByteOf(v, 1) + 0x1_0000 * ByteOf(v, 2) + 0x100_0000 * ByteOf(v, 3) == v
  {
    assert v == v % 0x100 + 0x100 * (v / 0x100);
    assert v / 0x1_0000 == v / 0x100 / 0x100;
    assert v / 0x100_0000 == v / 0x1_0000 / 0x100;
  }

  /** The original's wr: stores v at offset o and touches nothing else. */
  method Wr(b: array<byte>, o: nat, v: word)
    requires o + 4 <= b.Length
    modifies b
    ensures Rd(b[..], o) == v
    ensures forall k :: 0 <= k < b.Length && !(o <= k < o + 4) ==> b[k] == old(b[k])
  {
    BytesOfWord(v);
    b[o] := ByteOf(v, 0);
    b[o + 1] := ByteOf(v, 1);
    b[o + 2] := ByteOf(v, 2);
    b[o + 3] := ByteOf(v, 3);
    assert b[..][o] == ByteOf(v, 0) && b[..][o + 1] == ByteOf(v, 1);
    assert b[..][o + 2] == ByteOf(v, 2) && b[..][o + 3] == ByteOf(v, 3);
  }

  /** Four equal bytes make equal words, in whatever buffers they sit. */
  lemma SameWord(a: seq<byte>, i: nat, b: seq<byte>, j: nat)
    requires i + 4 <= |a| && j + 4 <= |b|
    requires a[i..i + 4] == b[j..j + 4]
    ensures Rd(a, i) == Rd(b, j)
  {
    var x, y := a[i..i + 4], b[j..j + 4];
    assert x[0] == a[i] && x[1] == a[i + 1] && x[2] == a[i + 2] && x[3] == a[i + 3];
    assert y[0] == b[j] && y[1] == b[j + 1] && y[2] == b[j + 2] && y[3] == b[j + 3];
  }

  lemma LowByte(x: byte, y: byte, u: int, v: int)
    requires x + 0x100 * u == y + 0x100 * v
    ensures x == y && u == v
  {}

  /** And equal words have equal bytes. */
  lemma SameBytes(a: seq<byte>, i: nat, b: seq<byte>, j: nat)
    requires i + 4 <= |a| && j + 4 <= |b| && Rd(a, i) == Rd(b, j)
    ensures a[i..i + 4] == b[j..j + 4]
  {
    var a1: int, a2: int, a3: int := a[i + 1], a[i + 2], a[i + 3];
    var b1: int, b2: int, b3: int := b[j + 1], b[j + 2], b[j + 3];
    LowByte(a[i], b[j], a1 + 0x100 * (a2 + 0x100 * a3), b1 + 0x100 * (b2 + 0x100 * b3));
    LowByte(a[i + 1], b[j + 1], a2 + 0x100 * a3, b2 + 0x100 * b3);
    LowByte(a[i + 2], b[j + 2], a3, b3);
  }
}
