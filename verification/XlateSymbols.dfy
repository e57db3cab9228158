/** Relocating the pointers of the symbol section and of the pointer section. */
module XlateSymbols {
  import opened Words
  import opened XlateFormat
  import opened XlateLayout
  import opened XlateTable
  import opened XlateCode

  const SYM_BASE := 0x4c
  const SYM_STRIDE := 96
  const NOT_SET := 0xffff_ffff

  /** Word w of a section. */
  function SymWord(sec: seq<byte>, w: nat): word
    requires 4 * w + 4 <= |sec|
  {
    Rd(sec, 4 * w)
  }

  /** The records of a section of n bytes that lie in it entirely, at most cnt. */
  function Records(n: nat, cnt: nat): nat
  {
    if n < SYM_BASE then 0
    else if (n - SYM_BASE) / SYM_STRIDE < cnt then (n - SYM_BASE) / SYM_STRIDE else cnt
  }

  /** The aux pointer of record r. */
  function Aux(sec: seq<byte>, r: nat): word
    requires SYM_BASE + SYM_STRIDE * r + SYM_STRIDE <= |sec|
  {
    SymWord(sec, 22 + 24 * r)
  }

  /** Whether record r has an aux pair that the translator follows. */
  predicate AuxLive(p: Plan, sec: seq<byte>, r: nat)
    requires SYM_BASE + SYM_STRIDE * r + SYM_STRIDE <= |sec|
  {
    Aux(sec, r) != 0 && Add32(Aux(sec, r), 8) <= p.len && p.Matched(Aux(sec, r))
  }

  /**
   * What the symbol fix-up relies on: the end of the record array is a 32-bit offset, and every aux pair
   * that is followed lies word-aligned inside the section itself.
   */
  predicate SymbolsFit(p: Plan, sec: seq<byte>, od: int, cnt: nat)
  {
    && SYM_BASE + SYM_STRIDE * cnt + 32 < WORD
    && forall r :: 0 <= r < Records(|sec|, cnt) && AuxLive(p, sec, r) ==> AuxInside(sec, od, r)
  }

  predicate AuxInside(sec: seq<byte>, od: int, r: nat)
    requires SYM_BASE + SYM_STRIDE * r + SYM_STRIDE <= |sec|
  {
    od <= Aux(sec, r) && Aux(sec, r) + 8 <= od + |sec| && (Aux(sec, r) - od) % 4 == 0
  }

  /** Word w is one of the six pointer fields of record r, or of the aux pair of record r. */
  predicate OfRecord(p: Plan, sec: seq<byte>, od: int, r: nat, w: nat)
    requires SYM_BASE + SYM_STRIDE * r + SYM_STRIDE <= |sec|
  {
    19 + 24 * r <= w < 25 + 24 * r || AuxWord(p, sec, od, r, w)
  }

  predicate AuxWord(p: Plan, sec: seq<byte>, od: int, r: nat, w: nat)
    requires SYM_BASE + SYM_STRIDE * r + SYM_STRIDE <= |sec|
  {
    AuxLive(p, sec, r) && (4 * w == Aux(sec, r) - od || 4 * w == Aux(sec, r) - od + 4)
  }

  /** Word w starts one of the 32-byte blocks behind the records and the block's third word is all ones. */
  predicate OfBlock(sec: seq<byte>, cnt: nat, w: nat)
  {
    var a := 4 * w - (SYM_BASE + SYM_STRIDE * cnt);
    0 <= a && a % 32 == 0 && 4 * w + 32 <= |sec| && SymWord(sec, w + 2) == NOT_SET
  }

  predicate InRecords(p: Plan, sec: seq<byte>, od: int, count: nat, w: nat)
    requires count == 0 || SYM_BASE + SYM_STRIDE * count <= |sec|
  {
    exists r :: 0 <= r < count && OfRecord(p, sec, od, r, w)
  }

  /** Which words of the symbol section hold pointers, by position only. */
  predicate IsPointer(p: Plan, sec: seq<byte>, od: int, cnt: nat, w: nat)
  {
    InRecords(p, sec, od, Records(|sec|, cnt), w) || OfBlock(sec, cnt, w)
  }

  /** The words in done are relocated; every other byte is as it was. */
  ghost predicate Fixed(p: Plan, sec: seq<byte>, now: seq<byte>, done: iset<nat>)
  {
    && |now| == |sec|
    && (forall w :: 0 <= w && 4 * w + 4 <= |sec| ==>
         SymWord(now, w) == if w in done then p.Reloc(SymWord(sec, w)) else SymWord(sec, w))
    && (forall i :: |sec| - |sec| % 4 <= i < |sec| ==> now[i] == sec[i])
  }

  ghost predicate SymbolsFixed(p: Plan, sec: seq<byte>, od: int, cnt: nat, now: seq<byte>)
  {
    Fixed(p, sec, now, iset w | IsPointer(p, sec, od, cnt, w))
  }

  lemma FixedSame(p: Plan, sec: seq<byte>, now: seq<byte>, a: iset<nat>, b: iset<nat>)
    requires Fixed(p, sec, now, a)
    requires forall w: nat :: 4 * w + 4 <= |sec| ==> (w in a <==> w in b)
    ensures Fixed(p, sec, now, b)
  {}

  /** Writing the relocated word, or leaving the word alone when that is the same, adds w to done. */
  lemma FixedStep(p: Plan, sec: seq<byte>, was: seq<byte>, now: seq<byte>, done: iset<nat>, w: nat)
    requires Fixed(p, sec, was, done) && 4 * w + 4 <= |sec| && |now| == |was|
    requires SymWord(now, w) == p.Reloc(SymWord(sec, w))
    requires forall i :: 0 <= i < |now| && !(4 * w <= i < 4 * w + 4) ==> now[i] == was[i]
    ensures Fixed(p, sec, now, done + iset{w})
  {
    forall v | 0 <= v && 4 * v + 4 <= |sec| && v != w ensures SymWord(now, v) == SymWord(was, v) {
      SameWord(now, 4 * v, was, 4 * v);
    }
  }

  /**
   * Relocates one pointer: ov comes from the old file and its new value goes to offset at of the new one.
   * A pointer that no section holds is left alone, or written as it is when always is set.
   */
  method FixWord(maps: Maps, o: array<byte>, at: nat, ov: word, always: bool,
                 ghost p: Plan, ghost sec: seq<byte>, ghost nb: nat, ghost w: nat, ghost done: iset<nat>)
    requires MapsOf(p, maps) && nb + |sec| <= o.Length && 4 * w + 4 <= |sec|
    requires at == nb + 4 * w && ov == SymWord(sec, w)
    requires Fixed(p, sec, o[nb..nb + |sec|], done)
    modifies o
    ensures Fixed(p, sec, o[nb..nb + |sec|], done + iset{w})
    ensures forall x :: 0 <= x < nb || nb + |sec| <= x < o.Length ==> o[x] == old(o[x])
  {
    hide Fixed, Rd;
    ghost var hi := nb + |sec|;
    ghost var was := o[nb..hi];
    RelocBelow(p, 0);
    if ov != 0 {
      var nv, matched := Relocate(maps, ov, p);
      if matched || always {
        Wr(o, at, nv);
        assert o[..][nb..hi] == o[nb..hi];
        WordInSlice(o[..], nb, hi, 4 * w);
        FixedStep(p, sec, was, o[nb..hi], done, w);
        return;
      }
    }
    FixedSkip(p, sec, was, done, w);
  }

  lemma FixedSkip(p: Plan, sec: seq<byte>, now: seq<byte>, done: iset<nat>, w: nat)
    requires Fixed(p, sec, now, done) && 4 * w + 4 <= |sec|
    requires p.Reloc(SymWord(sec, w)) == SymWord(sec, w)
    ensures Fixed(p, sec, now, done + iset{w})
  {}

  /** Word w is one of the first q fields of record r. */
  predicate Field(r: nat, q: nat, w: nat) { 19 + 24 * r <= w < 19 + 24 * r + q }

  ghost function Fields(r: nat, q: nat): iset<nat> { iset w: nat | Field(r, q, w) }

  ghost function AuxWords(p: Plan, sec: seq<byte>, od: int, r: nat): iset<nat>
    requires SYM_BASE + SYM_STRIDE * r + SYM_STRIDE <= |sec|
  {
    iset w: nat | AuxWord(p, sec, od, r, w)
  }

  ghost function RecordWords(p: Plan, sec: seq<byte>, od: int, count: nat): iset<nat>
    requires count == 0 || SYM_BASE + SYM_STRIDE * count <= |sec|
  {
    iset w: nat | InRecords(p, sec, od, count, w)
  }

  /** The block heads below byte offset a. */
  ghost function BlocksBefore(sec: seq<byte>, cnt: nat, a: nat): iset<nat>
  {
    iset w: nat | 4 * w < a && OfBlock(sec, cnt, w)
  }

  /** The six pointer fields of record r. */
  method FixFields(maps: Maps, o: array<byte>, nb: nat, sec: seq<byte>, r: nat, ghost p: Plan, ghost done: iset<nat>)
    requires MapsOf(p, maps) && nb + |sec| <= o.Length && SYM_BASE + SYM_STRIDE * r + SYM_STRIDE <= |sec|
    requires Fixed(p, sec, o[nb..nb + |sec|], done)
    modifies o
    ensures Fixed(p, sec, o[nb..nb + |sec|], done + Fields(r, 6))
    ensures forall x :: 0 <= x < nb || nb + |sec| <= x < o.Length ==> o[x] == old(o[x])
  {
    hide Fixed, MapsOf, SymWord;
    var roff := SymbolBase(r);
    var q := 0;
    FixedSame(p, sec, o[nb..nb + |sec|], done, done + Fields(r, 0));
    while q < 6
      invariant 0 <= q <= 6
      invariant Fixed(p, sec, o[nb..nb + |sec|], done + Fields(r, q))
      invariant forall x :: 0 <= x < nb || nb + |sec| <= x < o.Length ==> o[x] == old(o[x])
    {
      ghost var d := done + Fields(r, q);
      ghost var w := 19 + 24 * r + q;
      FixWord(maps, o, nb + roff + 4 * q, WordAt(sec, roff + 4 * q, w), false, p, sec, nb, w, d);
      q := q + 1;
      FixedSame(p, sec, o[nb..nb + |sec|], d + iset{w}, done + Fields(r, q));
    }
  }

  /** The old bytes of slot j. */
  ghost predicate SectionOf(p: Plan, img: seq<byte>, j: nat, sec: seq<byte>)
  {
    && p.Fits() && 0 < j < |p.starts| && |img| == p.len
    && 0 <= p.starts[j] <= p.End(j) <= p.len && sec == img[p.starts[j]..p.End(j)]
  }

  /** The aux pair of record r, reached through the old file and written through the relocated pointer. */
  method FixAux(maps: Maps, img: seq<byte>, o: array<byte>, nb: nat, od: nat, sec: seq<byte>, r: nat,
                ghost p: Plan, ghost j: nat, ghost done: iset<nat>)
    requires MapsOf(p, maps) && nb + |sec| <= o.Length && SYM_BASE + SYM_STRIDE * r + SYM_STRIDE <= |sec|
    requires SectionOf(p, img, j, sec) && od == p.starts[j] && nb == p.New(j)
    requires AuxLive(p, sec, r) ==> AuxInside(sec, od, r)
    requires Fixed(p, sec, o[nb..nb + |sec|], done)
    modifies o
    ensures Fixed(p, sec, o[nb..nb + |sec|], done + AuxWords(p, sec, od, r))
    ensures forall x :: 0 <= x < nb || nb + |sec| <= x < o.Length ==> o[x] == old(o[x])
  {
    hide Fixed, MapsOf, SectionOf;
    var roff := SymbolBase(r);
    var aux := WordAt(sec, roff + 0x0c, 22 + 24 * r);
    if aux != 0 && Add32(aux, 8) <= |img| {
      ImageLength(p, img, j, sec);
      var naux, matched := Relocate(maps, aux, p);
      if matched {
        assert AuxLive(p, sec, r);
        AuxMoves(p, img, j, sec, aux);
        ghost var w := (aux - od) / 4;
        AuxReads(p, img, j, sec, aux, w);
        FixWord(maps, o, naux, Rd(img, aux), false, p, sec, nb, w, done);
        FixWord(maps, o, (naux as int) + 4, Rd(img, aux + 4), false, p, sec, nb, w + 1, done + iset{w});
        FixedSame(p, sec, o[nb..nb + |sec|], done + iset{w} + iset{w + 1},
                  done + AuxWords(p, sec, od, r));
        return;
      }
    }
    ImageLength(p, img, j, sec);
    assert !AuxLive(p, sec, r);
    FixedSame(p, sec, o[nb..nb + |sec|], done, done + AuxWords(p, sec, od, r));
  }

  lemma ImageLength(p: Plan, img: seq<byte>, j: nat, sec: seq<byte>)
    requires SectionOf(p, img, j, sec)
    ensures |img| == p.len && p.Fits()
  {}

  lemma AuxMoves(p: Plan, img: seq<byte>, j: nat, sec: seq<byte>, aux: word)
    requires SectionOf(p, img, j, sec) && p.starts[j] <= aux && aux + 8 <= p.starts[j] + |sec|
    ensures p.Reloc(aux) == p.New(j) + (aux - p.starts[j])
  {
    RelocInSlot(p, j, aux);
  }

  lemma AuxReads(p: Plan, img: seq<byte>, j: nat, sec: seq<byte>, aux: word, w: nat)
    requires SectionOf(p, img, j, sec) && aux == p.starts[j] + 4 * w && aux + 8 <= p.starts[j] + |sec|
    ensures aux + 8 <= |img|
    ensures Rd(img, aux) == SymWord(sec, w) && Rd(img, aux + 4) == SymWord(sec, w + 1)
  {
    WordInSlice(img, p.starts[j], p.End(j), 4 * w);
    WordInSlice(img, p.starts[j], p.End(j), 4 * w + 4);
  }

  /** Walks the records until the count or the section is exhausted. */
  method FixRecords(maps: Maps, img: seq<byte>, o: array<byte>, nb: nat, od: nat, sec: seq<byte>, cnt: nat,
                    ghost p: Plan, ghost j: nat)
    requires MapsOf(p, maps) && nb + |sec| <= o.Length
    requires SectionOf(p, img, j, sec) && od == p.starts[j] && nb == p.New(j)
    requires SymbolsFit(p, sec, od, cnt)
    requires o[nb..nb + |sec|] == sec
    modifies o
    ensures Fixed(p, sec, o[nb..nb + |sec|], RecordWords(p, sec, od, Records(|sec|, cnt)))
    ensures forall x :: 0 <= x < nb || nb + |sec| <= x < o.Length ==> o[x] == old(o[x])
  {
    hide MapsOf, SectionOf, AuxLive, AuxInside, OfRecord, Records;
    var r := 0;
    NoRecords(p, sec, od);
    FixedNone(p, sec, RecordWords(p, sec, od, 0));
    RecordsBound(|sec|, cnt, r);
    hide Fixed, RecordWords, Fields, AuxWords, InRecords;
    while r < cnt
      invariant 0 <= r <= Records(|sec|, cnt)
      invariant r == 0 || SYM_BASE + SYM_STRIDE * r <= |sec|
      invariant Fixed(p, sec, o[nb..nb + |sec|], RecordWords(p, sec, od, r))
      invariant forall x :: 0 <= x < nb || nb + |sec| <= x < o.Length ==> o[x] == old(o[x])
    {
      RecordsBound(|sec|, cnt, r);
      if SymbolBase(r) + SYM_STRIDE > |sec| { break; }
      ghost var d := RecordWords(p, sec, od, r);
      FixFields(maps, o, nb, sec, r, p, d);
      FixAux(maps, img, o, nb, od, sec, r, p, j, d + Fields(r, 6));
      RecordStep(p, sec, od, r);
      FixedSame(p, sec, o[nb..nb + |sec|], d + Fields(r, 6) + AuxWords(p, sec, od, r), RecordWords(p, sec, od, r + 1));
      r := r + 1;
    }
    RecordsBound(|sec|, cnt, r);
  }

  lemma RecordsBound(n: nat, cnt: nat, r: nat)
    requires r <= Records(n, cnt)
    ensures r < cnt && SYM_BASE + SYM_STRIDE * r + SYM_STRIDE <= n ==> r + 1 <= Records(n, cnt)
    ensures r < cnt && SYM_BASE + SYM_STRIDE * r + SYM_STRIDE > n ==> r == Records(n, cnt)
    ensures r >= cnt ==> r == Records(n, cnt)
    ensures r == 0 || SYM_BASE + SYM_STRIDE * r <= n
  {
    if r < cnt && SYM_BASE <= n {
      var q := (n - SYM_BASE) / SYM_STRIDE;
      assert SYM_STRIDE * q <= n - SYM_BASE < SYM_STRIDE * q + SYM_STRIDE;
    }
  }

  lemma NoRecords(p: Plan, sec: seq<byte>, od: int)
    ensures RecordWords(p, sec, od, 0) == iset{}
  {}

  lemma FixedNone(p: Plan, sec: seq<byte>, none: iset<nat>)
    requires none == iset{}
    ensures Fixed(p, sec, sec, none)
  {}

  lemma RecordStep(p: Plan, sec: seq<byte>, od: int, r: nat)
    requires SYM_BASE + SYM_STRIDE * (r + 1) <= |sec|
    ensures RecordWords(p, sec, od, r + 1) == RecordWords(p, sec, od, r) + Fields(r, 6) + AuxWords(p, sec, od, r)
  {
    forall w: nat {
      RecordStepWord(p, sec, od, r, w);
    }
  }

  lemma RecordStepWord(p: Plan, sec: seq<byte>, od: int, r: nat, w: nat)
    requires SYM_BASE + SYM_STRIDE * (r + 1) <= |sec|
    ensures InRecords(p, sec, od, r + 1, w) <==>
      (InRecords(p, sec, od, r, w) || Field(r, 6, w) || AuxWord(p, sec, od, r, w))
  {
    assert OfRecord(p, sec, od, r, w) <==> Field(r, 6, w) || AuxWord(p, sec, od, r, w);
    hide OfRecord;
    if InRecords(p, sec, od, r, w) {
      var q :| 0 <= q < r && OfRecord(p, sec, od, q, w);
      assert InRecords(p, sec, od, r + 1, w);
    }
  }

  /** The blocks behind the records. */
  method FixBlocks(maps: Maps, o: array<byte>, nb: nat, sec: seq<byte>, cnt: nat, ghost p: Plan, ghost done: iset<nat>)
    requires MapsOf(p, maps) && nb + |sec| <= o.Length
    requires Fixed(p, sec, o[nb..nb + |sec|], done)
    modifies o
    ensures Fixed(p, sec, o[nb..nb + |sec|], done + AllBlocks(sec, cnt))
    ensures forall x :: 0 <= x < nb || nb + |sec| <= x < o.Length ==> o[x] == old(o[x])
  {
    hide Fixed, MapsOf, SymWord, OfBlock, BlocksBefore;
    var a := SymbolBase(cnt);
    NoBlocks(sec, cnt);
    FixedSame(p, sec, o[nb..nb + |sec|], done, done + BlocksBefore(sec, cnt, a));
    ghost var m := 0;
    while a + 32 <= |sec|
      invariant a == SymbolBase(cnt) + 32 * m
      invariant Fixed(p, sec, o[nb..nb + |sec|], done + BlocksBefore(sec, cnt, a))
      invariant forall x :: 0 <= x < nb || nb + |sec| <= x < o.Length ==> o[x] == old(o[x])
    {
      ghost var d := done + BlocksBefore(sec, cnt, a);
      ghost var w := 19 + 24 * cnt + 8 * m;
      BlockStep(sec, cnt, m, w);
      var bp := WordAt(sec, a, w);
      if WordAt(sec, a + 0x08, w + 2) == NOT_SET {
        FixWord(maps, o, nb + a, bp, true, p, sec, nb, w, d);
        FixedSame(p, sec, o[nb..nb + |sec|], d + iset{w}, done + BlocksBefore(sec, cnt, a + 32));
      } else {
        FixedSame(p, sec, o[nb..nb + |sec|], d, done + BlocksBefore(sec, cnt, a + 32));
      }
      a := a + 32;
      m := m + 1;
    }
    BlocksEnd(sec, cnt, a);
  }

  lemma NoBlocks(sec: seq<byte>, cnt: nat)
    ensures BlocksBefore(sec, cnt, SymbolBase(cnt)) == iset{}
  {}

  lemma BlockStep(sec: seq<byte>, cnt: nat, m: nat, w: nat)
    requires w == 19 + 24 * cnt + 8 * m && 4 * w + 32 <= |sec|
    ensures BlocksBefore(sec, cnt, 4 * w + 32)
      == BlocksBefore(sec, cnt, 4 * w) + (if SymWord(sec, w + 2) == NOT_SET then iset{w} else iset{})
  {
    hide SymWord;
    forall v: nat | 4 * w <= 4 * v < 4 * w + 32
      ensures OfBlock(sec, cnt, v) <==> v == w && SymWord(sec, w + 2) == NOT_SET
    {
      assert 4 * v - (SYM_BASE + SYM_STRIDE * cnt) == 32 * m + 4 * (v - w);
    }
  }

  lemma BlocksEnd(sec: seq<byte>, cnt: nat, a: nat)
    requires a + 32 > |sec|
    ensures BlocksBefore(sec, cnt, a) == AllBlocks(sec, cnt)
  {}

  ghost function AllBlocks(sec: seq<byte>, cnt: nat): iset<nat> { iset w: nat | OfBlock(sec, cnt, w) }

  /**
   * The symbol section. Fields, aux pairs and block heads may overlap, yet each word ends up relocated or
   * untouched according to its position only.
   */
  method FixSymbols(maps: Maps, img: seq<byte>, o: array<byte>, nb: nat, od: nat, sec: seq<byte>, cnt: nat,
                    ghost p: Plan, ghost j: nat)
    requires MapsOf(p, maps) && nb + |sec| <= o.Length
    requires SectionOf(p, img, j, sec) && od == p.starts[j] && nb == p.New(j)
    requires SymbolsFit(p, sec, od, cnt)
    requires o[nb..nb + |sec|] == sec
    modifies o
    ensures SymbolsFixed(p, sec, od, cnt, o[nb..nb + |sec|])
    ensures forall x :: 0 <= x < nb || nb + |sec| <= x < o.Length ==> o[x] == old(o[x])
  {
    hide Fixed, MapsOf, SectionOf, InRecords, OfBlock, SymbolsFit;
    FixRecords(maps, img, o, nb, od, sec, cnt, p, j);
    ghost var d := RecordWords(p, sec, od, Records(|sec|, cnt));
    FixBlocks(maps, o, nb, sec, cnt, p, d);
    FixedSame(p, sec, o[nb..nb + |sec|], d + AllBlocks(sec, cnt),
              iset w | IsPointer(p, sec, od, cnt, w));
  }

  function SymbolBase(r: nat): (roff: nat)
    ensures roff == 4 * (19 + 24 * r)
  {
    SYM_BASE + r * SYM_STRIDE
  }

  /** The word at byte offset i, which is word w. */
  function WordAt(sec: seq<byte>, i: nat, ghost w: nat): (v: word)
    requires i == 4 * w && i + 4 <= |sec|
    ensures v == SymWord(sec, w)
  {
    Rd(sec, i)
  }
}
