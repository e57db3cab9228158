/** What is found in a finished file, in terms of the words and bytes of the old one. */
module XlateFile {
  import opened Words
  import opened XlateFormat
  import opened XlateLayout
  import opened XlateCode
  import opened XlateSymbols
  import opened Xlate
  import opened XlateMeaning

  // Offsets in the header group.

  /** Row i is that of the program header, which starts slot k of its own. */
  predicate HeaderAt(p: Plan, i: nat, k: nat)
  {
    i < |p.table| && p.table[i].ty == 10 && 0 < k < |p.starts| && p.table[i].doff == p.starts[k]
  }

  /** Where an offset of the old program header goes: along with the header, or to the front if there is none. */
  lemma RelocHeader(p: Plan, at: int)
    requires p.Fits() && DATA <= at < DATA + HEADER
    ensures p.Matched(at)
    ensures AtData(p.table, 10) ==> p.Reloc(at) == PH_AT + (at - DATA)
    ensures !HasType(p.table, 10) ==> p.Reloc(at) == at - DATA
    ensures forall i: nat, k: nat :: HeaderAt(p, i, k) ==> p.Reloc(at) == p.New(k) + (at - DATA)
  {
    var h := FindType(p.table, 10);
    forall i: nat, k: nat | HeaderAt(p, i, k) ensures p.Reloc(at) == p.New(k) + (at - DATA) {
      assert h == i;
      StartShape(p);
      NextStartIsEnd(p, k);
      RelocInSlot(p, k, p.starts[k]);
    }
  }

  /** Offsets behind the header, up to the end of the group, stay where they are. */
  lemma RelocBehindHeader(p: Plan, at: int)
    requires p.Fits() && DATA + HEADER <= at < DATA + HEADER + BUILD_LEN
    ensures p.Matched(at) && p.Reloc(at) == at
  {
    StartShape(p);
    assert p.InSlot(at, 0);
  }

  /** Relocation knows exactly the offsets of the group and those from the first moved section to the end. */
  lemma MatchedExactly(p: Plan, at: int)
    requires p.Fits()
    ensures |p.starts| >= 2
    ensures p.Matched(at) <==> DATA <= at < DATA + HEADER + BUILD_LEN || p.starts[1] <= at < p.len
  {
    StartShape(p);
    if p.starts[1] <= at < p.len {
      var j := SlotOf(p, at);
      RelocInSlot(p, j, at);
    } else if DATA + HEADER <= at < DATA + HEADER + BUILD_LEN {
      RelocBehindHeader(p, at);
    } else if !(DATA <= at < DATA + HEADER) {
      forall k | 0 <= k < |p.starts| ensures !p.InSlot(at, k) {
        ReachIsSpan(p, k);
        assert k > 0 ==> p.starts[1] <= p.starts[k];
        NextStartIsEnd(p, k);
      }
    }
  }

  // Pointers into the header.

  /** A file that carries its sections and the header group. */
  ghost predicate Grouped(p: Plan, img: seq<byte>, sym: word, key: seq<byte>, b: seq<byte>)
  {
    && GROUP_END <= |b| && DATA + HEADER <= |img| && |key| == BUILD_LEN
    && GroupWritten(p.table, img, sym, key, b)
  }

  lemma HeaderBytes(p: Plan, img: seq<byte>, sym: word, key: seq<byte>, b: seq<byte>)
    requires Grouped(p, img, sym, key, b) && AtData(p.table, 10)
    ensures GROUP_END <= |b| && DATA + HEADER <= |img|
    ensures Rd(b, PH_AT) == sym
    ensures forall x :: PH_AT + 4 <= x < GROUP_END ==> b[x] == img[x - (PH_AT - DATA)]
  {
    hide AtData, Rd;
  }

  /**
   * A symbol pointer into the program header leads to the same byte of it in the new file; one to its first
   * word finds the new symbol count there.
   */
  lemma PointerToHeader(p: Plan, img: seq<byte>, sym: word, key: seq<byte>, b: seq<byte>,
                        j: nat, w: nat, old_: word)
    requires Carries(p, img, sym, b) && Grouped(p, img, sym, key, b) && AtData(p.table, 10)
    requires LeadsTo(p, img, j, w, old_) && DATA <= old_ < DATA + HEADER
    ensures p.New(j) + 4 * w + 4 <= |b| && Rd(b, p.New(j) + 4 * w) < |b| && old_ < |img|
    ensures old_ == DATA ==>
      Rd(b, p.New(j) + 4 * w) + 4 <= |b| && Rd(b, Rd(b, p.New(j) + 4 * w)) == sym
    ensures old_ >= DATA + 4 ==> b[Rd(b, p.New(j) + 4 * w)] == img[old_]
  {
    hide Plan.Fits, Plan.New, Plan.Reloc, Plan.Matched, Carries, IsPointer, Rd, SymWord, AtData, Grouped, OldSection;
    CarriesFits(p, img, sym, b);
    SymbolWord(p, img, sym, b, j, w);
    RelocHeader(p, old_);
    HeaderBytes(p, img, sym, key, b);
    assert Rd(b, p.New(j) + 4 * w) == PH_AT + (old_ - DATA);
  }

  lemma CarriesFits(p: Plan, img: seq<byte>, sym: word, b: seq<byte>)
    requires Carries(p, img, sym, b)
    ensures p.Fits()
  {}

  /** What the translator writes is such a file. */
  lemma Finished(img: seq<byte>, cfg: Config, key: seq<byte>, b: seq<byte>)
    requires Translated(img, cfg, key, b)
    ensures Carries(PlanFor(img, cfg.grow), img, SymCount(img, cfg), b)
    ensures Grouped(PlanFor(img, cfg.grow), img, SymCount(img, cfg), key, b)
  {
    TranslatedCarries(img, cfg, key, b);
    hide WellFormedV2, Carries, PlanFor, GroupWritten, HeaderWritten, RowWritten, SlotTranslated, Sealed, Rd;
  }

  /** If the header has a slot of its own, the pointer leads to the byte as far into that slot. */
  lemma PointerToMovedHeader(p: Plan, img: seq<byte>, sym: word, b: seq<byte>, i: nat, k: nat,
                             j: nat, w: nat, old_: word)
    requires Carries(p, img, sym, b) && LeadsTo(p, img, j, w, old_) && DATA <= old_ < DATA + HEADER
    requires HeaderAt(p, i, k)
    ensures p.New(j) + 4 * w + 4 <= |b| && Rd(b, p.New(j) + 4 * w) < |b|
    ensures 0 <= p.starts[k] + (old_ - DATA) < |img|
    ensures b[Rd(b, p.New(j) + 4 * w)] == img[p.starts[k] + (old_ - DATA)]
  {
    hide Plan.Fits, Plan.New, Plan.Reloc, Plan.Matched, Carries, IsPointer, Rd, SymWord, Plan.Owner, OldSection;
    hide Plan.Room, Verbatim;
    CarriesFits(p, img, sym, b);
    OwnerBeside(p, i, k);
    SymbolWord(p, img, sym, b, j, w);
    RelocHeader(p, old_);
    VerbatimByte(p, img, sym, b, k, p.starts[k] + (old_ - DATA));
    RelocInSlot(p, k, p.starts[k] + (old_ - DATA));
    assert Rd(b, p.New(j) + 4 * w) == p.New(k) + (old_ - DATA);
  }

  /** A section that shares its start with the program header is copied as it is, and is long enough for it. */
  lemma OwnerBeside(p: Plan, i: nat, k: nat)
    requires p.Fits() && HeaderAt(p, i, k)
    ensures Verbatim(p, k) && HEADER <= p.Span(k)
  {
    var o := LastAt(p.table, p.starts[k]);
    assert p.table[o].doff == p.table[i].doff;
  }

  // The section table.

  /** The size that the new table gives. */
  function SizeFor(ty: word, psz: word, grow: bool): word
  {
    if ty == 5 && psz == 16 then 20
    else if ty == 2 then 20
    else if ty == 1 && grow then Add32(psz, 56)
    else psz
  }

  /** The place that it gives: that of the relocated start, but for a build key in front. */
  function PlaceFor(p: Plan, ty: word, doff: word): int
  {
    if ty == 2 && doff == 0x1f0 then 0x1f0 else p.Reloc(doff)
  }

  /** Each of the thirteen rows, 32 bytes at 0x50 + 0x20 * i, in words of the old file. */
  lemma RowSays(img: seq<byte>, cfg: Config, key: seq<byte>, b: seq<byte>, i: nat)
    requires Translated(img, cfg, key, b) && i < 13
    ensures 0x1f0 <= |img| && 0x1f0 <= |b|
    ensures var o := 0x50 + 0x20 * i;
      && Rd(b, o) == Add32(Rd(img, o), 1)
      && Rd(b, o + 4) == PlaceFor(PlanFor(img, cfg.grow), Rd(img, o), Rd(img, o + 4))
      && Rd(b, o + 8) == SizeFor(Rd(img, o), Rd(img, o + 8), cfg.grow)
      && Rd(b, o + 12) == Rd(img, o + 12) && Rd(b, o + 16) == Rd(img, o + 16)
      && Rd(b, o + 20) == 0 && Rd(b, o + 24) == 0 && Rd(b, o + 28) == 0
  {
    hide Rd, Sealed, HeaderWritten, GroupWritten, SlotTranslated, Plan.Reloc, Plan.Fits, SectionFits, Add32;
    var p := PlanFor(img, cfg.grow);
    assert RowWritten(NewRow(p, p.table[i]), b, i);
    assert p.table[i] == EntryAt(img, i);
  }

  /** The header of the new file, and that it is not translated a second time. */
  lemma HeaderSays(img: seq<byte>, cfg: Config, key: seq<byte>, b: seq<byte>)
    requires Translated(img, cfg, key, b)
    ensures 0x1f0 <= |img| && 0x1f0 <= |b| < WORD
    ensures Rd(b, 0) == 0xb10bcace && Rd(b, 4) == 0x0001_0007 && Rd(b, 8) == 13 && Rd(b, 0x0c) == 0x50
    ensures Rd(b, 0x10) == Rd(img, 0x10) && Rd(b, 0x14) == 0x301
    ensures Rd(b, 0x18) == |b| && Rd(b, 0x1c) == |b|
    ensures Rd(b, 0x20) == Add32(Rd(img, 0x20), cfg.symDelta) && Rd(b, 0x2c) == cfg.driverKey
    ensures HeaderCheck(b) == -3
  {
    hide Rd, Sealed, RowWritten, GroupWritten, SlotTranslated, Plan.Reloc, Plan.Fits, SectionFits, Add32, Plan.New;
  }

  /** The bytes that the section in slot j needs: a pair of words more for some of type 5, 56 for grown code. */
  function Needed(p: Plan, j: nat): int
    requires j < |p.starts|
  {
    if p.Owner(j).ty == 5 && p.Owner(j).psz == 16 then 20
    else if p.Owner(j).ty == 1 && p.grow then p.Span(j) + 56
    else p.Span(j)
  }

  /** Slots are as large as that and no larger, in whole words; a size that fitted fits again. */
  lemma SlotSizes(p: Plan, j: nat)
    requires p.Fits() && 0 < j < |p.starts|
    ensures p.New(j) + Needed(p, j) <= p.New(j + 1) < p.New(j) + Needed(p, j) + 4
    ensures p.Owner(j).psz <= p.Span(j) ==>
      p.New(j) + SizeFor(p.Owner(j).ty, p.Owner(j).psz, p.grow) <= p.New(j + 1)
  {
    NextStartIsEnd(p, j);
    RoomBounds(p, j);
    SlotStep(p, j);
    if p.Owner(j).ty == 2 {
      var i := LastAt(p.table, p.starts[j]);
      var k := EntryOf(p, j);
      assert p.table[i].ty == 2 && p.table[i].doff == p.starts[j];
    }
  }

  /** A build key section in front holds the key that was looked up, whatever the old file held. */
  lemma KeySays(p: Plan, img: seq<byte>, sym: word, key: seq<byte>, b: seq<byte>)
    requires Grouped(p, img, sym, key, b) && AtData(p.table, 2)
    ensures b[0x1f0..0x204] == key
  {
    hide AtData, Rd;
  }

  // The words that are rewritten.

  /** Field f of record r of the symbol section, at byte 0x4c + 96 * r + 4 * f, is relocated. */
  lemma SymbolField(p: Plan, img: seq<byte>, sym: word, b: seq<byte>, j: nat, r: nat, f: nat)
    requires Carries(p, img, sym, b) && 0 < j < |p.starts| && p.Owner(j).ty == 3
    requires r < p.Owner(j).count && f < 6 && 0x4c + 96 * r + 96 <= |OldSection(p, img, j)|
    ensures var at := 0x4c + 96 * r + 4 * f;
      && p.New(j) + at + 4 <= |b| && 0 <= p.starts[j] && p.starts[j] + at + 4 <= |img|
      && Rd(b, p.New(j) + at) == p.Reloc(Rd(img, p.starts[j] + at))
  {
    hide Plan.Fits, Plan.New, Plan.Reloc, Plan.Matched, Plan.Owner, OldSection, Carries, Rd;
    FieldIsPointer(p, OldSection(p, img, j), p.starts[j], p.Owner(j).count, r, f);
    SymbolSource(p, img, sym, b, j, 19 + 24 * r + f);
  }

  lemma FieldIsPointer(p: Plan, sec: seq<byte>, od: int, cnt: nat, r: nat, f: nat)
    requires r < cnt && f < 6 && 0x4c + 96 * r + 96 <= |sec|
    ensures IsPointer(p, sec, od, cnt, 19 + 24 * r + f)
  {
    RecordIn(|sec|, cnt, r);
    hide Records;
    assert OfRecord(p, sec, od, r, 19 + 24 * r + f);
  }

  lemma RecordIn(n: nat, cnt: nat, r: nat)
    requires r < cnt && 0x4c + 96 * r + 96 <= n
    ensures r < Records(n, cnt) && 0x4c + 96 * Records(n, cnt) <= n
  {
    assert (n - 0x4c) / 96 >= r + 1;
  }

  /** Word w of the symbol section where it is read in the old file. */
  lemma SymbolSource(p: Plan, img: seq<byte>, sym: word, b: seq<byte>, j: nat, w: nat)
    requires Carries(p, img, sym, b) && 0 < j < |p.starts| && p.Owner(j).ty == 3 && 4 * w + 4 <= |OldSection(p, img, j)|
    requires IsPointer(p, OldSection(p, img, j), p.starts[j], p.Owner(j).count, w)
    ensures p.New(j) + 4 * w + 4 <= |b| && 0 <= p.starts[j] && p.starts[j] + 4 * w + 4 <= |img|
    ensures Rd(b, p.New(j) + 4 * w) == p.Reloc(Rd(img, p.starts[j] + 4 * w))
  {
    hide Plan.Fits, Plan.New, Plan.Reloc, Carries, IsPointer, Rd;
    SlotAt(p, img, sym, b, j);
    SymbolWord(p, img, sym, b, j, w);
    WordInSlice(img, p.starts[j], p.End(j), 4 * w);
  }

  /** A live aux pair lies in the section, and its words are pointers. */
  lemma AuxIsPointer(p: Plan, sec: seq<byte>, od: int, cnt: nat, r: nat, h: nat)
    requires SymbolsFit(p, sec, od, cnt) && r < cnt && h < 2 && 0x4c + 96 * r + 96 <= |sec| && AuxLive(p, sec, r)
    ensures od <= Aux(sec, r) && Aux(sec, r) + 8 <= od + |sec| && (Aux(sec, r) - od) % 4 == 0
    ensures IsPointer(p, sec, od, cnt, (Aux(sec, r) - od) / 4 + h)
  {
    RecordIn(|sec|, cnt, r);
    hide Records, Rd, Plan.Matched, AuxLive;
    assert AuxInside(sec, od, r);
    var w := (Aux(sec, r) - od) / 4 + h;
    assert 4 * w == Aux(sec, r) - od + 4 * h;
    assert AuxWord(p, sec, od, r, w);
    assert OfRecord(p, sec, od, r, w);
  }

  /** What SlotAt says of a symbol section. */
  lemma SymbolsAt(p: Plan, img: seq<byte>, sym: word, b: seq<byte>, j: nat)
    requires Carries(p, img, sym, b) && 0 < j < |p.starts| && p.Owner(j).ty == 3
    ensures p.Fits() && p.len == |img| && p.New(j) + |OldSection(p, img, j)| <= |b|
    ensures SymbolsFit(p, OldSection(p, img, j), p.starts[j], p.Owner(j).count)
    ensures 0 <= p.starts[j] < p.End(j) <= |img| && OldSection(p, img, j) == img[p.starts[j]..p.End(j)]
  {
    hide Plan.Fits, Plan.New, Carries, SymbolsFit, Contents, Plan.Owner;
    SlotAt(p, img, sym, b, j);
  }

  /** Both words of the pair that a record's fourth field leads to are relocated. */
  lemma AuxPair(p: Plan, img: seq<byte>, sym: word, b: seq<byte>, j: nat, r: nat, h: nat)
    requires Carries(p, img, sym, b) && 0 < j < |p.starts| && p.Owner(j).ty == 3 && h < 2
    requires r < p.Owner(j).count && 0x4c + 96 * r + 96 <= |OldSection(p, img, j)|
    requires 0 <= p.starts[j] && p.starts[j] + 0x4c + 96 * r + 16 <= |img|
    requires var aux := Rd(img, p.starts[j] + 0x4c + 96 * r + 12);
      aux != 0 && p.Matched(aux) && Add32(aux, 8) <= |img|
    ensures var aux := Rd(img, p.starts[j] + 0x4c + 96 * r + 12);
      && 0 <= p.Reloc(aux) && p.Reloc(aux) + 8 <= |b| && aux + 8 <= |img|
      && Rd(b, p.Reloc(aux) + 4 * h) == p.Reloc(Rd(img, aux + 4 * h))
  {
    hide Plan.Fits, Plan.New, Plan.Reloc, Plan.Matched, Plan.Owner, OldSection, Carries, Rd, SymbolsFit, IsPointer;
    SymbolsAt(p, img, sym, b, j);
    var sec := OldSection(p, img, j);
    WordInSlice(img, p.starts[j], p.End(j), 4 * (22 + 24 * r));
    assert AuxLive(p, sec, r);
    AuxIsPointer(p, sec, p.starts[j], p.Owner(j).count, r, h);
    var aux := Aux(sec, r);
    SymbolSource(p, img, sym, b, j, (aux - p.starts[j]) / 4 + h);
    RelocInSlot(p, j, aux);
  }

  /** Behind the records every 32 bytes whose third word is all ones begin with a pointer, and no others. */
  lemma BlockHead(p: Plan, img: seq<byte>, sym: word, b: seq<byte>, j: nat, q: nat)
    requires Carries(p, img, sym, b) && 0 < j < |p.starts| && p.Owner(j).ty == 3
    requires 0x4c + 96 * p.Owner(j).count + 32 * q + 32 <= |OldSection(p, img, j)|
    requires var a := p.starts[j] + 0x4c + 96 * p.Owner(j).count + 32 * q;
      0 <= a && a + 12 <= |img| && Rd(img, a + 8) == 0xffff_ffff
    ensures var at := 0x4c + 96 * p.Owner(j).count + 32 * q;
      p.New(j) + at + 4 <= |b| && Rd(b, p.New(j) + at) == p.Reloc(Rd(img, p.starts[j] + at))
  {
    hide Plan.Fits, Plan.New, Plan.Reloc, Plan.Matched, Plan.Owner, OldSection, Carries, Rd, SymbolsFit, InRecords;
    SymbolsAt(p, img, sym, b, j);
    var sec, cnt := OldSection(p, img, j), p.Owner(j).count;
    var w := 19 + 24 * cnt + 8 * q;
    WordInSlice(img, p.starts[j], p.End(j), 4 * (w + 2));
    assert OfBlock(sec, cnt, w);
    SymbolSource(p, img, sym, b, j, w);
  }

  /** The first word of the pointer section is relocated. */
  lemma PointerHead(p: Plan, img: seq<byte>, sym: word, b: seq<byte>, j: nat)
    requires Carries(p, img, sym, b) && 0 < j < |p.starts| && p.Owner(j).ty == 9
    ensures p.New(j) + 4 <= |b| && 0 <= p.starts[j] && p.starts[j] + 4 <= |img|
    ensures Rd(b, p.New(j)) == p.Reloc(Rd(img, p.starts[j]))
  {
    hide Plan.Fits, Plan.New, Plan.Reloc, Plan.Matched, Carries, Rd;
    SlotAt(p, img, sym, b, j);
    WordInSlice(img, p.starts[j], p.End(j), 0);
    WordInSlice(b, p.New(j), p.New(j) + Size(p, j), 0);
  }

  /** The code section begins with the new symbol count, grown or not. */
  lemma CodeHead(p: Plan, img: seq<byte>, sym: word, b: seq<byte>, j: nat)
    requires Carries(p, img, sym, b) && 0 < j < |p.starts| && p.Owner(j).ty == 1
    ensures p.New(j) + 4 <= |b| && Rd(b, p.New(j)) == sym
  {
    SlotAt(p, img, sym, b, j);
    hide Plan.Fits, Plan.New, Plan.Reloc, Carries, Rd;
    WordInSlice(b, p.New(j), p.New(j) + Size(p, j), 0);
  }

  /** The 56 bytes in front of the first object are zero, unless types are appended there. */
  lemma GapIsZero(p: Plan, img: seq<byte>, sym: word, b: seq<byte>, j: nat, i: nat)
    requires Carries(p, img, sym, b) && p.grow && 0 < j < |p.starts| && p.Owner(j).ty == 1
    requires var sec := OldSection(p, img, j);
      CodeFits(sec, true) && ObjectsAt(sec).first <= i < ObjectsAt(sec).first + 56 && !Rewritten(sec, i)
    ensures p.New(j) + i < |b| && b[p.New(j) + i] == 0
  {
    hide Plan.Fits, Plan.New, Plan.Reloc, Plan.Owner, OldSection, Carries, Rd, Rewritten, SectionFits, ObjectsAt;
    GrownSlot(p, img, sym, b, j);
    SizeOfGrown(p, img, sym, b, j);
    var sec := OldSection(p, img, j);
    var now := b[p.New(j)..p.New(j) + Size(p, j)];
    assert now[i] == Inserted(sec, ObjectsAt(sec).first, i);
  }

  lemma SizeOfGrown(p: Plan, img: seq<byte>, sym: word, b: seq<byte>, j: nat)
    requires Carries(p, img, sym, b) && p.grow && 0 < j < |p.starts| && p.Owner(j).ty == 1
    ensures Size(p, j) == |OldSection(p, img, j)| + 56 && CodeFits(OldSection(p, img, j), true)
    ensures ObjectsAt(OldSection(p, img, j)).first <= |OldSection(p, img, j)|
  {
    hide Plan.Fits, Plan.New, Carries, Rd;
    SlotAt(p, img, sym, b, j);
    GrownSlot(p, img, sym, b, j);
  }
}
