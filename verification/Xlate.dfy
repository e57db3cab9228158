/** Translating a v2 program binary into a v7 one. */
module Xlate {
  import opened Words
  import opened Seal
  import opened XlateFormat
  import opened XlateLayout
  import opened XlateTable
  import opened XlateCode
  import opened XlateSymbols

  /** The settings that the original keeps in globals. */
  datatype Config = Config(grow: bool, symDelta: word, driverKey: word)

  /** The header checks, in their order; 0 means that the file is a v2 program binary. */
  function HeaderCheck(img: seq<byte>): int
  {
    if |img| < DATA then -1
    else if Rd(img, 0x00) != MAGIC then -2
    else if Rd(img, 0x04) != VER_V2 then -3
    else if Rd(img, 0x08) != SECCNT then -4
    else if Rd(img, 0x0c) != TABOFF then -5
    else 0
  }

  function PlanFor(img: seq<byte>, grow: bool): Plan
    requires DATA <= |img|
  {
    PlanOf(Table(img), |img|, grow)
  }

  function SymCount(img: seq<byte>, cfg: Config): word
    requires DATA <= |img|
  {
    Add32(Rd(img, 0x20), cfg.symDelta)
  }

  /** The old bytes of slot j. */
  function OldSection(p: Plan, img: seq<byte>, j: nat): seq<byte>
    requires j < |p.starts|
  {
    if 0 <= p.starts[j] <= p.End(j) <= |img| then img[p.starts[j]..p.End(j)] else []
  }

  /** The demands on a section's contents, by the type of the slot's owner. */
  ghost predicate SectionFits(p: Plan, img: seq<byte>, j: nat)
    requires j < |p.starts|
  {
    var sec, e := OldSection(p, img, j), p.Owner(j);
    match e.ty
    case 1 => CodeFits(sec, p.grow) && (p.grow ==> WindowFits(sec, p.New(|p.starts|) - p.New(j)))
    case 3 => SymbolsFit(p, sec, p.starts[j], e.count)
    case 9 => |sec| >= 4
    case _ => true
  }

  /** A v2 program binary that the translator can take apart. */
  ghost predicate WellFormedV2(img: seq<byte>, grow: bool)
  {
    && HeaderCheck(img) == 0
    && PlanFor(img, grow).Fits()
    && forall j :: 0 < j < |PlanFor(img, grow).starts| ==> SectionFits(PlanFor(img, grow), img, j)
  }

  /** Bytes of slot j that translation writes; the padding up to the next slot stays zero. */
  function Size(p: Plan, j: nat): int
    requires j < |p.starts|
  {
    if p.Owner(j).ty == 1 && p.grow then p.Span(j) + CODE_GROW else p.Span(j)
  }

  function SlotBytes(p: Plan, b: seq<byte>, j: nat): seq<byte>
    requires j < |p.starts|
  {
    if p.New(j) <= p.New(j + 1) <= |b| then b[p.New(j)..p.New(j + 1)] else []
  }

  /** The translated contents of slot j, without padding. */
  ghost predicate Contents(p: Plan, img: seq<byte>, sym: word, j: nat, now: seq<byte>)
    requires 0 < j < |p.starts| && SectionFits(p, img, j)
  {
    var sec, e := OldSection(p, img, j), p.Owner(j);
    match e.ty
    case 1 => if p.grow then CodeGrown(sec, sym, now) else HeadReplaced(sec, sym, now)
    case 3 => SymbolsFixed(p, sec, p.starts[j], e.count, now)
    case 9 => HeadReplaced(sec, p.Reloc(Rd(sec, 0)), now)
    case _ => now == sec
  }

  /** Everything that the new slot j holds: its contents, then zeros up to the next slot. */
  ghost predicate SlotTranslated(p: Plan, img: seq<byte>, sym: word, j: nat, now: seq<byte>)
    requires 0 < j < |p.starts|
  {
    && SectionFits(p, img, j)
    && 0 <= Size(p, j) <= |now|
    && Contents(p, img, sym, j, now[..Size(p, j)])
    && (forall i :: Size(p, j) <= i < |now| ==> now[i] == 0)
  }

  /** The first word is v and the rest of the section is copied. */
  ghost predicate HeadReplaced(sec: seq<byte>, v: int, now: seq<byte>)
  {
    && 4 <= |sec| == |now|
    && Rd(now, 0) == v
    && now[4..] == sec[4..]
  }

  /** memcpy of a section to its new place. */
  method CopySection(o: array<byte>, nb: nat, sec: seq<byte>)
    requires nb + |sec| <= o.Length
    modifies o
    ensures o[nb..nb + |sec|] == sec
    ensures forall x :: 0 <= x < nb || nb + |sec| <= x < o.Length ==> o[x] == old(o[x])
  {
    forall x | nb <= x < nb + |sec| { o[x] := sec[x - nb]; }
  }

  /** Replaces the first word of a copied section. */
  method ReplaceHead(o: array<byte>, nb: nat, sec: seq<byte>, v: word)
    requires 4 <= |sec| && nb + |sec| <= o.Length && o[nb..nb + |sec|] == sec
    modifies o
    ensures HeadReplaced(sec, v, o[nb..nb + |sec|])
    ensures forall x :: 0 <= x < nb || nb + |sec| <= x < o.Length ==> o[x] == old(o[x])
  {
    ghost var hi := nb + |sec|;
    assert forall x :: nb <= x < hi ==> o[x] == o[nb..hi][x - nb];
    hide Rd;
    Wr(o, nb, v);
    assert o[..][nb..hi] == o[nb..hi];
    WordInSlice(o[..], nb, hi, 0);
    assert o[nb..hi][4..] == sec[4..];
  }

  /** The code section: symbol count in front, 56 bytes inserted, object table rewritten. */
  method GrowCode(o: array<byte>, nb: nat, sec: seq<byte>, sym: word)
    requires CodeFits(sec, true) && |sec| < 0x8000_0000 && nb + |sec| + CODE_GROW <= o.Length
    requires WindowFits(sec, o.Length - nb) && o[nb..nb + |sec|] == sec
    modifies o
    ensures CodeGrown(sec, sym, o[nb..nb + |sec| + CODE_GROW])
    ensures forall x :: 0 <= x < nb || nb + |sec| + CODE_GROW <= x < o.Length ==> o[x] == old(o[x])
  {
    ghost var hi := nb + |sec|;
    assert forall x :: nb <= x < hi ==> o[x] == o[nb..hi][x - nb];
    hide Rd, CodeGrown;
    Wr(o, nb, sym);
    var first := ObjectsAt(sec).first;
    ghost var b := o[..];
    OpenGap(o, nb, sec, first);
    SameWord(b, nb, o[..], nb);
    RewriteTable(o, nb, sec);
  }

  lemma SpanIsLength(p: Plan, img: seq<byte>, j: nat)
    requires p.Fits() && |img| == p.len && 0 < j < |p.starts|
    ensures |OldSection(p, img, j)| == p.Span(j) && 0 < p.Span(j) < 0x8000_0000
    ensures 0 <= p.starts[j] < p.End(j) <= |img| && OldSection(p, img, j) == img[p.starts[j]..p.End(j)]
    ensures SectionOf(p, img, j, OldSection(p, img, j))
    ensures p.New(j) + Size(p, j) <= p.New(j + 1)
    ensures p.Span(j) <= Size(p, j)
  {
    StartShape(p);
    NextStartIsEnd(p, j);
    RoomBounds(p, j);
    SlotStep(p, j);
  }

  /** The new place that the table gives to the owner of slot j. */
  lemma OwnerPlaced(p: Plan, m: Maps, j: nat, owner: nat)
    requires MapsOf(p, m) && 0 < j < |p.starts| && owner < |m.s| && owner == LastAt(p.table, p.starts[j])
    ensures m.s[owner].newDoff == p.New(j) && m.s[owner].e == p.Owner(j)
  {
    assert m.s[owner].e == p.table[owner];
  }

  /** Copies one section and rewrites it according to its type. */
  method WriteSection(maps: Maps, img: seq<byte>, o: array<byte>, sym: word, grow: bool, od: nat,
                      ghost p: Plan, ghost j: nat)
    requires MapsOf(p, maps) && p.grow == grow && |img| == p.len
    requires 0 < j < |p.starts| && od == p.starts[j] && SectionFits(p, img, j)
    requires p.New(j + 1) <= o.Length == p.New(|p.starts|)
    requires 0 <= Size(p, j) && p.New(j) + Size(p, j) <= p.New(j + 1)
    requires forall x :: p.New(j) + Size(p, j) <= x < p.New(j + 1) ==> o[x] == 0
    modifies o
    ensures SlotTranslated(p, img, sym, j, SlotBytes(p, o[..], j))
    ensures forall x :: 0 <= x < p.New(j) || p.New(j) + Size(p, j) <= x < o.Length ==> o[x] == old(o[x])
  {
    hide MapsOf, SectionFits, SectionOf, Contents, Spanned, SlotTranslated, SlotBytes, OldSection, Size;
    hide Plan.New, Plan.Fits, Plan.Owner;
    MapsFit(p, maps);
    var owner, orl := FindOwner(maps.s, od, p, j);
    OwnerPlaced(p, maps, j, owner);
    SpanIsLength(p, img, j);
    var sec := img[od..od + orl];
    assert sec == OldSection(p, img, j);
    WriteContents(maps, img, o, sym, grow, od, sec, maps.s[owner].newDoff, maps.s[owner].e, p, j);
    SlotDone(p, img, sym, j, o[..]);
  }

  lemma MapsFit(p: Plan, m: Maps)
    requires MapsOf(p, m)
    ensures p.Fits() && Spanned(m.s, p.table, p.len)
  {}

  /** The original's branches on the type of the owner e. */
  method WriteContents(maps: Maps, img: seq<byte>, o: array<byte>, sym: word, grow: bool, od: nat,
                       sec: seq<byte>, nb: nat, e: Entry, ghost p: Plan, ghost j: nat)
    requires MapsOf(p, maps) && p.Fits() && p.grow == grow && |img| == p.len
    requires 0 < j < |p.starts| && od == p.starts[j] && SectionFits(p, img, j)
    requires sec == OldSection(p, img, j) && SectionOf(p, img, j, sec) && |sec| < 0x8000_0000
    requires nb == p.New(j) && e == p.Owner(j) && |sec| == p.Span(j)
    requires nb + Size(p, j) <= o.Length == p.New(|p.starts|)
    modifies o
    ensures Contents(p, img, sym, j, o[nb..nb + Size(p, j)])
    ensures forall x :: 0 <= x < nb || nb + Size(p, j) <= x < o.Length ==> o[x] == old(o[x])
  {
    hide MapsOf, SectionOf, CodeFits, CodeGrown, SymbolsFit, SymbolsFixed, HeadReplaced, Rd;
    TypeNeeds(p, img, j, sec, e);
    CopySection(o, nb, sec);
    if e.ty == 1 {
      if grow { GrowCode(o, nb, sec, sym); } else { ReplaceHead(o, nb, sec, sym); }
    } else if e.ty == 3 {
      FixSymbols(maps, img, o, nb, od, sec, e.count, p, j);
    } else if e.ty == 9 {
      var nv, matched := Relocate(maps, Rd(sec, 0), p);
      ReplaceHead(o, nb, sec, nv);
    }
  }

  lemma TypeNeeds(p: Plan, img: seq<byte>, j: nat, sec: seq<byte>, e: Entry)
    requires 0 < j < |p.starts| && SectionFits(p, img, j) && e == p.Owner(j) && sec == OldSection(p, img, j)
    ensures e.ty == 1 ==>
      CodeFits(sec, p.grow) && |sec| >= 4 && (p.grow ==> WindowFits(sec, p.New(|p.starts|) - p.New(j)))
    ensures e.ty == 3 ==> SymbolsFit(p, sec, p.starts[j], e.count)
    ensures e.ty == 9 ==> |sec| >= 4
  {}

  lemma SlotDone(p: Plan, img: seq<byte>, sym: word, j: nat, b: seq<byte>)
    requires p.Fits() && |img| == p.len && 0 < j < |p.starts| && SectionFits(p, img, j) && p.New(j + 1) <= |b|
    requires 0 <= Size(p, j) && p.New(j) + Size(p, j) <= p.New(j + 1)
    requires Contents(p, img, sym, j, b[p.New(j)..p.New(j) + Size(p, j)])
    requires forall x :: p.New(j) + Size(p, j) <= x < p.New(j + 1) ==> b[x] == 0
    ensures SlotTranslated(p, img, sym, j, SlotBytes(p, b, j))
  {
    hide Plan.New, Plan.Fits, Size, SectionFits, Contents, OldSection;
    var now := SlotBytes(p, b, j);
    assert now == b[p.New(j)..p.New(j + 1)];
    assert now[..Size(p, j)] == b[p.New(j)..p.New(j) + Size(p, j)];
  }

  /** Entry i is the build key's or the program header's, and has slot j beyond the header group. */
  predicate InOwnSlot(p: Plan, i: nat, j: nat)
  {
    i < |p.table| && 0 < j < |p.starts| && p.table[i].doff == p.starts[j] && (p.table[i].ty == 2 || p.table[i].ty == 10)
  }

  /** Bytes of such a slot, where key or header stand until the section is copied over them. */
  ghost predicate Scratch(p: Plan, x: int)
  {
    exists i, j :: InOwnSlot(p, i, j) && p.New(j) <= x < p.New(j) + p.Span(j)
  }

  /** The padding of a slot is nobody's scratch. */
  lemma PaddingClear(p: Plan, d: nat, x: int)
    requires p.Fits() && 0 < d < |p.starts| && p.New(d) + Size(p, d) <= x < p.New(d + 1)
    ensures !Scratch(p, x)
  {
    forall i: nat, j: nat | InOwnSlot(p, i, j) ensures !(p.New(j) <= x < p.New(j) + p.Span(j)) {
      RoomBounds(p, j);
      RoomBounds(p, d);
      if j < d { SlotsDisjoint(p, j, d); } else if d < j { Before(p, d + 1, j); }
    }
  }

  /** Slots 1 to d - 1 are written and everything behind them is still zero, but for scratch. */
  ghost predicate WrittenUpTo(p: Plan, img: seq<byte>, sym: word, d: nat, b: seq<byte>)
  {
    && 0 < d <= |p.starts| && p.New(d) <= |b|
    && (forall j :: 0 < j < d ==> SlotTranslated(p, img, sym, j, SlotBytes(p, b, j)))
    && (forall x :: p.New(d) <= x < |b| ==> b[x] == 0 || Scratch(p, x))
  }

  lemma WriteNext(p: Plan, img: seq<byte>, sym: word, d: nat, was: seq<byte>, now: seq<byte>)
    requires p.Fits() && WrittenUpTo(p, img, sym, d, was) && d < |p.starts|
    requires |now| == |was| == p.New(|p.starts|)
    requires SlotTranslated(p, img, sym, d, SlotBytes(p, now, d))
    requires 0 <= Size(p, d) && p.New(d) + Size(p, d) <= p.New(d + 1)
    requires forall x :: 0 <= x < p.New(d) || p.New(d) + Size(p, d) <= x < |now| ==> now[x] == was[x]
    ensures WrittenUpTo(p, img, sym, d + 1, now)
  {
    hide SlotTranslated, Size, SlotBytes, Plan.New, Scratch;
    Below(p, d + 1);
    forall j | 0 < j < d ensures SlotBytes(p, now, j) == SlotBytes(p, was, j) {
      SlotKept(p, was, now, j, d);
    }
  }

  lemma SlotKept(p: Plan, was: seq<byte>, now: seq<byte>, j: nat, d: nat)
    requires p.Fits() && 0 < j < d < |p.starts| && |now| == |was|
    requires forall x :: 0 <= x < p.New(d) && x < |was| ==> now[x] == was[x]
    ensures SlotBytes(p, now, j) == SlotBytes(p, was, j)
  {
    hide Plan.New;
    Before(p, j + 1, d);
  }

  lemma Below(p: Plan, j: nat)
    requires p.Fits() && j <= |p.starts|
    ensures p.New(j) <= p.New(|p.starts|)
  {
    if j < |p.starts| { SlotsDisjoint(p, j, |p.starts|); }
  }

  lemma Before(p: Plan, i: nat, j: nat)
    requires p.Fits() && i <= j <= |p.starts|
    ensures p.New(i) <= p.New(j)
  {
    if i < j { SlotsDisjoint(p, i, j); }
  }

  method WriteSections(maps: Maps, img: seq<byte>, o: array<byte>, sym: word, grow: bool, doffs: seq<int>,
                       ghost p: Plan)
    requires MapsOf(p, maps) && p.Fits() && p.grow == grow && |img| == p.len && doffs == p.starts
    requires forall j :: 0 < j < |p.starts| ==> SectionFits(p, img, j)
    requires o.Length == p.New(|p.starts|)
    requires WrittenUpTo(p, img, sym, 1, o[..])
    modifies o
    ensures WrittenUpTo(p, img, sym, |p.starts|, o[..])
    ensures forall x :: 0 <= x < p.New(1) && x < o.Length ==> o[x] == old(o[x])
  {
    hide MapsOf, SectionFits, WrittenUpTo, Plan.New;
    var d := 0;
    while d < |doffs|
      invariant 0 <= d <= |doffs|
      invariant WrittenUpTo(p, img, sym, if d == 0 then 1 else d, o[..])
      invariant forall x :: 0 <= x < p.New(1) && x < o.Length ==> o[x] == old(o[x])
    {
      OnlyFirstAtData(p, d);
      if doffs[d] != DATA { WriteNextSection(maps, img, o, sym, grow, doffs[d], p, d); }
      d := d + 1;
    }
    OnlyFirstAtData(p, 0);
  }

  lemma OnlyFirstAtData(p: Plan, d: nat)
    requires p.Fits()
    ensures |p.starts| > 1
    ensures d < |p.starts| ==> (p.starts[d] == DATA <==> d == 0) && p.starts[d] >= 0
  {
    StartShape(p);
  }

  method WriteNextSection(maps: Maps, img: seq<byte>, o: array<byte>, sym: word, grow: bool, od: nat,
                          ghost p: Plan, ghost d: nat)
    requires MapsOf(p, maps) && p.Fits() && p.grow == grow && |img| == p.len
    requires 0 < d < |p.starts| && od == p.starts[d] && SectionFits(p, img, d)
    requires o.Length == p.New(|p.starts|)
    requires WrittenUpTo(p, img, sym, d, o[..])
    modifies o
    ensures WrittenUpTo(p, img, sym, d + 1, o[..])
    ensures forall x :: 0 <= x < p.New(1) && x < o.Length ==> o[x] == old(o[x])
  {
    hide MapsOf, SectionFits, WrittenUpTo, SlotTranslated, Size, Plan.New, Scratch;
    ghost var was := o[..];
    Below(p, d + 1);
    Before(p, 1, d);
    SpanIsLength(p, img, d);
    RestIsZero(p, img, sym, d, was);
    WriteSection(maps, img, o, sym, grow, od, p, d);
    WriteNext(p, img, sym, d, was, o[..]);
  }

  lemma RestIsZero(p: Plan, img: seq<byte>, sym: word, d: nat, b: seq<byte>)
    requires p.Fits() && 0 < d < |p.starts| && WrittenUpTo(p, img, sym, d, b) && p.New(d + 1) <= |b|
    requires p.New(d) + Size(p, d) <= p.New(d + 1) && 0 <= Size(p, d)
    ensures forall x :: p.New(d) + Size(p, d) <= x < p.New(d + 1) ==> b[x] == 0
  {
    hide Size, Scratch, SlotTranslated;
    forall x | p.New(d) + Size(p, d) <= x < p.New(d + 1) ensures b[x] == 0 { PaddingClear(p, d, x); }
  }

  /** The file header but for the driver key and the seal. */
  ghost predicate HeaderWritten(img: seq<byte>, sym: word, total: int, b: seq<byte>)
    requires TABOFF <= |b| && DATA <= |img|
  {
    && Rd(b, 0x00) == MAGIC && Rd(b, 0x04) == VER_V7 && Rd(b, 0x08) == SECCNT && Rd(b, 0x0c) == TABOFF
    && Rd(b, 0x10) == Rd(img, 0x10) && Rd(b, 0x14) == H14_V7
    && Rd(b, 0x18) == total && Rd(b, 0x1c) == total && Rd(b, 0x20) == sym
    && (forall i :: 0x28 <= i < 0x2c || 0x30 <= i < TABOFF ==> b[i] == 0)
  }

  method WriteHeader(o: array<byte>, img: seq<byte>, sym: word, total: word)
    requires DATA <= o.Length && DATA <= |img|
    requires forall x :: 0 <= x < TABOFF ==> o[x] == 0
    modifies o
    ensures HeaderWritten(img, sym, total, o[..])
    ensures forall x :: TABOFF <= x < o.Length ==> o[x] == old(o[x])
  {
    WriteHeaderFront(o, img);
    ghost var was := o[..];
    WriteHeaderBack(o, sym, total);
    SameWord(was, 0x00, o[..], 0x00);
    SameWord(was, 0x04, o[..], 0x04);
    SameWord(was, 0x08, o[..], 0x08);
    SameWord(was, 0x0c, o[..], 0x0c);
    SameWord(was, 0x10, o[..], 0x10);
  }

  method WriteHeaderFront(o: array<byte>, img: seq<byte>)
    requires DATA <= o.Length && DATA <= |img|
    modifies o
    ensures Rd(o[..], 0x00) == MAGIC && Rd(o[..], 0x04) == VER_V7 && Rd(o[..], 0x08) == SECCNT
    ensures Rd(o[..], 0x0c) == TABOFF && Rd(o[..], 0x10) == Rd(img, 0x10)
    ensures forall x :: 0x14 <= x < o.Length ==> o[x] == old(o[x])
  {
    Wr(o, 0x00, MAGIC);
    Wr(o, 0x04, VER_V7);
    Wr(o, 0x08, SECCNT);
    Wr(o, 0x0c, TABOFF);
    Wr(o, 0x10, Rd(img, 0x10));
  }

  method WriteHeaderBack(o: array<byte>, sym: word, total: word)
    requires DATA <= o.Length
    modifies o
    ensures Rd(o[..], 0x14) == H14_V7 && Rd(o[..], 0x18) == total && Rd(o[..], 0x1c) == total
    ensures Rd(o[..], 0x20) == sym
    ensures forall x :: 0 <= x < 0x14 || 0x24 <= x < o.Length ==> o[x] == old(o[x])
  {
    Wr(o, 0x14, H14_V7);
    Wr(o, 0x18, total);
    Wr(o, 0x1c, total);
    Wr(o, 0x20, sym);
  }

  lemma HeaderKept(img: seq<byte>, sym: word, total: int, was: seq<byte>, now: seq<byte>)
    requires TABOFF <= |was| == |now| && DATA <= |img| && HeaderWritten(img, sym, total, was)
    requires forall x :: 0 <= x < 0x24 || 0x28 <= x < 0x2c || 0x30 <= x < TABOFF ==> now[x] == was[x]
    ensures HeaderWritten(img, sym, total, now)
  {
    SameWord(was, 0x00, now, 0x00);
    SameWord(was, 0x04, now, 0x04);
    SameWord(was, 0x08, now, 0x08);
    SameWord(was, 0x0c, now, 0x0c);
    SameWord(was, 0x10, now, 0x10);
    SameWord(was, 0x14, now, 0x14);
    SameWord(was, 0x18, now, 0x18);
    SameWord(was, 0x1c, now, 0x1c);
    SameWord(was, 0x20, now, 0x20);
  }

  const KEY_AT := 0x1f0
  const PH_AT := 0x208
  const GROUP_END := 0x248

  /** A section of type ty starts the header group. */
  predicate AtData(table: seq<Entry>, ty: word)
  {
    exists i :: 0 <= i < |table| && table[i].ty == ty && table[i].doff == DATA
  }

  /** Build key and program header; what is absent stays zero, as does the gap between them. */
  ghost predicate GroupWritten(table: seq<Entry>, img: seq<byte>, sym: word, key: seq<byte>, b: seq<byte>)
    requires GROUP_END <= |b| && DATA + HEADER <= |img| && |key| == BUILD_LEN
  {
    && (forall x :: KEY_AT <= x < PH_AT ==>
         b[x] == if AtData(table, 2) && x < KEY_AT + BUILD_LEN then key[x - KEY_AT] else 0)
    && (AtData(table, 10) ==>
         Rd(b, PH_AT) == sym && forall x :: PH_AT + 4 <= x < GROUP_END ==> b[x] == img[x - (PH_AT - DATA)])
    && (!AtData(table, 10) ==> forall x :: PH_AT <= x < GROUP_END ==> b[x] == 0)
  }

  /** Index of the first row of type ty, or -1. */
  method FirstOfType(s: seq<Sec>, ty: word) returns (at: int)
    ensures -1 <= at < |s|
    ensures at >= 0 ==> s[at].e.ty == ty
    ensures at < 0 ==> forall i :: 0 <= i < |s| ==> s[i].e.ty != ty
  {
    var i := 0;
    while i < |s|
      invariant 0 <= i <= |s|
      invariant forall k :: 0 <= k < i ==> s[k].e.ty != ty
    {
      if s[i].e.ty == ty { return i; }
      i := i + 1;
    }
    return -1;
  }

  lemma PlacedRows(p: Plan, maps: Maps, ty: word)
    requires MapsOf(p, maps)
    ensures HasType(p.table, ty) <==> exists i :: 0 <= i < |maps.s| && maps.s[i].e.ty == ty
  {
    forall i | 0 <= i < |maps.s| ensures maps.s[i].e == p.table[i] {}
    if HasType(p.table, ty) {
      var i :| 0 <= i < |p.table| && p.table[i].ty == ty;
      assert maps.s[i].e.ty == ty;
    }
  }

  /** Where the row of the build key or of the program header sends it: to the group, or to a slot of its own. */
  lemma GroupRow(p: Plan, maps: Maps, i: nat)
    requires MapsOf(p, maps) && i < |maps.s| && (maps.s[i].e.ty == 2 || maps.s[i].e.ty == 10)
    ensures p.Fits() && (AtData(p.table, maps.s[i].e.ty) <==> maps.s[i].e.doff == DATA)
    ensures maps.s[i].e.doff == DATA ==> maps.s[i].newDoff == if maps.s[i].e.ty == 2 then KEY_AT else PH_AT
    ensures maps.s[i].e.doff != DATA ==>
      && GROUP_END <= maps.s[i].newDoff && p.New(1) == GROUP_END
      && maps.s[i].newDoff + (if maps.s[i].e.ty == 2 then BUILD_LEN else HEADER) <= p.New(|p.starts|)
      && forall x :: 0 <= x - maps.s[i].newDoff < (if maps.s[i].e.ty == 2 then BUILD_LEN else HEADER) ==> Scratch(p, x)
  {
    assert PlacedAt(p, maps.s[i]) && maps.s[i].e == p.table[i];
    if p.table[i].doff != DATA { OwnSlot(p, i); }
  }

  lemma OwnSlot(p: Plan, i: nat)
    requires p.Fits() && i < |p.table| && (p.table[i].ty == 2 || p.table[i].ty == 10) && p.table[i].doff != DATA
    ensures exists j: nat ::
      && InOwnSlot(p, i, j) && GROUP_END == p.New(1) <= p.New(j)
      && (if p.table[i].ty == 2 then BUILD_LEN else HEADER) <= p.Span(j)
      && p.New(j) + p.Span(j) <= p.New(|p.starts|)
  {
    StartShape(p);
    StartOf(p, i);
    var j :| 0 <= j < |p.starts| && p.starts[j] == p.table[i].doff;
    assert InOwnSlot(p, i, j);
    RoomBounds(p, j);
    SlotsDisjoint(p, j, |p.starts|);
    Before(p, 1, j);
  }

  /** memcpy of the build key. */
  method PutKey(o: array<byte>, at: nat, key: seq<byte>)
    requires at + |key| <= o.Length
    modifies o
    ensures forall x :: 0 <= x < o.Length ==> o[x] == if at <= x < at + |key| then key[x - at] else old(o[x])
  {
    forall x | at <= x < at + |key| { o[x] := key[x - at]; }
  }

  /** memcpy of the program header, with the new symbol count. */
  method PutHeader(o: array<byte>, at: nat, img: seq<byte>, sym: word)
    requires at + HEADER <= o.Length && DATA + HEADER <= |img|
    modifies o
    ensures Rd(o[..], at) == sym
    ensures forall x :: at + 4 <= x < at + HEADER ==> o[x] == img[DATA + (x - at)]
    ensures forall x :: 0 <= x < o.Length && !(at <= x < at + HEADER) ==> o[x] == old(o[x])
  {
    forall x | at <= x < at + HEADER { o[x] := img[DATA + (x - at)]; }
    Wr(o, at, sym);
  }

  method WriteGroup(maps: Maps, img: seq<byte>, o: array<byte>, sym: word, key: seq<byte>, ghost p: Plan)
    requires MapsOf(p, maps) && GROUP_END <= o.Length == p.New(|p.starts|)
    requires DATA + HEADER <= |img| && |key| == BUILD_LEN
    requires forall x :: KEY_AT <= x < GROUP_END ==> o[x] == 0
    modifies o
    ensures GroupWritten(p.table, img, sym, key, o[..])
    ensures forall x :: 0 <= x < KEY_AT ==> o[x] == old(o[x])
    ensures forall x :: GROUP_END <= x < o.Length ==> o[x] == old(o[x]) || Scratch(p, x)
  {
    hide MapsOf, AtData, Rd, Scratch, Plan.New, Plan.Fits;
    var eof := FirstOfType(maps.s, 2);
    var ph := FirstOfType(maps.s, 10);
    NoGroupRow(p, maps, 2);
    NoGroupRow(p, maps, 10);
    if eof >= 0 {
      GroupRow(p, maps, eof);
      PutKey(o, maps.s[eof].newDoff, key);
    }
    if ph >= 0 {
      GroupRow(p, maps, ph);
      PutHeader(o, maps.s[ph].newDoff, img, sym);
    }
  }

  lemma NoGroupRow(p: Plan, maps: Maps, ty: word)
    requires MapsOf(p, maps)
    ensures (forall i :: 0 <= i < |maps.s| ==> maps.s[i].e.ty != ty) ==> !AtData(p.table, ty)
  {
    if AtData(p.table, ty) {
      var i :| 0 <= i < |p.table| && p.table[i].ty == ty && p.table[i].doff == DATA;
      assert maps.s[i].e == p.table[i];
    }
  }

  /** Row i of the new section table. */
  ghost predicate RowWritten(x: Sec, b: seq<byte>, i: nat)
    requires TABOFF + ENTSZ * i + ENTSZ <= |b|
  {
    var to := TABOFF + ENTSZ * i;
    && Rd(b, to) == Add32(x.e.ty, 1) && Rd(b, to + 0x04) == x.newDoff && Rd(b, to + 0x08) == x.newPsz
    && Rd(b, to + 0x0c) == x.e.count && Rd(b, to + 0x10) == x.e.next
    && Rd(b, to + 0x14) == 0 && Rd(b, to + 0x18) == 0 && Rd(b, to + 0x1c) == 0
  }

  method WriteRow(o: array<byte>, x: Sec, i: nat)
    requires TABOFF + ENTSZ * i + ENTSZ <= o.Length && 0 <= x.newDoff < WORD
    modifies o
    ensures RowWritten(x, o[..], i)
    ensures forall k :: 0 <= k < o.Length && !(TABOFF + ENTSZ * i <= k < TABOFF + ENTSZ * i + ENTSZ) ==>
      o[k] == old(o[k])
  {
    hide Rd;
    var to := TABOFF + i * ENTSZ;
    WriteFour(o, to, Add32(x.e.ty, 1), x.newDoff, x.newPsz, x.e.count);
    ghost var was := o[..];
    WriteFour(o, to + 0x10, x.e.next, 0, 0, 0);
    SameWord(was, to, o[..], to);
    SameWord(was, to + 0x04, o[..], to + 0x04);
    SameWord(was, to + 0x08, o[..], to + 0x08);
    SameWord(was, to + 0x0c, o[..], to + 0x0c);
  }

  method WriteFour(o: array<byte>, at: nat, v0: word, v1: word, v2: word, v3: word)
    requires at + 16 <= o.Length
    modifies o
    ensures Rd(o[..], at) == v0 && Rd(o[..], at + 0x04) == v1
    ensures Rd(o[..], at + 0x08) == v2 && Rd(o[..], at + 0x0c) == v3
    ensures forall k :: 0 <= k < o.Length && !(at <= k < at + 16) ==> o[k] == old(o[k])
  {
    Wr(o, at, v0);
    Wr(o, at + 0x04, v1);
    Wr(o, at + 0x08, v2);
    Wr(o, at + 0x0c, v3);
  }

  method WriteRows(o: array<byte>, s: seq<Sec>)
    requires DATA <= o.Length && |s| == SECCNT
    requires forall i :: 0 <= i < |s| ==> 0 <= s[i].newDoff < WORD
    modifies o
    ensures forall i :: 0 <= i < SECCNT ==> RowWritten(s[i], o[..], i)
    ensures forall k :: 0 <= k < TABOFF || DATA <= k < o.Length ==> o[k] == old(o[k])
  {
    var i := 0;
    while i < SECCNT
      invariant 0 <= i <= SECCNT
      invariant forall j :: 0 <= j < i ==> RowWritten(s[j], o[..], j)
      invariant forall k :: 0 <= k < TABOFF || DATA <= k < o.Length ==> o[k] == old(o[k])
    {
      hide RowWritten;
      ghost var was := o[..];
      WriteRow(o, s[i], i);
      forall j | 0 <= j < i ensures RowWritten(s[j], o[..], j) {
        RowKept(s[j], was, o[..], j);
      }
      i := i + 1;
    }
  }

  lemma RowKept(x: Sec, was: seq<byte>, now: seq<byte>, i: nat)
    requires |was| == |now| && TABOFF + ENTSZ * i + ENTSZ <= |was| && RowWritten(x, was, i)
    requires forall k :: TABOFF + ENTSZ * i <= k < TABOFF + ENTSZ * i + ENTSZ ==> now[k] == was[k]
    ensures RowWritten(x, now, i)
  {
    var to := TABOFF + ENTSZ * i;
    SameWord(was, to, now, to);
    SameWord(was, to + 0x04, now, to + 0x04);
    SameWord(was, to + 0x08, now, to + 0x08);
    SameWord(was, to + 0x0c, now, to + 0x0c);
    SameWord(was, to + 0x10, now, to + 0x10);
    SameWord(was, to + 0x14, now, to + 0x14);
    SameWord(was, to + 0x18, now, to + 0x18);
    SameWord(was, to + 0x1c, now, to + 0x1c);
  }

  const SEAL_AT := 0x24

  /** The file with its seal word cleared. */
  function Unsealed(b: seq<byte>): seq<byte>
    requires SEAL_AT + 4 <= |b|
  {
    b[..SEAL_AT] + [0, 0, 0, 0] + b[SEAL_AT + 4..]
  }

  /** The seal verifies: the checksum of the file without it is the stored word. */
  ghost predicate Sealed(b: seq<byte>)
    requires SEAL_AT + 4 <= |b|
  {
    Rd(b, SEAL_AT) == RotXor(Unsealed(b))
  }

  method WriteSeal(o: array<byte>, driverKey: word)
    requires DATA <= o.Length
    modifies o
    ensures Sealed(o[..]) && Rd(o[..], 0x2c) == driverKey
    ensures forall k :: 0 <= k < o.Length && !(SEAL_AT <= k < SEAL_AT + 4) && !(0x2c <= k < 0x30) ==> o[k] == old(o[k])
  {
    Wr(o, 0x2c, driverKey);
    Wr(o, SEAL_AT, 0);
    ZeroWord(o[..], SEAL_AT);
    ghost var was := o[..];
    var h := ComputeRotXor(o);
    Wr(o, SEAL_AT, h);
    assert Unsealed(o[..]) == was;
    SameWord(was, 0x2c, o[..], 0x2c);
  }

  lemma ZeroWord(b: seq<byte>, i: nat)
    requires i + 4 <= |b| && Rd(b, i) == 0
    ensures b[i] == b[i + 1] == b[i + 2] == b[i + 3] == 0
  {}

  /** The row that the new table must hold for entry e. */
  function NewRow(p: Plan, e: Entry): Sec
  {
    Sec(e, 0, if e.ty == 2 && e.doff == DATA then KEY_AT else p.Reloc(e.doff), NewPsz(e, p.grow))
  }

  /** All that a finished file consists of. */
  ghost predicate Translated(img: seq<byte>, cfg: Config, key: seq<byte>, b: seq<byte>)
  {
    && WellFormedV2(img, cfg.grow) && |key| == BUILD_LEN
    && BodyTranslated(PlanFor(img, cfg.grow), img, SymCount(img, cfg), key, b)
    && Rd(b, 0x2c) == cfg.driverKey && Sealed(b)
  }

  ghost predicate BodyTranslated(p: Plan, img: seq<byte>, sym: word, key: seq<byte>, b: seq<byte>)
    requires |key| == BUILD_LEN
  {
    && GROUP_END <= |b| == p.New(|p.starts|) < 0x8000_0000 && DATA + HEADER <= |img|
    && HeaderWritten(img, sym, |b|, b)
    && |p.table| == SECCNT
    && (forall i :: 0 <= i < SECCNT ==> RowWritten(NewRow(p, p.table[i]), b, i))
    && GroupWritten(p.table, img, sym, key, b)
    && (forall j :: 0 < j < |p.starts| ==> SlotTranslated(p, img, sym, j, SlotBytes(p, b, j)))
  }

  /** The working table holds for each row what the new table must show. */
  lemma RowsFollow(p: Plan, m: Maps, i: nat)
    requires MapsOf(p, m) && i < |m.s|
    ensures m.s[i].(rlen := 0) == NewRow(p, p.table[i]) && 0 <= m.s[i].newDoff < WORD
  {
    var x := m.s[i];
    assert x.e == p.table[i] && PlacedAt(p, x);
    StartShape(p);
    RelocIsWord(p, x.e.doff);
    StartOf(p, i);
    var j :| 0 <= j < |p.starts| && p.starts[j] == x.e.doff;
    if j > 0 {
      NextStartIsEnd(p, j);
      RelocInSlot(p, j, x.e.doff);
    }
  }

  lemma RowsFinished(p: Plan, m: Maps, b: seq<byte>)
    requires MapsOf(p, m) && DATA <= |b| && |m.s| == SECCNT
    requires forall i :: 0 <= i < SECCNT ==> RowWritten(m.s[i], b, i)
    ensures forall i :: 0 <= i < SECCNT ==> RowWritten(NewRow(p, p.table[i]), b, i)
  {
    forall i | 0 <= i < SECCNT ensures RowWritten(NewRow(p, p.table[i]), b, i) {
      RowsFollow(p, m, i);
      assert RowWritten(m.s[i], b, i);
      hide NewRow;
    }
  }

  /** Reads, measures and places the sections. */
  method PlanLayout(img: seq<byte>, grow: bool) returns (maps: Maps, doffs: seq<int>, newsize: int)
    requires WellFormedV2(img, grow)
    ensures MapsOf(PlanFor(img, grow), maps) && doffs == PlanFor(img, grow).starts
    ensures newsize == PlanFor(img, grow).New(|doffs|)
    ensures |maps.s| == SECCNT
  {
    ghost var p := PlanFor(img, grow);
    var s := ParseTable(img);
    ComputeSpans(s, |img|, p.table);
    ComputeSizes(s, grow);
    var starts, nd := CollectStarts(s, p.table);
    doffs := starts[..nd];
    var mapNew;
    mapNew, newsize := Place(s, doffs, grow, p);
    var rows := s[..];
    var ph := FirstOfType(rows, 10);
    maps := Maps(rows, doffs, mapNew, if ph < 0 then 0 else rows[ph].newDoff);
    HeaderPlace(p, rows, ph);
  }

  lemma HeaderPlace(p: Plan, s: seq<Sec>, ph: int)
    requires p.Fits() && Rows(s, p.table) && (forall i :: 0 <= i < |s| ==> PlacedAt(p, s[i]))
    requires -1 <= ph < |s| && (ph >= 0 ==> s[ph].e.ty == 10)
    requires ph < 0 ==> forall i :: 0 <= i < |s| ==> s[i].e.ty != 10
    ensures p.PhNew() == if ph < 0 then 0 else s[ph].newDoff
  {
    var i := FindType(p.table, 10);
    if ph >= 0 {
      assert PlacedAt(p, s[ph]) && p.table[ph].ty == 10 && i == ph;
      if p.table[ph].doff != DATA { HeaderSlot(p, ph); }
    }
  }

  lemma HeaderSlot(p: Plan, i: nat)
    requires p.Fits() && i < |p.table| && p.table[i].doff != DATA
    ensures exists j :: 0 < j < |p.starts| && p.starts[j] == p.table[i].doff && p.SlotFrom(p.table[i].doff, 0) == j
  {
    StartShape(p);
    StartOf(p, i);
    var j :| 0 <= j < |p.starts| && p.starts[j] == p.table[i].doff;
    NextStartIsEnd(p, j);
    RelocInSlot(p, j, p.table[i].doff);
  }

  /** Header, header group and sections stand; the section table may still change. */
  ghost predicate BodyWritten(p: Plan, img: seq<byte>, sym: word, key: seq<byte>, b: seq<byte>)
  {
    && DATA + HEADER <= |img| && |key| == BUILD_LEN && |p.starts| > 1
    && GROUP_END == p.New(1) <= |b| == p.New(|p.starts|) < 0x8000_0000
    && HeaderWritten(img, sym, |b|, b)
    && GroupWritten(p.table, img, sym, key, b)
    && WrittenUpTo(p, img, sym, |p.starts|, b)
  }

  /** Fills the zeroed new file up to the section table. */
  method FillBody(maps: Maps, img: seq<byte>, o: array<byte>, key: seq<byte>, sym: word, grow: bool, doffs: seq<int>,
                  ghost p: Plan)
    requires MapsOf(p, maps) && p.Fits() && p.grow == grow && |img| == p.len && doffs == p.starts
    requires forall j :: 0 < j < |p.starts| ==> SectionFits(p, img, j)
    requires |key| == BUILD_LEN && o.Length == p.New(|p.starts|)
    requires forall x :: 0 <= x < o.Length ==> o[x] == 0
    modifies o
    ensures BodyWritten(p, img, sym, key, o[..])
  {
    hide MapsOf, Plan.Fits, Plan.New, SectionFits, HeaderWritten, GroupWritten, WrittenUpTo, Rd;
    FileShape(p, img);
    WriteHeader(o, img, sym, o.Length);
    ghost var b0 := o[..];
    WriteGroup(maps, img, o, sym, key, p);
    ghost var b1 := o[..];
    HeaderKept(img, sym, |b0|, b0, b1);
    NothingWritten(p, img, sym, b1);
    WriteSections(maps, img, o, sym, grow, doffs, p);
    HeaderKept(img, sym, |b0|, b1, o[..]);
    GroupKept(p.table, img, sym, key, b1, o[..]);
  }

  /** Adds the section table and the seal. */
  method Finish(maps: Maps, img: seq<byte>, o: array<byte>, key: seq<byte>, cfg: Config, ghost p: Plan)
    requires WellFormedV2(img, cfg.grow) && p == PlanFor(img, cfg.grow) && DATA <= o.Length && |key| == BUILD_LEN
    requires MapsOf(p, maps) && |maps.s| == SECCNT
    requires BodyWritten(p, img, SymCount(img, cfg), key, o[..])
    modifies o
    ensures Translated(img, cfg, key, o[..])
  {
    hide MapsOf, BodyWritten, RowWritten, NewRow, Rd, Sealed, BodyTranslated, Translated, PlanFor,
         SymCount, Plan.Fits, SectionFits;
    AllSectionsFit(p, img, cfg.grow);
    ghost var b2 := o[..];
    RowsInRange(p, maps);
    WriteRows(o, maps.s);
    ghost var b3 := o[..];
    RowsFinished(p, maps, b3);
    WriteSeal(o, cfg.driverKey);
    Assemble(p, img, SymCount(img, cfg), key, b2, b3, o[..]);
    Conclude(img, cfg, key, p, o[..]);
  }

  lemma Conclude(img: seq<byte>, cfg: Config, key: seq<byte>, p: Plan, b: seq<byte>)
    requires WellFormedV2(img, cfg.grow) && p == PlanFor(img, cfg.grow) && |key| == BUILD_LEN && DATA <= |b|
    requires BodyTranslated(p, img, SymCount(img, cfg), key, b)
    requires Rd(b, 0x2c) == cfg.driverKey && Sealed(b)
    ensures Translated(img, cfg, key, b)
  {
    hide WellFormedV2, BodyTranslated, Sealed, Rd, PlanFor;
  }

  /** Fills the zeroed new file. */
  method Fill(maps: Maps, img: seq<byte>, o: array<byte>, key: seq<byte>, cfg: Config, doffs: seq<int>, ghost p: Plan)
    requires WellFormedV2(img, cfg.grow) && p == PlanFor(img, cfg.grow) && |key| == BUILD_LEN
    requires MapsOf(p, maps) && doffs == p.starts && |maps.s| == SECCNT
    requires o.Length == p.New(|p.starts|)
    requires forall x :: 0 <= x < o.Length ==> o[x] == 0
    modifies o
    ensures Translated(img, cfg, key, o[..])
  {
    AllSectionsFit(p, img, cfg.grow);
    hide MapsOf, Plan.Fits, WellFormedV2, Translated, Plan.New, PlanFor;
    FillBody(maps, img, o, key, SymCount(img, cfg), cfg.grow, doffs, p);
    Finish(maps, img, o, key, cfg, p);
  }

  lemma FileShape(p: Plan, img: seq<byte>)
    requires p.Fits() && |img| == p.len
    ensures |p.starts| > 1 && GROUP_END == p.New(1) <= p.New(|p.starts|) < 0x8000_0000 && DATA + HEADER <= |img|
  {
    StartShape(p);
    NewFileFits(p);
    Before(p, 1, |p.starts|);
  }

  lemma AllSectionsFit(p: Plan, img: seq<byte>, grow: bool)
    requires WellFormedV2(img, grow) && p == PlanFor(img, grow)
    ensures p.Fits() && p.grow == grow && |img| == p.len && |p.table| == SECCNT
    ensures forall j :: 0 < j < |p.starts| ==> SectionFits(p, img, j)
  {}

  lemma NothingWritten(p: Plan, img: seq<byte>, sym: word, b: seq<byte>)
    requires p.Fits() && |b| == p.New(|p.starts|)
    requires forall x :: GROUP_END <= x < |b| ==> b[x] == 0 || Scratch(p, x)
    ensures WrittenUpTo(p, img, sym, 1, b)
  {
    StartShape(p);
    Before(p, 1, |p.starts|);
  }

  lemma RowsInRange(p: Plan, m: Maps)
    requires MapsOf(p, m)
    ensures forall i :: 0 <= i < |m.s| ==> 0 <= m.s[i].newDoff < WORD
  {
    forall i | 0 <= i < |m.s| ensures 0 <= m.s[i].newDoff < WORD {
      RowsFollow(p, m, i);
    }
  }

  /** Table and seal leave the other parts alone. */
  lemma Assemble(p: Plan, img: seq<byte>, sym: word, key: seq<byte>, b2: seq<byte>, b3: seq<byte>, b: seq<byte>)
    requires p.Fits() && |p.table| == SECCNT && |b2| == |b3| == |b| >= DATA
    requires BodyWritten(p, img, sym, key, b2)
    requires forall x :: 0 <= x < TABOFF || DATA <= x < |b| ==> b3[x] == b2[x]
    requires forall i :: 0 <= i < SECCNT ==> RowWritten(NewRow(p, p.table[i]), b3, i)
    requires forall x :: 0 <= x < |b| && !(SEAL_AT <= x < SEAL_AT + 4) && !(0x2c <= x < 0x30) ==> b[x] == b3[x]
    ensures BodyTranslated(p, img, sym, key, b)
  {
    hide Rd, HeaderWritten, RowWritten, NewRow, SlotTranslated, Plan.New, GroupWritten, Plan.Fits, WrittenUpTo;
    HeaderKept(img, sym, |b|, b2, b);
    GroupKept(p.table, img, sym, key, b2, b);
    forall i | 0 <= i < SECCNT ensures RowWritten(NewRow(p, p.table[i]), b, i) {
      RowKept(NewRow(p, p.table[i]), b3, b, i);
    }
    SlotsKept(p, img, sym, b2, b);
  }

  lemma GroupKept(table: seq<Entry>, img: seq<byte>, sym: word, key: seq<byte>, was: seq<byte>, now: seq<byte>)
    requires GROUP_END <= |was| == |now| && DATA + HEADER <= |img| && |key| == BUILD_LEN
    requires GroupWritten(table, img, sym, key, was)
    requires forall x :: DATA <= x < GROUP_END ==> now[x] == was[x]
    ensures GroupWritten(table, img, sym, key, now)
  {
    SameWord(was, PH_AT, now, PH_AT);
    hide AtData;
  }

  lemma SlotsKept(p: Plan, img: seq<byte>, sym: word, was: seq<byte>, now: seq<byte>)
    requires WrittenUpTo(p, img, sym, |p.starts|, was) && |was| == |now| && p.Fits() && p.New(1) == GROUP_END
    requires forall x :: DATA <= x < |was| ==> now[x] == was[x]
    ensures forall j :: 0 < j < |p.starts| ==> SlotTranslated(p, img, sym, j, SlotBytes(p, now, j))
  {
    hide SlotTranslated;
    forall j | 0 < j < |p.starts| ensures SlotBytes(p, now, j) == SlotBytes(p, was, j) {
      SlotAligned(p, j);
      hide Plan.New;
    }
  }

  /**
   * The translation. A file that is not a v2 program binary is refused with the code of the first failed
   * check, and one with a build key section when no build key can be had. Any other is translated.
   */
  method Translate(img: seq<byte>, cfg: Config, key: seq<byte>, keyFound: bool) returns (rc: int, out: array?<byte>)
    requires HeaderCheck(img) == 0 ==> WellFormedV2(img, cfg.grow)
    requires |key| == BUILD_LEN
    ensures HeaderCheck(img) != 0 ==> rc == HeaderCheck(img) && out == null
    ensures HeaderCheck(img) == 0 && HasType(Table(img), 2) && !keyFound ==> rc == -11 && out == null
    ensures HeaderCheck(img) == 0 && (HasType(Table(img), 2) ==> keyFound) ==>
      rc == 0 && out != null && fresh(out) && Translated(img, cfg, key, out[..])
  {
    rc := HeaderCheck(img);
    if rc != 0 { return rc, null; }
    ghost var p := PlanFor(img, cfg.grow);
    var maps, doffs, newsize := PlanLayout(img, cfg.grow);
    PlacedRows(p, maps, 2);
    var eof := FirstOfType(maps.s, 2);
    if eof >= 0 && !keyFound { return -11, null; }
    var o := new byte[newsize](_ => 0);
    Fill(maps, img, o, key, cfg, doffs, p);
    return 0, o;
  }
}
