/** A v2 program binary, so that what is demanded of one is known to be met. */
module XlateSample {
  import opened Words
  import opened XlateFormat
  import opened XlateCode
  import opened XlateLayout
  import opened XlateSymbols
  import opened Xlate
  import opened XlateMeaning

  const SAMPLE_WORDS: nat := 0x600

  /** Where the section of a type starts: the symbol section and the code section come last. */
  function StartOfType(ty: nat): word
    requires 1 <= ty <= SECCNT
  {
    if ty == 2 || ty == 10 then DATA
    else if ty == 1 then 0x1000
    else if ty == 3 then 0xe00
    else 0x248 + 0x40 * ty
  }

  /** There is one symbol. */
  function CountOfType(ty: nat): word { if ty == 3 then 1 else 0 }

  function TableWord(n: nat): word
    requires n < 8 * SECCNT
  {
    if n % 8 == 0 then n / 8 + 1
    else if n % 8 == 1 then StartOfType(n / 8 + 1)
    else if n % 8 == 3 then CountOfType(n / 8 + 1)
    else 0
  }

  /**
   * Word k: the header, the section table, a symbol whose aux pointer leads to a pointer behind the records,
   * and a code section with one object.
   */
  function SampleWord(k: nat): word
  {
    if k == 0 then MAGIC
    else if k == 1 then VER_V2
    else if k == 2 then SECCNT
    else if k == 3 then TABOFF
    else if TABOFF / 4 <= k < TABOFF / 4 + 8 * SECCNT then TableWord(k - TABOFF / 4)
    else if k == 0x396 then 0xf00
    else if k == 0x3c0 then 0x448
    else if k == 0x405 then 0x20
    else if k == 0x406 then 1
    else if k == 0x409 then 0x600
    else if k == 0x580 then 1
    else 0
  }

  function Sample(): (img: seq<byte>)
    ensures |img| == 4 * SAMPLE_WORDS
  {
    seq(4 * SAMPLE_WORDS, x requires 0 <= x < 4 * SAMPLE_WORDS => ByteOf(SampleWord(x / 4), x % 4))
  }

  lemma SampleByte(k: nat, c: nat)
    requires k < SAMPLE_WORDS && c < 4
    ensures Sample()[4 * k + c] == ByteOf(SampleWord(k), c)
  {
    hide SampleWord, ByteOf;
    assert (4 * k + c) / 4 == k && (4 * k + c) % 4 == c;
  }

  /** Word k, read from the bytes between two offsets. */
  lemma SampleRead(from: nat, to: nat, k: nat)
    requires from <= 4 * k && 4 * k + 4 <= to <= 4 * SAMPLE_WORDS
    ensures Rd(Sample()[from..to], 4 * k - from) == SampleWord(k)
  {
    hide SampleWord, Sample;
    SampleByte(k, 0);
    SampleByte(k, 1);
    SampleByte(k, 2);
    SampleByte(k, 3);
    BytesOfWord(SampleWord(k));
  }

  lemma SampleHead(k: nat)
    requires k < SAMPLE_WORDS
    ensures Rd(Sample(), 4 * k) == SampleWord(k)
  {
    hide SampleWord, Rd;
    assert Sample() == Sample()[0..4 * SAMPLE_WORDS];
    hide Sample;
    SampleRead(0, 4 * SAMPLE_WORDS, k);
  }

  function FieldOf(ty: nat, c: nat): word
    requires 1 <= ty <= SECCNT
  {
    if c == 0 then ty else if c == 1 then StartOfType(ty) else if c == 3 then CountOfType(ty) else 0
  }

  lemma TableWords(i: nat, c: nat)
    requires i < SECCNT && c < 5
    ensures SampleWord(TABOFF / 4 + 8 * i + c) == FieldOf(i + 1, c)
  {
    assert (8 * i + c) / 8 == i && (8 * i + c) % 8 == c;
  }

  lemma SampleField(i: nat, c: nat)
    requires i < SECCNT && c < 5
    ensures Rd(Sample(), TABOFF + i * ENTSZ + 4 * c)
      == FieldOf(i + 1, c)
  {
    hide Sample, SampleWord, Rd;
    TableWords(i, c);
    SampleHead(TABOFF / 4 + 8 * i + c);
  }

  lemma SampleEntry(i: nat)
    requires i < SECCNT
    ensures Table(Sample())[i] == Entry(i + 1, StartOfType(i + 1), 0, CountOfType(i + 1), 0)
  {
    hide Sample, Rd;
    SampleField(i, 0);
    SampleField(i, 1);
    SampleField(i, 2);
    SampleField(i, 3);
    SampleField(i, 4);
  }

  lemma SampleHeader()
    ensures HeaderCheck(Sample()) == 0
  {
    hide Sample, Rd;
    SampleHead(0);
    SampleHead(1);
    SampleHead(2);
    SampleHead(3);
  }

  ghost predicate IsSampleTable(t: seq<Entry>)
  {
    |t| == SECCNT && forall i :: 0 <= i < SECCNT ==> t[i] == Entry(i + 1, StartOfType(i + 1), 0, CountOfType(i + 1), 0)
  }

  lemma SampleTable()
    ensures IsSampleTable(Table(Sample()))
  {
    hide Table, StartOfType;
    forall i | 0 <= i < SECCNT
      ensures Table(Sample())[i] == Entry(i + 1, StartOfType(i + 1), 0, CountOfType(i + 1), 0)
    {
      SampleEntry(i);
    }
  }

  lemma PlanIsValid(p: Plan)
    requires IsSampleTable(p.table) && p.len == 4 * SAMPLE_WORDS && p.starts == Starts(p.table)
    ensures p.Fits()
  {
    hide Starts;
    assert p.table[1].doff == DATA;
    assert p.Valid();
    StartShape(p);
    hide Plan.Valid;
    assert forall j :: 0 <= j < |p.starts| ==> p.Owner(j).psz == 0;
  }

  lemma StartsApart(a: nat, b: nat)
    requires 1 <= a <= SECCNT && 1 <= b <= SECCNT && StartOfType(a) < StartOfType(b)
    ensures StartOfType(a) + 4 <= StartOfType(b) <= 0x1000 && a != 1
    ensures a == 3 ==> b == 1
  {}

  lemma StartKnown(p: Plan, j: nat) returns (i: nat)
    requires IsSampleTable(p.table) && p.starts == Starts(p.table) && j < |p.starts|
    ensures i < SECCNT && p.starts[j] == p.table[i].doff == StartOfType(i + 1)
  {
    var x := p.starts[j];
    assert x in p.starts && p.table[..SECCNT] == p.table;
    StartsAre(p.table, SECCNT, x);
    hide StartOfType, Starts;
    i :| 0 <= i < SECCNT && p.table[i].doff == x;
  }

  /** Every slot has a type, and the last two are those of the symbols and of the code. */
  lemma SlotOf(p: Plan, j: nat)
    requires IsSampleTable(p.table) && p.len == 4 * SAMPLE_WORDS && p.starts == Starts(p.table) && 0 < j < |p.starts|
    ensures 1 <= p.Owner(j).ty <= SECCNT && p.Owner(j).count == CountOfType(p.Owner(j).ty)
    ensures p.Span(j) >= 4 && p.starts[j] == StartOfType(p.Owner(j).ty) && p.starts[j] + p.Span(j) <= p.len
    ensures p.Owner(j).ty == 1 ==> p.Span(j) == 0x800
    ensures p.Owner(j).ty == 3 ==> p.Span(j) == 0x200
  {
    hide StartOfType, Starts;
    var i := StartKnown(p, j);
    var k := LastAt(p.table, p.starts[j]);
    CodeStart(k + 1);
    CodeIsSlot(p);
    if j + 1 < |p.starts| {
      var n := StartKnown(p, j + 1);
      StartsApart(k + 1, n + 1);
    }
  }

  lemma CodeIsSlot(p: Plan)
    requires IsSampleTable(p.table) && p.starts == Starts(p.table)
    ensures forall ty :: 1 <= ty <= SECCNT ==> StartOfType(ty) in p.starts
  {
    forall ty | 1 <= ty <= SECCNT ensures StartOfType(ty) in p.starts {
      assert p.table[ty - 1].doff == StartOfType(ty) && p.table[..SECCNT] == p.table;
      StartsAre(p.table, SECCNT, StartOfType(ty));
    }
  }

  lemma CodeStart(ty: int)
    requires 1 <= ty <= SECCNT
    ensures StartOfType(ty) <= 0x1000 && (ty == 1 <==> StartOfType(ty) == 0x1000)
    ensures StartOfType(1) == 0x1000 && (ty == 3 ==> StartOfType(ty) == 0xe00)
  {}

  lemma SlotFits(p: Plan, j: nat)
    requires IsSampleTable(p.table) && p.len == 4 * SAMPLE_WORDS && p.starts == Starts(p.table) && 0 < j < |p.starts|
    requires p.Fits()
    ensures SectionFits(p, Sample(), j)
  {
    hide Sample, Starts, SymbolsFit, CodeFits, WindowFits, Plan.Fits, Plan.New;
    SlotOf(p, j);
    if p.Owner(j).ty == 1 {
      assert OldSection(p, Sample(), j) == Sample()[0x1000..0x1800];
      SampleCode(p.New(|p.starts|) - p.New(j));
    } else if p.Owner(j).ty == 3 {
      assert OldSection(p, Sample(), j) == Sample()[0xe00..0x1000];
      SampleSymbols(p);
    }
  }

  lemma SampleCode(room: int)
    ensures CodeFits(Sample()[0x1000..0x1800], true) && CodeFits(Sample()[0x1000..0x1800], false)
    ensures WindowFits(Sample()[0x1000..0x1800], room)
  {
    SampleByte(0x580, 0);
    assert ByteOf(SampleWord(0x580), 0) == 1;
    hide Sample, Rd;
    SampleRead(0x1000, 0x1800, 0x405);
    SampleRead(0x1000, 0x1800, 0x406);
    SampleRead(0x1000, 0x1800, 0x409);
    assert Sample()[0x1000..0x1800][0x600] == Sample()[0x1600];
  }

  lemma SampleSymbols(p: Plan)
    ensures SymbolsFit(p, Sample()[0xe00..0x1000], 0xe00, 1)
    ensures SymWord(Sample()[0xe00..0x1000], 22) == 0xf00 && SymWord(Sample()[0xe00..0x1000], 64) == 0x448
  {
    hide Sample, Rd;
    SampleRead(0xe00, 0x1000, 0x396);
    SampleRead(0xe00, 0x1000, 0x3c0);
  }

  /** There are v2 program binaries, with every type of section, for either way of translating. */
  lemma SampleIsWellFormed(grow: bool)
    ensures WellFormedV2(Sample(), grow)
  {
    var p := PlanFor(Sample(), grow);
    SampleHeader();
    SampleTable();
    hide Sample, Table, Starts, SectionFits, Plan.Fits, IsSampleTable;
    PlanIsValid(p);
    forall j | 0 < j < |p.starts| ensures SectionFits(p, Sample(), j) { SlotFits(p, j); }
  }

  /** The sample's aux pair is followed: its first word is a pointer, which leads to a byte that stays. */
  lemma SamplePointer(grow: bool) returns (j: nat, k: nat)
    ensures var p := PlanFor(Sample(), grow);
      && LeadsTo(p, Sample(), j, 64, 0x448)
      && 0 < k < |p.starts| && p.starts[k] <= 0x448 < p.End(k) && Stays(p, Sample(), k, 0x448 - p.starts[k])
  {
    var p := PlanFor(Sample(), grow);
    SampleTable();
    hide Sample, Table, Starts, Plan.Fits, IsSampleTable, SectionFits, StartOfType, LeadsTo;
    PlanIsValid(p);
    j := SlotOfType(p, 3);
    k := SlotOfType(p, 8);
    AuxLeads(p, j);
  }

  lemma AuxLeads(p: Plan, j: nat)
    requires p.Fits() && p.len == 4 * SAMPLE_WORDS && 0 < j < |p.starts| && p.starts[j] == 0xe00 && p.End(j) == 0x1000
    requires p.Owner(j).ty == 3 && p.Owner(j).count == 1
    ensures LeadsTo(p, Sample(), j, 64, 0x448)
  {
    hide Sample, Starts, Plan.Fits, Plan.Valid, Plan.Reloc;
    assert OldSection(p, Sample(), j) == Sample()[0xe00..0x1000];
    SampleSymbols(p);
    RelocInSlot(p, j, 0xf00);
    AuxIsPointer(p, Sample()[0xe00..0x1000]);
  }

  lemma AuxIsPointer(p: Plan, sec: seq<byte>)
    requires |sec| == 0x200 && p.len == 4 * SAMPLE_WORDS && SymWord(sec, 22) == 0xf00 && p.Matched(0xf00)
    ensures IsPointer(p, sec, 0xe00, 1, 64)
  {
    hide SymWord, Plan.Matched;
    assert AuxLive(p, sec, 0);
    assert OfRecord(p, sec, 0xe00, 0, 64);
  }

  lemma SlotOfType(p: Plan, ty: nat) returns (j: nat)
    requires IsSampleTable(p.table) && p.len == 4 * SAMPLE_WORDS && p.starts == Starts(p.table) && p.Fits()
    requires ty == 3 || ty == 8
    ensures 0 < j < |p.starts| && p.starts[j] == (if ty == 3 then 0xe00 else 0x448) && p.Owner(j).ty == ty
    ensures p.starts[j] < p.End(j) && p.Owner(j).count == CountOfType(ty)
    ensures ty == 3 ==> p.End(j) == 0x1000
  {
    CodeIsSlot(p);
    StartShape(p);
    var x := StartOfType(ty);
    j :| 0 <= j < |p.starts| && p.starts[j] == x;
    SlotOf(p, j);
  }
}
