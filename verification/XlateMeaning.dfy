/** What a translated program binary means, in terms of the old one. */
module XlateMeaning {
  import opened Words
  import opened Seal
  import opened XlateFormat
  import opened XlateLayout
  import opened XlateCode
  import opened XlateSymbols
  import opened Xlate

  /** A slot whose bytes are copied as they are. */
  predicate Verbatim(p: Plan, j: nat)
    requires j < |p.starts|
  {
    var ty := p.Owner(j).ty;
    ty != 1 && ty != 3 && ty != 9
  }

  /** The sections of the old file img, laid out by p, stand translated in b. */
  ghost predicate Carries(p: Plan, img: seq<byte>, sym: word, b: seq<byte>)
  {
    && p.Fits() && p.len == |img| && |b| == p.New(|p.starts|)
    && forall j :: 0 < j < |p.starts| ==> SlotTranslated(p, img, sym, j, SlotBytes(p, b, j))
  }

  lemma TranslatedCarries(img: seq<byte>, cfg: Config, key: seq<byte>, b: seq<byte>)
    requires Translated(img, cfg, key, b)
    ensures Carries(PlanFor(img, cfg.grow), img, SymCount(img, cfg), b)
  {
    AllSectionsFit(PlanFor(img, cfg.grow), img, cfg.grow);
    hide Plan.Fits, PlanFor, HeaderWritten, RowWritten, GroupWritten, Sealed, SlotTranslated, Rd, WellFormedV2;
  }

  lemma SlotAt(p: Plan, img: seq<byte>, sym: word, b: seq<byte>, j: nat)
    requires Carries(p, img, sym, b) && 0 < j < |p.starts|
    ensures p.Fits() && p.len == |img| && SlotTranslated(p, img, sym, j, SlotBytes(p, b, j))
    ensures 0 < |OldSection(p, img, j)| == p.Span(j) <= Size(p, j)
    ensures p.New(j) + Size(p, j) <= p.New(j + 1) <= |b|
    ensures SlotBytes(p, b, j)[..Size(p, j)] == b[p.New(j)..p.New(j) + Size(p, j)]
    ensures 0 <= p.starts[j] < p.End(j) <= |img| && OldSection(p, img, j) == img[p.starts[j]..p.End(j)]
  {
    hide SlotTranslated, Plan.Fits, Plan.New;
    SpanIsLength(p, img, j);
    Below(p, j + 1);
  }

  /** Every byte of a section that is copied as it is can be read at its relocated offset. */
  lemma VerbatimByte(p: Plan, img: seq<byte>, sym: word, b: seq<byte>, j: nat, at: int)
    requires Carries(p, img, sym, b)
    requires 0 < j < |p.starts| && Verbatim(p, j) && p.starts[j] <= at < p.End(j)
    ensures 0 <= at < |img| && 0 <= p.Reloc(at) < |b| && b[p.Reloc(at)] == img[at]
  {
    hide Plan.Fits, Plan.New, Plan.Reloc, Plan.Matched, Carries;
    SlotAt(p, img, sym, b, j);
    RelocInSlot(p, j, at);
    var lo := p.New(j);
    assert b[lo..lo + Size(p, j)][at - p.starts[j]] == OldSection(p, img, j)[at - p.starts[j]];
  }

  /** Word w of the new symbol section, read in the file. */
  lemma SymbolWord(p: Plan, img: seq<byte>, sym: word, b: seq<byte>, j: nat, w: nat)
    requires Carries(p, img, sym, b)
    requires 0 < j < |p.starts| && p.Owner(j).ty == 3 && 4 * w + 4 <= |OldSection(p, img, j)|
    ensures p.New(j) + 4 * w + 4 <= |b|
    ensures Rd(b, p.New(j) + 4 * w) ==
      if IsPointer(p, OldSection(p, img, j), p.starts[j], p.Owner(j).count, w)
      then p.Reloc(SymWord(OldSection(p, img, j), w)) else SymWord(OldSection(p, img, j), w)
  {
    hide Plan.Fits, Plan.New, Plan.Reloc, Carries, IsPointer, Rd, SectionFits;
    SlotAt(p, img, sym, b, j);
    var sec, lo := OldSection(p, img, j), p.New(j);
    var now := b[lo..lo + Size(p, j)];
    assert SymbolsFixed(p, sec, p.starts[j], p.Owner(j).count, now);
    WordInSlice(b, lo, lo + Size(p, j), 4 * w);
    assert SymWord(now, w) == Rd(now, 4 * w);
  }

  /**
   * A byte of the grown code section: what lay before the first object and is not part of the rewritten
   * table is found at its relocated offset, what lay at or behind it 56 bytes further on.
   */
  lemma CodeByte(p: Plan, img: seq<byte>, sym: word, b: seq<byte>, j: nat, i: nat)
    requires Carries(p, img, sym, b) && p.grow
    requires 0 < j < |p.starts| && p.Owner(j).ty == 1 && i < |OldSection(p, img, j)|
    ensures CodeFits(OldSection(p, img, j), true)
    ensures i >= ObjectsAt(OldSection(p, img, j)).first ==>
      0 <= p.Reloc(p.starts[j] + i) + CODE_GROW < |b|
      && b[p.Reloc(p.starts[j] + i) + CODE_GROW] == OldSection(p, img, j)[i]
    ensures i < ObjectsAt(OldSection(p, img, j)).first && !Rewritten(OldSection(p, img, j), i) ==>
      0 <= p.Reloc(p.starts[j] + i) < |b| && b[p.Reloc(p.starts[j] + i)] == OldSection(p, img, j)[i]
  {
    hide Plan.Fits, Plan.New, Plan.Reloc, Carries, Rd, Rewritten;
    SlotAt(p, img, sym, b, j);
    RelocInSlot(p, j, p.starts[j] + i);
    var sec, lo := OldSection(p, img, j), p.New(j);
    var now := b[lo..lo + Size(p, j)];
    CodeContents(p, img, sym, j, now);
    if i >= ObjectsAt(sec).first {
      TailNotRewritten(sec, i);
      assert now[i + CODE_GROW] == Inserted(sec, ObjectsAt(sec).first, i + CODE_GROW);
    } else if !Rewritten(sec, i) {
      assert now[i] == Inserted(sec, ObjectsAt(sec).first, i);
    }
  }

  lemma CodeContents(p: Plan, img: seq<byte>, sym: word, j: nat, now: seq<byte>)
    requires 0 < j < |p.starts| && p.Owner(j).ty == 1 && p.grow
    requires SectionFits(p, img, j) && Contents(p, img, sym, j, now)
    ensures CodeFits(OldSection(p, img, j), true) && CodeGrown(OldSection(p, img, j), sym, now)
  {
    hide CodeFits, CodeGrown;
  }

  /** An object's bytes, reached through the new file's table, are its old bytes. */
  lemma ObjectFollows(p: Plan, img: seq<byte>, sym: word, b: seq<byte>, j: nat, k: nat, i: nat)
    requires Carries(p, img, sym, b) && p.grow
    requires 0 < j < |p.starts| && p.Owner(j).ty == 1 && CodeFits(OldSection(p, img, j), true)
    requires k < ObjectsAt(OldSection(p, img, j)).cnt
    requires ObjectsAt(OldSection(p, img, j)).first <= Listed(OldSection(p, img, j), k)
    requires Listed(OldSection(p, img, j), k) + i < |OldSection(p, img, j)|
    ensures var tab := p.New(j) + ObjectsAt(OldSection(p, img, j)).tab;
            && tab + OBJ_ENTSZ * k + 8 <= |b|
            && p.New(j) + EntryWord(b, tab, k, 1) + i < |b|
            && b[p.New(j) + EntryWord(b, tab, k, 1) + i] == OldSection(p, img, j)[Listed(OldSection(p, img, j), k) + i]
  {
    hide Plan.Fits, Plan.New, Carries, Rd, SlotTranslated, CodeGrown, EntryWord, SectionFits;
    SlotAt(p, img, sym, b, j);
    var sec, lo, n := OldSection(p, img, j), p.New(j), Size(p, j);
    GrownSlot(p, img, sym, b, j);
    ListedInside(sec, k);
    EntryInSlice(b, lo, lo + n, ObjectsAt(sec).tab, k, 1);
    ObjectsKept(sec, sym, b[lo..lo + n], k, i);
  }

  lemma GrownSlot(p: Plan, img: seq<byte>, sym: word, b: seq<byte>, j: nat)
    requires Carries(p, img, sym, b) && p.grow
    requires 0 < j < |p.starts| && p.Owner(j).ty == 1
    ensures p.New(j) + Size(p, j) <= |b| && |OldSection(p, img, j)| < 0x8000_0000
    ensures CodeFits(OldSection(p, img, j), true)
    ensures CodeGrown(OldSection(p, img, j), sym, b[p.New(j)..p.New(j) + Size(p, j)])
  {
    hide Plan.Fits, Plan.New, Carries, CodeGrown, SectionFits;
    SlotAt(p, img, sym, b, j);
    SpanIsLength(p, img, j);
    CodeContents(p, img, sym, j, b[p.New(j)..p.New(j) + Size(p, j)]);
  }

  /** The offset that entry k of a section's object table gives. */
  function Listed(sec: seq<byte>, k: nat): word
    requires CodeFits(sec, true) && k < ObjectsAt(sec).cnt
  {
    EntryWord(sec, ObjectsAt(sec).tab, k, 1)
  }

  lemma ListedInside(sec: seq<byte>, k: nat)
    requires CodeFits(sec, true) && k < ObjectsAt(sec).cnt
    ensures Listed(sec, k) == EntryWord(sec, ObjectsAt(sec).tab, k, 1)
    ensures ObjectsAt(sec).tab + OBJ_ENTSZ * k + 8 <= |sec|
  {}

  /** The first word of a section of type 9, or of a code section that does not grow, is all that changes there. */
  lemma TailByte(p: Plan, img: seq<byte>, sym: word, b: seq<byte>, j: nat, at: int)
    requires Carries(p, img, sym, b) && 0 < j < |p.starts| && p.starts[j] + 4 <= at < p.End(j)
    requires p.Owner(j).ty == 9 || (p.Owner(j).ty == 1 && !p.grow)
    ensures 0 <= at < |img| && 0 <= p.Reloc(at) < |b| && b[p.Reloc(at)] == img[at]
  {
    hide Plan.Fits, Plan.New, Plan.Reloc, Plan.Matched, Carries, Rd, SectionFits;
    SlotAt(p, img, sym, b, j);
    RelocInSlot(p, j, at);
    var lo, i, sec := p.New(j), at - p.starts[j], OldSection(p, img, j);
    var now := b[lo..lo + Size(p, j)];
    assert now[4..] == sec[4..];
    assert now[i] == now[4..][i - 4] && sec[i] == sec[4..][i - 4];
  }

  /** Byte i of a symbol section lies in none of the words that are relocated. */
  predicate InNoPointer(p: Plan, sec: seq<byte>, od: int, cnt: nat, i: nat)
  {
    i / 4 * 4 + 4 > |sec| || !IsPointer(p, sec, od, cnt, i / 4)
  }

  lemma FixedByte(p: Plan, sec: seq<byte>, od: int, cnt: nat, now: seq<byte>, i: nat)
    requires SymbolsFixed(p, sec, od, cnt, now) && i < |sec| && InNoPointer(p, sec, od, cnt, i)
    ensures now[i] == sec[i]
  {
    hide IsPointer, Plan.Reloc;
    if i / 4 * 4 + 4 <= |sec| {
      assert SymWord(now, i / 4) == SymWord(sec, i / 4);
      SameBytes(now, i / 4 * 4, sec, i / 4 * 4);
      var lo := i / 4 * 4;
      assert now[lo..lo + 4][i - lo] == sec[lo..lo + 4][i - lo];
    }
  }

  /** Every byte of the symbol section outside the relocated words, aligned or not. */
  lemma SymbolByte(p: Plan, img: seq<byte>, sym: word, b: seq<byte>, j: nat, at: int)
    requires Carries(p, img, sym, b) && 0 < j < |p.starts| && p.Owner(j).ty == 3 && p.starts[j] <= at < p.End(j)
    requires InNoPointer(p, OldSection(p, img, j), p.starts[j], p.Owner(j).count, at - p.starts[j])
    ensures 0 <= at < |img| && 0 <= p.Reloc(at) < |b| && b[p.Reloc(at)] == img[at]
  {
    hide Plan.Fits, Plan.New, Plan.Reloc, Plan.Matched, Carries, SectionFits, InNoPointer, SymbolsFixed;
    SlotAt(p, img, sym, b, j);
    RelocInSlot(p, j, at);
    var lo, i, sec := p.New(j), at - p.starts[j], OldSection(p, img, j);
    var now := b[lo..lo + Size(p, j)];
    FixedByte(p, sec, p.starts[j], p.Owner(j).count, now, i);
    assert now[i] == sec[i];
  }

  /** Byte i of slot k is found unchanged at its relocated offset. */
  predicate Stays(p: Plan, img: seq<byte>, k: nat, i: int)
    requires k < |p.starts|
  {
    var sec := OldSection(p, img, k);
    match p.Owner(k).ty
    case 1 => if p.grow then CodeFits(sec, true) && i < ObjectsAt(sec).first && !Rewritten(sec, i) else i >= 4
    case 3 => 0 <= i && InNoPointer(p, sec, p.starts[k], p.Owner(k).count, i)
    case 9 => i >= 4
    case _ => true
  }

  /** The same in terms of the old file. */
  lemma CodeByteAt(p: Plan, img: seq<byte>, sym: word, b: seq<byte>, j: nat, at: int)
    requires Carries(p, img, sym, b) && p.grow
    requires 0 < j < |p.starts| && p.Owner(j).ty == 1 && p.starts[j] <= at < p.End(j)
    ensures 0 <= at < |img| && CodeFits(OldSection(p, img, j), true)
    ensures at - p.starts[j] >= ObjectsAt(OldSection(p, img, j)).first ==>
      0 <= p.Reloc(at) + CODE_GROW < |b| && b[p.Reloc(at) + CODE_GROW] == img[at]
    ensures at - p.starts[j] < ObjectsAt(OldSection(p, img, j)).first ==>
      !Rewritten(OldSection(p, img, j), at - p.starts[j]) ==>
        0 <= p.Reloc(at) < |b| && b[p.Reloc(at)] == img[at]
  {
    hide Plan.Fits, Plan.New, Plan.Reloc, Carries, Rewritten, CodeFits, ObjectsAt, OldSection;
    SlotAt(p, img, sym, b, j);
    CodeByte(p, img, sym, b, j, at - p.starts[j]);
  }

  lemma ByteStays(p: Plan, img: seq<byte>, sym: word, b: seq<byte>, k: nat, at: int)
    requires Carries(p, img, sym, b)
    requires 0 < k < |p.starts| && p.starts[k] <= at < p.End(k) && Stays(p, img, k, at - p.starts[k])
    ensures 0 <= at < |img| && 0 <= p.Reloc(at) < |b| && b[p.Reloc(at)] == img[at]
  {
    hide Plan.Fits, Plan.New, Plan.Reloc, Plan.Matched, Carries, Rewritten, CodeFits, ObjectsAt, OldSection;
    hide InNoPointer;
    if p.Owner(k).ty == 1 && p.grow {
      CodeByteAt(p, img, sym, b, k, at);
    } else if p.Owner(k).ty == 1 || p.Owner(k).ty == 9 {
      TailByte(p, img, sym, b, k, at);
    } else if p.Owner(k).ty == 3 {
      SymbolByte(p, img, sym, b, k, at);
    } else {
      VerbatimByte(p, img, sym, b, k, at);
    }
  }

  /** Word w of the symbol section is a pointer, and old is where it leads in the old file. */
  predicate LeadsTo(p: Plan, img: seq<byte>, j: nat, w: nat, old_: word)
  {
    && 0 < j < |p.starts| && p.Owner(j).ty == 3 && 4 * w + 4 <= |OldSection(p, img, j)|
    && IsPointer(p, OldSection(p, img, j), p.starts[j], p.Owner(j).count, w)
    && SymWord(OldSection(p, img, j), w) == old_
  }

  /**
   * A pointer of the symbol section that led to a byte which is copied in place leads, in the new file, to
   * the same byte: following the rewritten pointer is following the old one.
   */
  lemma PointerFollows(p: Plan, img: seq<byte>, sym: word, b: seq<byte>, j: nat, w: nat, k: nat, old_: word)
    requires Carries(p, img, sym, b) && LeadsTo(p, img, j, w, old_)
    requires 0 < k < |p.starts| && p.starts[k] <= old_ < p.End(k) && Stays(p, img, k, old_ - p.starts[k])
    ensures p.New(j) + 4 * w + 4 <= |b|
    ensures Rd(b, p.New(j) + 4 * w) < |b| && old_ < |img|
    ensures b[Rd(b, p.New(j) + 4 * w)] == img[old_]
  {
    hide Plan.Fits, Plan.New, Plan.Reloc, Carries, IsPointer, Rd, SymWord, Stays;
    ByteStays(p, img, sym, b, k, old_);
    SymbolWord(p, img, sym, b, j, w);
  }

  /** A pointer to a word of the symbol section leads to that word, relocated itself if it is a pointer. */
  lemma PointerToSymbol(p: Plan, img: seq<byte>, sym: word, b: seq<byte>, j: nat, w: nat, k: nat, old_: word, v: nat)
    requires Carries(p, img, sym, b) && LeadsTo(p, img, j, w, old_)
    requires 0 < k < |p.starts| && p.Owner(k).ty == 3 && 4 * v + 4 <= |OldSection(p, img, k)|
    requires old_ == p.starts[k] + 4 * v
    ensures p.New(j) + 4 * w + 4 <= |b|
    ensures Rd(b, p.New(j) + 4 * w) + 4 <= |b|
    ensures Rd(b, Rd(b, p.New(j) + 4 * w)) ==
      if IsPointer(p, OldSection(p, img, k), p.starts[k], p.Owner(k).count, v)
      then p.Reloc(SymWord(OldSection(p, img, k), v)) else SymWord(OldSection(p, img, k), v)
  {
    hide Plan.Fits, Plan.New, Plan.Reloc, Carries, IsPointer, Rd, SymWord, OldSection, Plan.Matched, Plan.Room;
    SlotAt(p, img, sym, b, k);
    SymbolWord(p, img, sym, b, j, w);
    SymbolWord(p, img, sym, b, k, v);
    RelocInSlot(p, k, old_);
  }

  /**
   * Where following ends: a pointer to a byte at or behind the first object of a code section that grows
   * is relocated like any other, and lands 56 bytes short of that byte's new place.
   */
  lemma PointerFallsShort(p: Plan, img: seq<byte>, sym: word, b: seq<byte>, j: nat, w: nat, k: nat, old_: word)
    requires Carries(p, img, sym, b) && LeadsTo(p, img, j, w, old_)
    requires p.grow && 0 < k < |p.starts| && p.Owner(k).ty == 1 && CodeFits(OldSection(p, img, k), true)
    requires p.starts[k] + ObjectsAt(OldSection(p, img, k)).first <= old_ < p.End(k)
    ensures p.New(j) + 4 * w + 4 <= |b| && old_ < |img|
    ensures Rd(b, p.New(j) + 4 * w) + CODE_GROW < |b|
    ensures b[Rd(b, p.New(j) + 4 * w) + CODE_GROW] == img[old_]
    ensures old_ >= p.starts[k] + ObjectsAt(OldSection(p, img, k)).first + CODE_GROW ==>
      b[Rd(b, p.New(j) + 4 * w)] == img[old_ - CODE_GROW]
  {
    hide Plan.Fits, Plan.New, Plan.Reloc, Plan.Matched, Plan.Room, Carries, IsPointer, Rd, SymWord, Rewritten;
    hide OldSection, ObjectsAt;
    SymbolWord(p, img, sym, b, j, w);
    CodeByteAt(p, img, sym, b, k, old_);
    if old_ >= p.starts[k] + ObjectsAt(OldSection(p, img, k)).first + CODE_GROW {
      CodeByteAt(p, img, sym, b, k, old_ - CODE_GROW);
      SlotAt(p, img, sym, b, k);
      RelocInSlot(p, k, old_);
      RelocInSlot(p, k, old_ - CODE_GROW);
    }
  }

  /** Every row but that of a build key in front gives the relocation of its old offset, where the section now is. */
  lemma RowFollows(p: Plan, img: seq<byte>, b: seq<byte>, i: nat)
    requires p.Fits() && i < SECCNT && DATA <= |b|
    requires RowWritten(NewRow(p, p.table[i]), b, i) && !(p.table[i].ty == 2 && p.table[i].doff == DATA)
    ensures Rd(b, TABOFF + ENTSZ * i) == Add32(p.table[i].ty, 1)
    ensures Rd(b, TABOFF + ENTSZ * i + 4) == p.Reloc(p.table[i].doff)
    ensures p.table[i].doff == DATA ==> p.table[i].ty == 10 && p.Reloc(p.table[i].doff) == PH_AT
    ensures forall j :: 0 < j < |p.starts| && p.starts[j] == p.table[i].doff ==> p.Reloc(p.table[i].doff) == p.New(j)
  {
    StartShape(p);
    forall j | 0 < j < |p.starts| && p.starts[j] == p.table[i].doff ensures p.Reloc(p.table[i].doff) == p.New(j) {
      NextStartIsEnd(p, j);
      RelocInSlot(p, j, p.starts[j]);
    }
    var h := FindType(p.table, 10);
  }

  /** The seal protects the finished file: a change of one byte outside the seal word breaks it. */
  lemma TamperingBreaksSeal(b: seq<byte>, c: seq<byte>, at: nat)
    requires SEAL_AT + 4 <= |b| && Sealed(b)
    requires |c| == |b| && at < |b| && !(SEAL_AT <= at < SEAL_AT + 4) && c[at] != b[at]
    requires forall k :: 0 <= k < |b| && k != at ==> c[k] == b[k]
    ensures !Sealed(c)
  {
    SameWord(b, SEAL_AT, c, SEAL_AT);
    OneByteChangesSeal(Unsealed(b), Unsealed(c), at);
  }
}
