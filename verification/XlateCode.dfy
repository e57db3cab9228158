/** Growing the code section: 56 bytes are inserted before the first object. */
module XlateCode {
  import opened Words
  import opened XlateFormat

  const OBJ_TAB_OFF := 0x14
  const OBJ_TAB_CNT := 0x18
  const OBJ_ENTSZ := 20
  const OBJ_TYPES := 56

  /** Word w (0 to 4) of entry k of the object table at base; word 1 is the object's offset. */
  function EntryWord(b: seq<byte>, base: nat, k: nat, w: nat): word
    requires w < 5 && base + OBJ_ENTSZ * k + 4 * w + 4 <= |b|
  {
    Rd(b, base + OBJ_ENTSZ * k + 4 * w)
  }

  /** Whether byte i of a table of cnt entries belongs to an offset word. */
  predicate OffsetByte(i: int, cnt: nat)
  {
    0 <= i < OBJ_ENTSZ * cnt && 4 <= i % OBJ_ENTSZ < 8
  }

  /** The object table of a code section. */
  datatype Objects = Objects(tab: nat, cnt: nat, first: nat)
  {
    function End(): nat { tab + OBJ_ENTSZ * cnt }
    function Limit(): nat { tab + OBJ_ENTSZ * OBJ_TYPES }
  }

  function ObjectsAt(sec: seq<byte>): Objects
    requires OBJ_TAB_CNT + 4 <= |sec|
  {
    var tab := Rd(sec, OBJ_TAB_OFF);
    Objects(tab, Rd(sec, OBJ_TAB_CNT), if tab + 8 <= |sec| then Rd(sec, tab + 4) else 0)
  }

  /**
   * What the rewriting of a code section relies on: the object table lies behind the header words that
   * locate it and ends at or before the first object.
   */
  predicate CodeFits(sec: seq<byte>, grow: bool)
  {
    |sec| >= 4 && (grow ==> |sec| >= OBJ_TAB_CNT + 4 && TableFits(|sec|, ObjectsAt(sec)))
  }

  predicate TableFits(n: nat, t: Objects)
  {
    && t.cnt >= 1 && t.tab >= OBJ_TAB_CNT + 4
    && t.End() <= t.first <= n
  }

  /**
   * What keeps the search for a byte in use inside the new file, of which room bytes follow the section's
   * new start: the window behind the table ends there, or a byte of the section stops the search before.
   */
  predicate WindowFits(sec: seq<byte>, room: int)
    requires CodeFits(sec, true)
  {
    var t := ObjectsAt(sec);
    t.cnt < OBJ_TYPES ==> t.Limit() <= room || exists i :: t.End() <= i < |sec| && sec[i] != 0
  }

  /** The empty types are appended when the window behind the table is unused and ends before the objects. */
  predicate Appends(sec: seq<byte>)
    requires CodeFits(sec, true)
  {
    var t := ObjectsAt(sec);
    && t.cnt < OBJ_TYPES
    && t.Limit() <= t.first + CODE_GROW
    && forall i :: t.End() <= i < t.Limit() && i < t.first ==> sec[i] == 0
  }

  /** Byte i of the section just after the insertion, before the table is rewritten. */
  function Inserted(sec: seq<byte>, first: nat, i: nat): byte
    requires first <= |sec| && i < |sec| + CODE_GROW
  {
    if i < first then sec[i] else if i < first + CODE_GROW then 0 else sec[i - CODE_GROW]
  }

  ghost predicate IsEmptyEntry(b: seq<byte>, base: nat, t: nat, last: word)
    requires base + OBJ_ENTSZ * t + OBJ_ENTSZ <= |b|
  {
    && EntryWord(b, base, t, 0) == t && EntryWord(b, base, t, 1) == last
    && EntryWord(b, base, t, 2) == 0 && EntryWord(b, base, t, 3) == 0 && EntryWord(b, base, t, 4) == 0
  }

  /** Offset of the last listed object after growth; the empty types point there. */
  function LastOffset(sec: seq<byte>): word
    requires CodeFits(sec, true)
  {
    var t := ObjectsAt(sec);
    Add32(EntryWord(sec, t.tab, t.cnt - 1, 1), CODE_GROW)
  }

  /** Bytes that rewriting the table and its count may change. */
  predicate Rewritten(sec: seq<byte>, i: int)
    requires CodeFits(sec, true)
  {
    var t := ObjectsAt(sec);
    || i < 4 || OBJ_TAB_CNT <= i < OBJ_TAB_CNT + 4
    || OffsetByte(i - t.tab, t.cnt)
    || (Appends(sec) && t.End() <= i < t.Limit())
  }

  /** The grown section, byte by byte. */
  ghost predicate CodeGrown(sec: seq<byte>, sym: word, now: seq<byte>)
    requires CodeFits(sec, true)
  {
    var t := ObjectsAt(sec);
    var tab := t.tab;
    && |now| == |sec| + CODE_GROW
    && Rd(now, 0) == sym
    && Rd(now, OBJ_TAB_CNT) == (if Appends(sec) then OBJ_TYPES else t.cnt)
    && (forall k :: 0 <= k < t.cnt ==> EntryWord(now, tab, k, 1) == Add32(EntryWord(sec, tab, k, 1), CODE_GROW))
    && (Appends(sec) ==> forall k :: t.cnt <= k < OBJ_TYPES ==> IsEmptyEntry(now, tab, k, LastOffset(sec)))
    && (forall i :: 0 <= i < |now| && !Rewritten(sec, i) ==> now[i] == Inserted(sec, t.first, i))
  }

  lemma TailNotRewritten(sec: seq<byte>, i: nat)
    requires CodeFits(sec, true) && ObjectsAt(sec).first <= i
    ensures !Rewritten(sec, i + CODE_GROW)
  {}

  /**
   * Every object that does not lie before the first is kept: its rewritten table entry leads to exactly
   * its old bytes.
   */
  lemma ObjectsKept(sec: seq<byte>, sym: word, now: seq<byte>, k: nat, i: nat)
    requires CodeFits(sec, true) && CodeGrown(sec, sym, now) && |sec| < 0x8000_0000
    requires k < ObjectsAt(sec).cnt
    requires ObjectsAt(sec).first <= EntryWord(sec, ObjectsAt(sec).tab, k, 1)
    requires EntryWord(sec, ObjectsAt(sec).tab, k, 1) + i < |sec|
    ensures var was := EntryWord(sec, ObjectsAt(sec).tab, k, 1);
            var at := EntryWord(now, ObjectsAt(sec).tab, k, 1);
            at == was + CODE_GROW && at + i < |now| && now[at + i] == sec[was + i]
  {
    hide Rd;
    var was := EntryWord(sec, ObjectsAt(sec).tab, k, 1);
    Add32Small(was, CODE_GROW);
    TailNotRewritten(sec, was + i);
    assert now[was + i + CODE_GROW] == Inserted(sec, ObjectsAt(sec).first, was + i + CODE_GROW);
  }

  /**
   * Types up to 55 are found: when the empty types are appended, the table lists 56 entries. Each new one
   * is present but empty, each older one is as it was but for its offset, and no byte at or behind the
   * first object's new place is touched.
   */
  lemma AppendedTypes(sec: seq<byte>, sym: word, now: seq<byte>)
    requires CodeFits(sec, true) && CodeGrown(sec, sym, now) && Appends(sec)
    ensures Rd(now, OBJ_TAB_CNT) == OBJ_TYPES
    ensures var tab, cnt := ObjectsAt(sec).tab, ObjectsAt(sec).cnt;
      forall k :: cnt <= k < OBJ_TYPES ==>
        && EntryWord(now, tab, k, 0) == k && EntryWord(now, tab, k, 1) == Add32(EntryWord(sec, tab, cnt - 1, 1), 56)
        && EntryWord(now, tab, k, 2) == 0 && EntryWord(now, tab, k, 3) == 0 && EntryWord(now, tab, k, 4) == 0
    ensures forall m, w :: 0 <= m < ObjectsAt(sec).cnt && 0 <= w < 5 ==>
      EntryWord(now, ObjectsAt(sec).tab, m, w) ==
        if w == 1 then Add32(EntryWord(sec, ObjectsAt(sec).tab, m, w), CODE_GROW)
        else EntryWord(sec, ObjectsAt(sec).tab, m, w)
    ensures forall i :: ObjectsAt(sec).first <= i < |sec| ==> now[i + CODE_GROW] == sec[i]
  {
    hide EntryWord;
    var t, last := ObjectsAt(sec), LastOffset(sec);
    assert last == Add32(EntryWord(sec, t.tab, t.cnt - 1, 1), 56);
    forall k | t.cnt <= k < OBJ_TYPES
      ensures EntryWord(now, t.tab, k, 0) == k && EntryWord(now, t.tab, k, 1) == last
      ensures EntryWord(now, t.tab, k, 2) == EntryWord(now, t.tab, k, 3) == EntryWord(now, t.tab, k, 4) == 0
    {
      assert IsEmptyEntry(now, t.tab, k, last);
    }
    forall m, w | 0 <= m < ObjectsAt(sec).cnt && 0 <= w < 5 && w != 1
      ensures EntryWord(now, ObjectsAt(sec).tab, m, w) == EntryWord(sec, ObjectsAt(sec).tab, m, w)
    {
      EntryWordKept(sec, sym, now, m, w);
    }
    forall i | ObjectsAt(sec).first <= i < |sec| ensures now[i + CODE_GROW] == sec[i] { TailNotRewritten(sec, i); }
  }

  /** Every word of a listed entry but its offset is kept. */
  lemma EntryWordKept(sec: seq<byte>, sym: word, now: seq<byte>, m: nat, w: nat)
    requires CodeFits(sec, true) && CodeGrown(sec, sym, now) && m < ObjectsAt(sec).cnt && w < 5 && w != 1
    ensures EntryWord(now, ObjectsAt(sec).tab, m, w) == EntryWord(sec, ObjectsAt(sec).tab, m, w)
  {
    var e := ObjectsAt(sec).tab + OBJ_ENTSZ * m + 4 * w;
    EntryByteKept(sec, sym, now, m, 4 * w);
    EntryByteKept(sec, sym, now, m, 4 * w + 1);
    EntryByteKept(sec, sym, now, m, 4 * w + 2);
    EntryByteKept(sec, sym, now, m, 4 * w + 3);
    hide CodeGrown, Rd;
    assert now[e..e + 4] == sec[e..e + 4];
    SameWord(now, e, sec, e);
  }

  lemma EntryByteKept(sec: seq<byte>, sym: word, now: seq<byte>, m: nat, d: nat)
    requires CodeFits(sec, true) && CodeGrown(sec, sym, now) && m < ObjectsAt(sec).cnt
    requires d < OBJ_ENTSZ && !(4 <= d < 8)
    ensures now[ObjectsAt(sec).tab + OBJ_ENTSZ * m + d] == sec[ObjectsAt(sec).tab + OBJ_ENTSZ * m + d]
  {
    hide Rd;
    var i := ObjectsAt(sec).tab + OBJ_ENTSZ * m + d;
    EntryBytes(m, d);
    assert !Rewritten(sec, i);
  }

  /** memmove and memset: opens a gap of CODE_GROW zero bytes at first. */
  method OpenGap(o: array<byte>, nb: nat, sec: seq<byte>, first: nat)
    requires 4 <= first <= |sec| && nb + |sec| + CODE_GROW <= o.Length
    requires forall x :: nb + 4 <= x < nb + |sec| ==> o[x] == sec[x - nb]
    modifies o
    ensures forall x :: nb + 4 <= x < nb + |sec| + CODE_GROW ==> o[x] == Inserted(sec, first, x - nb)
    ensures forall x :: 0 <= x < nb + 4 || nb + |sec| + CODE_GROW <= x < o.Length ==> o[x] == old(o[x])
  {
    forall x | nb + first + CODE_GROW <= x < nb + |sec| + CODE_GROW { o[x] := o[x - CODE_GROW]; }
    forall x | nb + first <= x < nb + first + CODE_GROW { o[x] := 0; }
  }

  lemma EntryBytes(k: nat, d: nat)
    requires d < OBJ_ENTSZ
    ensures (OBJ_ENTSZ * k + d) % OBJ_ENTSZ == d
  {}

  /** Adds CODE_GROW to the offset word of every table entry and touches nothing else. */
  method ShiftOffsets(o: array<byte>, base: nat, cnt: nat, img: seq<byte>, ibase: nat)
    requires base + OBJ_ENTSZ * cnt <= o.Length && ibase + OBJ_ENTSZ * cnt <= |img|
    modifies o
    ensures forall k :: 0 <= k < cnt ==>
      EntryWord(o[..], base, k, 1) == Add32(EntryWord(img, ibase, k, 1), CODE_GROW)
    ensures forall x :: 0 <= x < o.Length && !OffsetByte(x - base, cnt) ==> o[x] == old(o[x])
  {
    var k := 0;
    while k < cnt
      invariant 0 <= k <= cnt
      invariant forall m :: 0 <= m < k ==>
        EntryWord(o[..], base, m, 1) == Add32(EntryWord(img, ibase, m, 1), CODE_GROW)
      invariant forall x :: 0 <= x < o.Length && !OffsetByte(x - base, cnt) ==> o[x] == old(o[x])
    {
      EntryBytes(k, 4); EntryBytes(k, 5); EntryBytes(k, 6); EntryBytes(k, 7);
      ghost var was := o[..];
      Wr(o, base + k * OBJ_ENTSZ + 4, Add32(Rd(img, ibase + k * OBJ_ENTSZ + 4), CODE_GROW));
      forall m | 0 <= m < k ensures EntryWord(o[..], base, m, 1) == EntryWord(was, base, m, 1) {
        SameEntryWord(was, o[..], base, m, 1);
      }
      k := k + 1;
    }
  }

  lemma SameEntryWord(a: seq<byte>, b: seq<byte>, base: nat, k: nat, w: nat)
    requires w < 5 && base + OBJ_ENTSZ * k + 4 * w + 4 <= |a| && |a| == |b|
    requires forall x :: base + OBJ_ENTSZ * k + 4 * w <= x < base + OBJ_ENTSZ * k + 4 * w + 4 ==> a[x] == b[x]
    ensures EntryWord(a, base, k, w) == EntryWord(b, base, k, w)
  {}

  /** Writes one empty entry. */
  method PutEmpty(o: array<byte>, base: nat, t: nat, last: word)
    requires base + OBJ_ENTSZ * t + OBJ_ENTSZ <= o.Length && t < OBJ_TYPES
    modifies o
    ensures IsEmptyEntry(o[..], base, t, last)
    ensures forall x :: 0 <= x < o.Length && !(OBJ_ENTSZ * t <= x - base < OBJ_ENTSZ * t + OBJ_ENTSZ) ==>
      o[x] == old(o[x])
  {
    var e := base + t * OBJ_ENTSZ;
    Wr(o, e, t);
    Wr(o, e + 4, last);
    Wr(o, e + 8, 0);
    Wr(o, e + 12, 0);
    Wr(o, e + 16, 0);
  }

  method AppendEmpty(o: array<byte>, base: nat, cnt: nat, last: word)
    requires base + OBJ_ENTSZ * OBJ_TYPES <= o.Length && cnt <= OBJ_TYPES
    modifies o
    ensures forall t :: cnt <= t < OBJ_TYPES ==> IsEmptyEntry(o[..], base, t, last)
    ensures forall x :: 0 <= x < o.Length && !(OBJ_ENTSZ * cnt <= x - base < OBJ_ENTSZ * OBJ_TYPES) ==>
      o[x] == old(o[x])
  {
    var t := cnt;
    while t < OBJ_TYPES
      invariant cnt <= t <= OBJ_TYPES
      invariant forall m :: cnt <= m < t ==> IsEmptyEntry(o[..], base, m, last)
      invariant forall x :: 0 <= x < o.Length && !(OBJ_ENTSZ * cnt <= x - base < OBJ_ENTSZ * OBJ_TYPES) ==>
        o[x] == old(o[x])
    {
      ghost var was := o[..];
      PutEmpty(o, base, t, last);
      forall m | cnt <= m < t ensures IsEmptyEntry(o[..], base, m, last) {
        assert IsEmptyEntry(was, base, m, last);
        SameEmpty(was, o[..], base, m, last);
      }
      t := t + 1;
    }
  }

  lemma SameEmpty(a: seq<byte>, b: seq<byte>, base: nat, t: nat, last: word)
    requires base + OBJ_ENTSZ * t + OBJ_ENTSZ <= |a| && |a| == |b|
    requires forall x :: base + OBJ_ENTSZ * t <= x < base + OBJ_ENTSZ * t + OBJ_ENTSZ ==> a[x] == b[x]
    requires IsEmptyEntry(a, base, t, last)
    ensures IsEmptyEntry(b, base, t, last)
  {
    SameEntryWord(a, b, base, t, 0);
    SameEntryWord(a, b, base, t, 1);
    SameEntryWord(a, b, base, t, 2);
    SameEntryWord(a, b, base, t, 3);
    SameEntryWord(a, b, base, t, 4);
  }

  /** Looks for a byte in use between from and to, and stops at the first one. */
  method IsClean(o: array<byte>, from: nat, to: nat) returns (clean: bool)
    requires from <= to && (to <= o.Length || exists x :: from <= x < o.Length && o[x] != 0)
    ensures clean <==> to <= o.Length && forall x :: from <= x < to ==> o[x] == 0
  {
    clean := true;
    var z := from;
    while z < to
      invariant from <= z <= to && (z <= o.Length || z == from)
      invariant forall x :: from <= x < z ==> o[x] == 0
    {
      if o[z] != 0 { return false; }
      z := z + 1;
    }
  }

  /** The section after the offsets have been shifted and before any empty type is appended. */
  ghost predicate OffsetsShifted(sec: seq<byte>, now: seq<byte>)
    requires CodeFits(sec, true)
  {
    var t := ObjectsAt(sec);
    var tab := t.tab;
    && |now| == |sec| + CODE_GROW
    && (forall k :: 0 <= k < t.cnt ==> EntryWord(now, tab, k, 1) == Add32(EntryWord(sec, tab, k, 1), CODE_GROW))
    && (forall i :: 4 <= i < |now| && !OffsetByte(i - tab, t.cnt) ==> now[i] == Inserted(sec, t.first, i))
  }

  lemma WordInSlice(b: seq<byte>, lo: nat, hi: nat, i: nat)
    requires lo + i + 4 <= hi <= |b|
    ensures Rd(b, lo + i) == Rd(b[lo..hi], i)
  {
    var c := b[lo..hi];
    assert c[i] == b[lo + i] && c[i + 1] == b[lo + i + 1] && c[i + 2] == b[lo + i + 2] && c[i + 3] == b[lo + i + 3];
  }

  lemma EntryInSlice(b: seq<byte>, lo: nat, hi: nat, tab: nat, k: nat, w: nat)
    requires w < 5 && lo + tab + OBJ_ENTSZ * k + 4 * w + 4 <= hi <= |b|
    ensures EntryWord(b, lo + tab, k, w) == EntryWord(b[lo..hi], tab, k, w)
  {
    WordInSlice(b, lo, hi, tab + OBJ_ENTSZ * k + 4 * w);
  }

  method ShiftTable(o: array<byte>, nb: nat, sec: seq<byte>)
    requires CodeFits(sec, true) && nb + |sec| + CODE_GROW <= o.Length
    requires forall x :: nb + 4 <= x < nb + |sec| + CODE_GROW ==>
      o[x] == Inserted(sec, ObjectsAt(sec).first, x - nb)
    modifies o
    ensures OffsetsShifted(sec, o[nb..nb + |sec| + CODE_GROW])
    ensures forall x :: 0 <= x < nb + 4 || nb + |sec| + CODE_GROW <= x < o.Length ==> o[x] == old(o[x])
  {
    var t := ObjectsAt(sec);
    ShiftOffsets(o, nb + t.tab, t.cnt, sec, t.tab);
    ghost var hi := nb + |sec| + CODE_GROW;
    forall k | 0 <= k < t.cnt
      ensures EntryWord(o[nb..hi], t.tab, k, 1) == Add32(EntryWord(sec, t.tab, k, 1), CODE_GROW)
    {
      EntryInSlice(o[..], nb, hi, t.tab, k, 1);
      assert o[..][nb..hi] == o[nb..hi];
    }
  }

  /** The offsets of the first and of the last object after the shift. */
  lemma EndWords(sec: seq<byte>, now: seq<byte>)
    requires CodeFits(sec, true) && OffsetsShifted(sec, now) && |sec| < 0x8000_0000
    ensures EntryWord(now, ObjectsAt(sec).tab, 0, 1) == ObjectsAt(sec).first + CODE_GROW
    ensures EntryWord(now, ObjectsAt(sec).tab, ObjectsAt(sec).cnt - 1, 1) == LastOffset(sec)
  {
    var t := ObjectsAt(sec);
    assert EntryWord(sec, t.tab, 0, 1) == t.first;
    Add32Small(t.first, CODE_GROW);
    var k := t.cnt - 1;
    assert 0 <= k < t.cnt;
  }

  /** The test the original makes on the new bytes is a test on the old ones. */
  lemma AppendsIffClean(sec: seq<byte>, now: seq<byte>)
    requires CodeFits(sec, true) && OffsetsShifted(sec, now)
    requires ObjectsAt(sec).cnt < OBJ_TYPES
    ensures Appends(sec) <==>
      && ObjectsAt(sec).first + CODE_GROW >= ObjectsAt(sec).Limit()
      && forall i :: ObjectsAt(sec).End() <= i < ObjectsAt(sec).Limit() ==> now[i] == 0
  {
    var t := ObjectsAt(sec);
    forall i | t.End() <= i < t.Limit() && i < |now| ensures now[i] == Inserted(sec, t.first, i) {
      assert !OffsetByte(i - t.tab, t.cnt);
    }
    forall i | t.End() <= i < t.Limit() && i < t.first ensures now[i] == sec[i] {
      assert now[i] == Inserted(sec, t.first, i);
    }
  }

  /** What the original reads from the new bytes, in terms of the old ones. */
  lemma ReadBack(sec: seq<byte>, b: seq<byte>, nb: nat, hi: nat)
    requires CodeFits(sec, true) && hi == nb + |sec| + CODE_GROW <= |b| && |sec| < 0x8000_0000
    requires OffsetsShifted(sec, b[nb..hi]) && ObjectsAt(sec).cnt < OBJ_TYPES
    ensures EntryWord(b, nb + ObjectsAt(sec).tab, ObjectsAt(sec).cnt - 1, 1) == LastOffset(sec)
    ensures EntryWord(b, nb + ObjectsAt(sec).tab, 0, 1) == ObjectsAt(sec).first + CODE_GROW
    ensures Appends(sec) <==>
      && ObjectsAt(sec).first + CODE_GROW >= ObjectsAt(sec).Limit()
      && forall x :: nb + ObjectsAt(sec).End() <= x < nb + ObjectsAt(sec).Limit() ==> b[x] == 0
  {
    hide Rd, OffsetsShifted, Appends, EntryWord, LastOffset;
    var t := ObjectsAt(sec);
    EndWords(sec, b[nb..hi]);
    EntryInSlice(b, nb, hi, t.tab, t.cnt - 1, 1);
    EntryInSlice(b, nb, hi, t.tab, 0, 1);
    AppendsIffClean(sec, b[nb..hi]);
    if t.first + CODE_GROW >= t.Limit() { CleanInSlice(b, nb, hi, t.End(), t.Limit()); }
  }

  /** The original's decision, and the offset that the empty types get. */
  method CanAppend(o: array<byte>, nb: nat, sec: seq<byte>, ghost hi: nat) returns (can: bool, last: word)
    requires CodeFits(sec, true) && hi == nb + |sec| + CODE_GROW <= o.Length && |sec| < 0x8000_0000
    requires OffsetsShifted(sec, o[..][nb..hi]) && ObjectsAt(sec).cnt < OBJ_TYPES
    requires WindowFits(sec, o.Length - nb)
    ensures can == Appends(sec) && last == LastOffset(sec)
  {
    var t := ObjectsAt(sec);
    ReadBack(sec, o[..], nb, hi);
    SearchStops(sec, o[..], nb, hi);
    hide OffsetsShifted, Appends;
    last := EntryWord(o[..], nb + t.tab, t.cnt - 1, 1);
    var first := EntryWord(o[..], nb + t.tab, 0, 1);
    var clean := IsClean(o, nb + t.End(), nb + t.Limit());
    can := clean && first >= t.Limit();
  }

  /** The search for a byte in use ends inside the file. */
  lemma SearchStops(sec: seq<byte>, b: seq<byte>, nb: nat, hi: nat)
    requires CodeFits(sec, true) && hi == nb + |sec| + CODE_GROW <= |b|
    requires OffsetsShifted(sec, b[nb..hi]) && ObjectsAt(sec).cnt < OBJ_TYPES && WindowFits(sec, |b| - nb)
    ensures nb + ObjectsAt(sec).Limit() <= |b| || exists x :: nb + ObjectsAt(sec).End() <= x < |b| && b[x] != 0
  {
    var t := ObjectsAt(sec);
    if nb + t.Limit() > |b| {
      var i :| t.End() <= i < |sec| && sec[i] != 0;
      var k := if i < t.first then i else i + CODE_GROW;
      assert !OffsetByte(k - t.tab, t.cnt);
      assert b[nb..hi][k] == Inserted(sec, t.first, k);
      assert b[nb + k] != 0;
    }
  }

  /** Rewrites the object table of the grown section and appends the empty types when they fit. */
  method RewriteTable(o: array<byte>, nb: nat, sec: seq<byte>)
    requires CodeFits(sec, true) && WindowFits(sec, o.Length - nb)
    requires nb + |sec| + CODE_GROW <= o.Length && |sec| < 0x8000_0000
    requires forall x :: nb + 4 <= x < nb + |sec| + CODE_GROW ==>
      o[x] == Inserted(sec, ObjectsAt(sec).first, x - nb)
    modifies o
    ensures CodeGrown(sec, Rd(old(o[..]), nb), o[nb..nb + |sec| + CODE_GROW])
    ensures forall x :: 0 <= x < nb || nb + |sec| + CODE_GROW <= x < o.Length ==> o[x] == old(o[x])
  {
    ghost var hi := nb + |sec| + CODE_GROW;
    ShiftTable(o, nb, sec);
    assert Rd(o[..], nb) == Rd(old(o[..]), nb);
    var can, last := false, 0;
    if ObjectsAt(sec).cnt < OBJ_TYPES {
      assert o[..][nb..hi] == o[nb..hi];
      can, last := CanAppend(o, nb, sec, hi);
    }
    if can {
      AppendTable(o, nb, sec, last, hi);
    } else {
      WordInSlice(o[..], nb, hi, 0);
      assert o[..][nb..hi] == o[nb..hi];
      NothingAppended(sec, o[nb..hi]);
    }
  }

  lemma CleanInSlice(b: seq<byte>, lo: nat, hi: nat, from: nat, to: nat)
    requires lo + to <= hi <= |b|
    ensures (forall x :: lo + from <= x < lo + to ==> b[x] == 0)
       <==> (forall i :: from <= i < to ==> b[lo..hi][i] == 0)
  {
    if forall i :: from <= i < to ==> b[lo..hi][i] == 0 {
      forall x | lo + from <= x < lo + to ensures b[x] == 0 { assert b[lo..hi][x - lo] == 0; }
    }
  }

  /** With no type appended the count word is the old one. */
  lemma NothingAppended(sec: seq<byte>, now: seq<byte>)
    requires CodeFits(sec, true) && OffsetsShifted(sec, now) && !Appends(sec)
    ensures CodeGrown(sec, Rd(now, 0), now)
  {
    assert now[OBJ_TAB_CNT..OBJ_TAB_CNT + 4] == sec[OBJ_TAB_CNT..OBJ_TAB_CNT + 4];
    SameWord(now, OBJ_TAB_CNT, sec, OBJ_TAB_CNT);
  }

  method AppendTable(o: array<byte>, nb: nat, sec: seq<byte>, last: word, ghost hi: nat)
    requires CodeFits(sec, true) && hi == nb + |sec| + CODE_GROW <= o.Length
    requires OffsetsShifted(sec, o[nb..hi]) && Appends(sec) && last == LastOffset(sec)
    modifies o
    ensures CodeGrown(sec, Rd(old(o[..]), nb), o[nb..hi])
    ensures forall x :: 0 <= x < nb || hi <= x < o.Length ==> o[x] == old(o[x])
  {
    hide Rd, CodeGrown, GrownButCount, OffsetsShifted, IsEmptyEntry;
    var t := ObjectsAt(sec);
    ghost var was := o[nb..hi];
    WordInSlice(o[..], nb, hi, 0);
    assert o[..][nb..hi] == was;
    AppendEmpty(o, nb + t.tab, t.cnt, last);
    ghost var mid := o[nb..hi];
    EmptyInSlice(o[..], nb, hi, t.tab, nb + t.tab, t.cnt, last);
    assert o[..][nb..hi] == mid;
    TableAppended(sec, was, mid);
    PutCount(o, nb, sec, hi);
    SameWord(was, 0, mid, 0);
  }

  method PutCount(o: array<byte>, nb: nat, sec: seq<byte>, ghost hi: nat)
    requires CodeFits(sec, true) && hi == nb + |sec| + CODE_GROW <= o.Length && Appends(sec)
    requires GrownButCount(sec, o[nb..hi])
    modifies o
    ensures CodeGrown(sec, Rd(old(o[nb..hi]), 0), o[nb..hi])
    ensures forall x :: 0 <= x < nb || hi <= x < o.Length ==> o[x] == old(o[x])
  {
    ghost var was := o[nb..hi];
    Wr(o, nb + OBJ_TAB_CNT, OBJ_TYPES);
    ghost var now := o[nb..hi];
    assert o[..][nb..hi] == now;
    WordInSlice(o[..], nb, hi, OBJ_TAB_CNT);
    CountRewritten(sec, was, now);
  }

  lemma EmptyInSlice(b: seq<byte>, lo: nat, hi: nat, tab: nat, base: nat, cnt: nat, last: word)
    requires base == lo + tab && base + OBJ_ENTSZ * OBJ_TYPES <= hi <= |b|
    requires forall k :: cnt <= k < OBJ_TYPES ==> IsEmptyEntry(b, base, k, last)
    ensures forall k :: cnt <= k < OBJ_TYPES ==> IsEmptyEntry(b[lo..hi], tab, k, last)
  {
    forall k | cnt <= k < OBJ_TYPES ensures IsEmptyEntry(b[lo..hi], tab, k, last) {
      assert IsEmptyEntry(b, base, k, last);
      EntryInSlice(b, lo, hi, tab, k, 0);
      EntryInSlice(b, lo, hi, tab, k, 1);
      EntryInSlice(b, lo, hi, tab, k, 2);
      EntryInSlice(b, lo, hi, tab, k, 3);
      EntryInSlice(b, lo, hi, tab, k, 4);
    }
  }

  /** Everything but the count word is as it must be. */
  ghost predicate GrownButCount(sec: seq<byte>, now: seq<byte>)
    requires CodeFits(sec, true) && Appends(sec)
  {
    var t := ObjectsAt(sec);
    var tab := t.tab;
    && |now| == |sec| + CODE_GROW
    && (forall k :: 0 <= k < t.cnt ==> EntryWord(now, tab, k, 1) == Add32(EntryWord(sec, tab, k, 1), CODE_GROW))
    && (forall k :: t.cnt <= k < OBJ_TYPES ==> IsEmptyEntry(now, tab, k, LastOffset(sec)))
    && (forall i :: 0 <= i < |now| && !Rewritten(sec, i) ==> now[i] == Inserted(sec, t.first, i))
  }

  lemma TableAppended(sec: seq<byte>, was: seq<byte>, now: seq<byte>)
    requires CodeFits(sec, true) && Appends(sec) && OffsetsShifted(sec, was) && |now| == |was|
    requires ObjectsAt(sec).Limit() <= |now|
    requires forall k :: ObjectsAt(sec).cnt <= k < OBJ_TYPES ==>
      IsEmptyEntry(now, ObjectsAt(sec).tab, k, LastOffset(sec))
    requires forall i :: 0 <= i < |now| && !(ObjectsAt(sec).End() <= i < ObjectsAt(sec).Limit()) ==> now[i] == was[i]
    ensures GrownButCount(sec, now)
  {
    var t := ObjectsAt(sec);
    forall k | 0 <= k < t.cnt ensures EntryWord(now, t.tab, k, 1) == EntryWord(was, t.tab, k, 1) {
      SameEntryWord(was, now, t.tab, k, 1);
    }
  }

  lemma CountRewritten(sec: seq<byte>, was: seq<byte>, now: seq<byte>)
    requires CodeFits(sec, true) && Appends(sec) && GrownButCount(sec, was) && |now| == |was|
    requires forall i :: 0 <= i < |now| && !(OBJ_TAB_CNT <= i < OBJ_TAB_CNT + 4) ==> now[i] == was[i]
    requires Rd(now, OBJ_TAB_CNT) == OBJ_TYPES
    ensures CodeGrown(sec, Rd(was, 0), now)
  {
    var t := ObjectsAt(sec);
    forall k | 0 <= k < t.cnt ensures EntryWord(now, t.tab, k, 1) == EntryWord(was, t.tab, k, 1) {
      SameEntryWord(was, now, t.tab, k, 1);
    }
    forall k | t.cnt <= k < OBJ_TYPES ensures IsEmptyEntry(now, t.tab, k, LastOffset(sec)) {
      assert IsEmptyEntry(was, t.tab, k, LastOffset(sec));
      SameEmpty(was, now, t.tab, k, LastOffset(sec));
    }
    SameWord(was, 0, now, 0);
  }
}
