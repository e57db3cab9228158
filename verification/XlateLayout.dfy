/** What the new layout keeps: order, room, alignment, and the meaning of an offset. */
module XlateLayout {
  import opened XlateFormat

  lemma StartOf(p: Plan, i: nat)
    requires p.starts == Starts(p.table) && i < |p.table|
    ensures p.table[i].doff in p.starts
  {
    StartsAre(p.table, |p.table|, p.table[i].doff);
    assert p.table[..|p.table|] == p.table;
  }

  lemma EntryOf(p: Plan, j: nat) returns (i: nat)
    requires p.starts == Starts(p.table) && j < |p.starts|
    ensures i < |p.table| && p.table[i].doff == p.starts[j]
  {
    StartsAre(p.table, |p.table|, p.starts[j]);
    assert p.table[..|p.table|] == p.table;
    i :| 0 <= i < |p.table| && p.table[i].doff == p.starts[j];
  }

  /** Sections start at the data offset and then beyond the header group; there are always some beyond. */
  lemma StartShape(p: Plan)
    requires p.Valid()
    ensures |p.starts| >= 2 && p.starts[0] == DATA
    ensures forall j :: 0 < j < |p.starts| ==> DATA + HEADER + BUILD_LEN <= p.starts[j]
    ensures forall j :: 0 <= j < |p.starts| ==> p.starts[j] < p.len
  {
    var S := p.starts;
    var at :| 0 <= at < |p.table| && p.table[at].doff == DATA;
    StartOf(p, at);
    forall j | 0 <= j < |S| ensures DATA <= S[j] < p.len && !(DATA < S[j] < DATA + HEADER + BUILD_LEN) {
      var i := EntryOf(p, j);
    }
    var z :| 0 <= z < |S| && S[z] == DATA;
    assert forall j :: 0 < j < |S| ==> S[0] < S[j];
    var k := if p.table[0].ty == 2 || p.table[0].ty == 10 then
               (if p.table[1].ty == 2 || p.table[1].ty == 10 then 2 else 1) else 0;
    assert p.table[k].doff != DATA;
    StartOf(p, k);
  }

  /** The quadratic search for the best end finds the next start: sections lie back to back. */
  lemma NextStartIsEnd(p: Plan, j: nat)
    requires p.Valid() && j < |p.starts|
    ensures NextStart(p.table, p.starts[j], p.len) == p.End(j)
    ensures p.starts[j] < p.End(j) <= p.len
  {
    StartShape(p);
    var S := p.starts;
    var best := NextStart(p.table, S[j], p.len);
    NextStartBounds(p.table, S[j], p.len);
    if j + 1 < |S| {
      var i := EntryOf(p, j + 1);
      assert best <= S[j + 1];
    }
    if best != p.len {
      var i :| 0 <= i < |p.table| && p.table[i].doff == best;
      StartOf(p, i);
      var k :| 0 <= k < |S| && S[k] == best;
      assert j < k;
    }
  }

  /** Every slot has room for its old bytes, and for at most CODE_GROW more. */
  lemma RoomBounds(p: Plan, j: nat)
    requires p.Fits() && 0 < j < |p.starts|
    ensures 0 < p.Span(j) <= p.Room(j) <= p.Span(j) + CODE_GROW
  {
    NextStartIsEnd(p, j);
  }

  /** New slots are 4-aligned; the next one starts at most three bytes after one ends, four after the header group. */
  lemma SlotStep(p: Plan, j: nat)
    requires p.Fits() && j < |p.starts|
    ensures p.New(j + 1) % 4 == 0
    ensures p.New(j) < p.New(j) + p.Extent(j) <= p.New(j + 1)
    ensures p.New(j + 1) < p.New(j) + p.Extent(j) + 4 + (if j == 0 then 4 else 0)
  {
    if j > 0 { RoomBounds(p, j); }
  }

  lemma SlotAligned(p: Plan, j: nat)
    requires p.Fits() && j <= |p.starts|
    ensures p.New(j) % 4 == 0 && DATA <= p.New(j)
  {
    if j > 1 {
      SlotAligned(p, j - 1);
      SlotStep(p, j - 1);
    }
  }

  /** New slots keep the old order and are disjoint: slot i ends before any later slot starts. */
  lemma {:induction false} SlotsDisjoint(p: Plan, i: nat, j: nat)
    requires p.Fits() && i < j <= |p.starts|
    ensures p.New(i) < p.New(i) + p.Extent(i) <= p.New(j)
    decreases j
  {
    hide *;
    var before := j - 1;
    SlotStep(p, before);
    if i < before {
      SlotsDisjoint(p, i, before);
      assert p.New(before) < p.New(j);
    }
  }

  lemma DistinctStarts(p: Plan)
    requires p.Valid()
    ensures |p.starts| <= SECCNT
  {
    StartsAtMost(p.table);
  }

  lemma {:induction false} StartsAtMost(t: seq<Entry>)
    ensures |Starts(t)| <= |t|
  {
    if t != [] {
      var n := |t| - 1;
      StartsAtMost(t[..n]);
      InsertAddsOne(Starts(t[..n]), t[n].doff);
    }
  }

  lemma {:induction false} InsertAddsOne(s: seq<int>, v: int)
    requires Ascending(s)
    ensures |Insert(s, v)| <= |s| + 1
  {
    var n := |s| - 1;
    if s != [] && s[n] > v { InsertAddsOne(s[..n], v); }
  }

  /** Slot j never moves further than 0x58 plus one growth and padding per slot before it. */
  lemma {:induction false} NewBound(p: Plan, j: nat)
    requires p.Fits() && 0 < j <= |p.starts|
    ensures p.New(j) <= (if j < |p.starts| then p.starts[j] else p.len) + 4 + (CODE_GROW + 3) * (j - 1)
  {
    StartShape(p);
    if j == 1 {
    } else {
      NewBound(p, j - 1);
      SlotStep(p, j - 1);
      RoomBounds(p, j - 1);
    }
  }

  /** No 32-bit offset wraps: the new file is smaller than 2^31. */
  lemma NewFileFits(p: Plan)
    requires p.Fits()
    ensures p.New(|p.starts|) < 0x8000_0000
  {
    DistinctStarts(p);
    StartShape(p);
    NewBound(p, |p.starts|);
  }

  lemma ReachIsSpan(p: Plan, j: nat)
    requires p.Valid() && j < |p.starts|
    ensures p.Reach(j) == if j == 0 then HEADER + BUILD_LEN else p.Span(j)
  {
    StartShape(p);
  }

  /** No slot before j reaches slot j. */
  lemma SlotsApart(p: Plan, k: nat, j: nat, at: int)
    requires p.Fits() && k < j < |p.starts| && p.starts[j] <= at
    ensures !p.InSlot(at, k)
  {
    StartShape(p);
    ReachIsSpan(p, k);
    assert p.starts[k + 1] <= p.starts[j];
  }

  /** Old offset at in slot j > 0 is found in slot j and moves with it. */
  lemma RelocInSlot(p: Plan, j: nat, at: int)
    requires p.Fits() && 0 < j < |p.starts| && p.starts[j] <= at < p.End(j)
    ensures p.Matched(at) && p.SlotFrom(at, 0) == j
    ensures p.Reloc(at) == p.New(j) + (at - p.starts[j])
    ensures p.New(j) <= p.Reloc(at) < p.New(j) + p.Room(j)
  {
    StartShape(p);
    RoomBounds(p, j);
    ReachIsSpan(p, j);
    var k := p.SlotFrom(at, 0);
    assert p.InSlot(at, j);
    assert k <= j;
    if k < j { SlotsApart(p, k, j, at); }
  }

  /** Every old offset from the first moved section to the end of the file lies in some slot. */
  lemma SlotOf(p: Plan, at: int) returns (j: nat)
    requires p.Fits() && |p.starts| >= 2 && p.starts[1] <= at < p.len
    ensures 0 < j < |p.starts| && p.starts[j] <= at < p.End(j)
  {
    j := 1;
    while p.End(j) <= at
      invariant 0 < j < |p.starts| && p.starts[j] <= at
      decreases |p.starts| - j
    {
      j := j + 1;
    }
  }

  /** Relocation keeps the order of offsets that lie in moved sections. */
  lemma RelocIncreasing(p: Plan, a: int, b: int)
    requires p.Fits() && |p.starts| >= 2 && p.starts[1] <= a < b < p.len
    ensures p.Reloc(a) < p.Reloc(b)
  {
    var i := SlotOf(p, a);
    var j := SlotOf(p, b);
    RelocInSlot(p, i, a);
    RelocInSlot(p, j, b);
    if i < j { SlotsDisjoint(p, i, j); }
    if j < i { assert p.End(j) == p.starts[j + 1] <= p.starts[i]; }
  }

  /** Offsets of the padding before the first moved section belong to no section and stay put. */
  lemma RelocGap(p: Plan, at: int)
    requires p.Fits() && |p.starts| >= 2 && DATA + HEADER + BUILD_LEN <= at < p.starts[1]
    ensures p.Reloc(at) == at && !p.Matched(at)
  {
    StartShape(p);
    forall k | 0 <= k < |p.starts| ensures !p.InSlot(at, k) {
      ReachIsSpan(p, k);
      assert k > 0 ==> p.starts[1] <= p.starts[k];
    }
  }

  ghost predicate IncreasingFrom(p: Plan, lo: int)
  {
    forall a, b :: lo <= a < b < p.len ==> p.Reloc(a) < p.Reloc(b)
  }

  /**
   * On every offset from 0x244 to the end of the file, relocation is strictly increasing exactly
   * when the first moved section starts at or before 0x248: an unused gap in front of it stays put
   * while the section moves down to 0x248.
   */
  lemma RelocIncreasingEverywhere(p: Plan)
    requires p.Fits()
    ensures |p.starts| >= 2
    ensures IncreasingFrom(p, DATA + HEADER + BUILD_LEN) <==> p.starts[1] <= 0x248
  {
    StartShape(p);
    var first := p.starts[1];
    NextStartIsEnd(p, 1);
    RelocInSlot(p, 1, first);
    if first > 0x248 {
      RelocGap(p, first - 1);
      assert p.Reloc(first) <= p.Reloc(first - 1);
    } else {
      forall a, b | DATA + HEADER + BUILD_LEN <= a < b < p.len ensures p.Reloc(a) < p.Reloc(b) {
        if a >= first {
          RelocIncreasing(p, a, b);
        } else {
          RelocGap(p, a);
          if b < first {
            RelocGap(p, b);
          } else if first < b {
            RelocIncreasing(p, first, b);
          }
        }
      }
    }
  }
}
