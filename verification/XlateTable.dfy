/** The translator's first stages: read the section table, measure, sort and place the sections. */
module XlateTable {
  import opened Words
  import opened XlateFormat
  import opened XlateLayout

  /** A row of the working table. */
  datatype Sec = Sec(e: Entry, rlen: int, newDoff: int, newPsz: word)

  ghost predicate Rows(s: seq<Sec>, table: seq<Entry>)
  {
    |s| == |table| && forall i :: 0 <= i < |s| ==> s[i].e == table[i]
  }

  method ParseTable(img: seq<byte>) returns (s: array<Sec>)
    requires DATA <= |img|
    ensures fresh(s) && Rows(s[..], Table(img))
    ensures forall i :: 0 <= i < s.Length ==> s[i].newPsz == s[i].e.psz
  {
    s := new Sec[SECCNT](_ => Sec(Entry(0, 0, 0, 0, 0), 0, 0, 0));
    var i := 0;
    while i < SECCNT
      invariant 0 <= i <= SECCNT
      invariant forall k :: 0 <= k < i ==> s[k].e == EntryAt(img, k) && s[k].newPsz == s[k].e.psz
    {
      var e := EntryAt(img, i);
      s[i] := Sec(e, 0, 0, e.psz);
      i := i + 1;
    }
  }

  ghost predicate Spanned(s: seq<Sec>, table: seq<Entry>, len: int)
  {
    Rows(s, table) && forall i :: 0 <= i < |s| ==> s[i].rlen == NextStart(table, s[i].e.doff, len) - s[i].e.doff
  }

  /** Each section is taken to run to the nearest start above its own, found by looking at all of them. */
  method ComputeSpans(s: array<Sec>, len: int, ghost table: seq<Entry>)
    requires Rows(s[..], table)
    modifies s
    ensures Spanned(s[..], table, len)
    ensures forall i :: 0 <= i < s.Length ==> s[i].newPsz == old(s[i].newPsz)
  {
    var i := 0;
    while i < s.Length
      invariant 0 <= i <= s.Length
      invariant Rows(s[..], table)
      invariant forall k :: 0 <= k < s.Length ==> s[k].newPsz == old(s[k].newPsz)
      invariant forall k :: 0 <= k < i ==> s[k].rlen == NextStart(table, s[k].e.doff, len) - s[k].e.doff
    {
      var best := BestEnd(s, s[i].e.doff, len, table);
      s[i] := s[i].(rlen := best - s[i].e.doff);
      i := i + 1;
    }
  }

  method BestEnd(s: array<Sec>, doff: int, len: int, ghost table: seq<Entry>) returns (best: int)
    requires Rows(s[..], table)
    ensures best == NextStart(table, doff, len)
  {
    best := len;
    var j := 0;
    while j < s.Length
      invariant 0 <= j <= s.Length
      invariant best == NextStart(table[..j], doff, len)
    {
      assert s[..][j].e == table[j];
      assert table[..j + 1][..j] == table[..j];
      if s[j].e.doff > doff && s[j].e.doff < best { best := s[j].e.doff; }
      j := j + 1;
    }
    assert table[..j] == table;
  }

  function NewPsz(e: Entry, grow: bool): word
  {
    match e.ty
    case 5 => if e.psz == 16 then 20 else e.psz
    case 2 => BUILD_LEN
    case 1 => if grow then Add32(e.psz, CODE_GROW) else e.psz
    case _ => e.psz
  }

  method ComputeSizes(s: array<Sec>, grow: bool)
    modifies s
    ensures forall i :: 0 <= i < s.Length ==> s[i] == old(s[i]).(newPsz := NewPsz(old(s[i]).e, grow))
  {
    var i := 0;
    while i < s.Length
      invariant 0 <= i <= s.Length
      invariant forall k :: 0 <= k < i ==> s[k] == old(s[k]).(newPsz := NewPsz(old(s[k]).e, grow))
      invariant forall k :: i <= k < s.Length ==> s[k] == old(s[k])
    {
      s[i] := s[i].(newPsz := NewPsz(s[i].e, grow));
      i := i + 1;
    }
  }

  ghost predicate NoRepeats(d: seq<int>)
  {
    forall i, j :: 0 <= i < j < |d| ==> d[i] != d[j]
  }

  /** Collects the distinct section starts and sorts them by insertion. */
  method CollectStarts(s: array<Sec>, ghost table: seq<Entry>) returns (doffs: array<int>, nd: nat)
    requires Rows(s[..], table)
    ensures fresh(doffs) && nd <= doffs.Length && doffs[..nd] == Starts(table)
  {
    doffs, nd := Dedup(s, table);
    SortStarts(doffs, nd);
    AscendingUnique(doffs[..nd], Starts(table));
  }

  method Dedup(s: array<Sec>, ghost table: seq<Entry>) returns (doffs: array<int>, nd: nat)
    requires Rows(s[..], table)
    ensures fresh(doffs) && nd <= doffs.Length && NoRepeats(doffs[..nd])
    ensures forall x :: x in doffs[..nd] <==> x in Starts(table)
  {
    doffs := new int[s.Length];
    nd := 0;
    var i := 0;
    while i < s.Length
      invariant 0 <= nd <= i <= s.Length == doffs.Length == |table|
      invariant NoRepeats(doffs[..nd])
      invariant forall x :: x in doffs[..nd] <==> x in Starts(table[..i])
    {
      assert s[..][i].e == table[i];
      StartsSnoc(table, i);
      var seen := Contains(doffs, nd, s[i].e.doff);
      ghost var before := doffs[..nd];
      if !seen {
        doffs[nd] := s[i].e.doff;
        nd := nd + 1;
        assert doffs[..nd] == before + [s[i].e.doff];
      }
      i := i + 1;
    }
    assert table[..i] == table;
  }

  method Contains(doffs: array<int>, nd: nat, v: int) returns (seen: bool)
    requires nd <= doffs.Length
    ensures seen <==> v in doffs[..nd]
  {
    seen := false;
    var k := 0;
    while k < nd
      invariant 0 <= k <= nd
      invariant v !in doffs[..k]
    {
      if doffs[k] == v { return true; }
      k := k + 1;
    }
  }

  /** Insertion sort in place of a[..n]. */
  method SortStarts(a: array<int>, n: nat)
    requires n <= a.Length && NoRepeats(a[..n])
    modifies a
    ensures Ascending(a[..n])
    ensures forall x :: x in a[..n] <==> x in old(a[..n])
  {
    var k := 1;
    while k < n
      invariant 1 <= k
      invariant NoRepeats(a[..n])
      invariant Ascending(a[..if k <= n then k else n])
      invariant forall x :: x in a[..n] <==> x in old(a[..n])
    {
      InsertInto(a, k, n);
      k := k + 1;
    }
  }

  /** Element k has moved down to place h and the larger ones between have moved up by one. */
  ghost predicate Shifted(was: seq<int>, now: seq<int>, h: nat, k: nat)
  {
    && |was| == |now| && h <= k < |was|
    && now[h] == was[k] && (h > 0 ==> was[h - 1] <= was[k])
    && (forall i :: 0 <= i < h ==> now[i] == was[i])
    && (forall i :: h < i <= k ==> now[i] == was[i - 1] && now[i] > was[k])
    && (forall i :: k < i < |was| ==> now[i] == was[i])
  }

  method InsertInto(a: array<int>, k: nat, n: nat)
    requires 0 < k < n <= a.Length && NoRepeats(a[..n]) && Ascending(a[..k])
    modifies a
    ensures Ascending(a[..k + 1]) && NoRepeats(a[..n])
    ensures forall x :: x in a[..n] <==> x in old(a[..n])
  {
    ghost var was := a[..n];
    assert was[..k] == a[..k];
    ghost var h := ShiftInto(a, k, n);
    InsertedSame(was, a[..n], h, k);
    assert a[..n][..k + 1] == a[..k + 1];
  }

  /** Shifts the larger elements of the sorted prefix a[..k] up by one and drops a[k] in the hole. */
  method ShiftInto(a: array<int>, k: nat, ghost n: nat) returns (ghost h: nat)
    requires 0 < k < n <= a.Length
    modifies a
    ensures Shifted(old(a[..n]), a[..n], h, k)
  {
    var v := a[k];
    var b := k - 1;
    while b >= 0 && a[b] > v
      invariant -1 <= b < k
      invariant forall i :: 0 <= i <= b ==> a[i] == old(a[i])
      invariant forall i :: b + 1 < i <= k ==> a[i] == old(a[i - 1]) && a[i] > v
      invariant forall i :: k < i < a.Length ==> a[i] == old(a[i])
    {
      a[b + 1] := a[b];
      b := b - 1;
    }
    a[b + 1] := v;
    h := b + 1;
  }

  /** Shifting a smaller element down keeps the elements and sorts the prefix. */
  lemma InsertedSame(was: seq<int>, now: seq<int>, h: nat, k: nat)
    requires Shifted(was, now, h, k) && NoRepeats(was) && Ascending(was[..k])
    ensures Ascending(now[..k + 1]) && NoRepeats(now)
    ensures forall x :: x in now <==> x in was
  {
    forall i, j | 0 <= i < j < |now| ensures now[i] != now[j] {
      var ii := if i < h || i > k then i else if i == h then k else i - 1;
      var jj := if j < h || j > k then j else if j == h then k else j - 1;
      assert now[i] == was[ii] && now[j] == was[jj] && ii != jj;
    }
    forall q | h <= q < k ensures was[q] > was[k] {
      assert now[q + 1] == was[q];
    }
    forall i, j | 0 <= i < j < k + 1 ensures now[i] < now[j] {
      AscendingShift(was, h, k, i, j);
    }
    forall x | x in was ensures x in now {
      var i :| 0 <= i < |was| && was[i] == x;
      var at := if i < h || i > k then i else if i == k then h else i + 1;
      assert now[at] == x;
    }
  }

  lemma AscendingShift(was: seq<int>, h: nat, k: nat, i: nat, j: nat)
    requires h <= k < |was| && NoRepeats(was) && Ascending(was[..k]) && i < j <= k
    requires h > 0 ==> was[h - 1] <= was[k]
    requires forall q :: h <= q < k ==> was[q] > was[k]
    ensures (if i < h then was[i] else if i == h then was[k] else was[i - 1])
          < (if j < h then was[j] else if j == h then was[k] else was[j - 1])
  {
    assert forall p, q :: 0 <= p < q < k ==> was[..k][p] < was[..k][q];
    if i < h == j {
      assert was[i] <= was[h - 1];
      assert was[h - 1] != was[k];
    }
  }

  /** The last row that starts at od, with its length. */
  method FindOwner(s: seq<Sec>, od: int, ghost p: Plan, ghost j: nat) returns (owner: int, orl: int)
    requires p.Valid() && Spanned(s, p.table, p.len) && j < |p.starts| && p.starts[j] == od
    ensures 0 <= owner < |s| && owner == LastAt(p.table, od) && s[owner].e == p.Owner(j)
    ensures orl == p.Span(j)
  {
    NextStartIsEnd(p, j);
    owner, orl := -1, 0;
    var i := 0;
    while i < |s|
      invariant 0 <= i <= |s|
      invariant -1 <= owner < i
      invariant if owner < 0 then orl == 0 else s[owner].e.doff == od && orl == p.Span(j)
      invariant forall k :: owner < k < i ==> s[k].e.doff != od
    {
      if s[i].e.doff == od && s[i].rlen >= orl { orl := s[i].rlen; owner := i; }
      i := i + 1;
    }
    var e := EntryOf(p, j);
    assert s[e].e == p.table[e];
    assert owner >= 0;
    assert s[owner].e == p.table[owner];
  }

  /** Where the row of entry e must end up. */
  ghost predicate PlacedAt(p: Plan, x: Sec)
  {
    && (forall j :: 0 < j < |p.starts| && x.e.doff == p.starts[j] ==> x.newDoff == p.New(j))
    && (x.e.ty == 2 && x.e.doff == DATA ==> x.newDoff == DATA)
    && (x.e.ty == 10 && x.e.doff == DATA ==> x.newDoff == 0x208)
  }

  ghost predicate PlacedUpTo(p: Plan, s: seq<Sec>, d: nat)
  {
    forall i, j :: 0 <= i < |s| && 0 < j < d && j < |p.starts| && s[i].e.doff == p.starts[j]
      ==> s[i].newDoff == p.New(j)
  }

  /** A row of the header group gets its place when the running offset is cur; other rows stay. */
  function HeaderRow(x: Sec, cur: int): Sec
  {
    if x.e.doff == DATA && x.e.ty == 2 then x.(newDoff := cur)
    else if x.e.doff == DATA && x.e.ty == 10 then x.(newDoff := (cur + BUILD_LEN + 7) / 8 * 8)
    else x
  }

  /** Places the header group: build key first, program header 8-aligned behind it. */
  method PlaceHeader(s: array<Sec>, cur: int)
    modifies s
    requires forall i, j :: 0 <= i < j < s.Length ==> s[i].e.ty != s[j].e.ty
    ensures forall i :: 0 <= i < s.Length ==> s[i] == HeaderRow(old(s[i]), cur)
  {
    var eof, ph := -1, -1;
    var i := 0;
    while i < s.Length
      invariant 0 <= i <= s.Length
      invariant -1 <= eof < i && -1 <= ph < i
      invariant eof >= 0 ==> s[eof].e.doff == DATA && s[eof].e.ty == 2
      invariant ph >= 0 ==> s[ph].e.doff == DATA && s[ph].e.ty == 10
      invariant forall k :: eof < k < i ==> !(s[k].e.doff == DATA && s[k].e.ty == 2)
      invariant forall k :: ph < k < i ==> !(s[k].e.doff == DATA && s[k].e.ty == 10)
    {
      if s[i].e.doff == DATA && s[i].e.ty == 2 { eof := i; }
      if s[i].e.doff == DATA && s[i].e.ty == 10 { ph := i; }
      i := i + 1;
    }
    if eof >= 0 { s[eof] := s[eof].(newDoff := cur); }
    if ph >= 0 { s[ph] := s[ph].(newDoff := (cur + BUILD_LEN + 7) / 8 * 8); }
  }

  method PlaceAll(s: array<Sec>, od: int, cur: int)
    modifies s
    ensures forall i :: 0 <= i < s.Length ==>
      s[i] == if old(s[i]).e.doff == od then old(s[i]).(newDoff := cur) else old(s[i])
  {
    var i := 0;
    while i < s.Length
      invariant 0 <= i <= s.Length
      invariant forall k :: 0 <= k < i ==>
        s[k] == if old(s[k]).e.doff == od then old(s[k]).(newDoff := cur) else old(s[k])
      invariant forall k :: i <= k < s.Length ==> s[k] == old(s[k])
    {
      if s[i].e.doff == od { s[i] := s[i].(newDoff := cur); }
      i := i + 1;
    }
  }

  /** A table whose every row knows its span and its new place, and the map from old to new starts. */
  ghost predicate Laid(p: Plan, s: seq<Sec>, mapNew: seq<int>)
  {
    && p.Fits()
    && Spanned(s, p.table, p.len)
    && (forall i :: 0 <= i < |s| ==> PlacedAt(p, s[i]) && s[i].newPsz == NewPsz(s[i].e, p.grow))
    && |mapNew| == |p.starts|
    && (forall j :: 0 <= j < |p.starts| ==> mapNew[j] == p.New(j))
  }

  ghost predicate HeaderPlaced(s: seq<Sec>)
  {
    forall i :: 0 <= i < |s| && s[i].e.doff == DATA ==>
      (s[i].e.ty == 2 ==> s[i].newDoff == DATA) && (s[i].e.ty == 10 ==> s[i].newDoff == 0x208)
  }

  /** The rows after the first d starts have been placed. */
  ghost predicate Progress(p: Plan, s: seq<Sec>, d: nat)
  {
    && Spanned(s, p.table, p.len)
    && (forall i :: 0 <= i < |s| ==> s[i].newPsz == NewPsz(s[i].e, p.grow))
    && (d > 0 ==> HeaderPlaced(s))
    && PlacedUpTo(p, s, d)
  }

  /** Lays the sections out again, one start after the other. */
  method Place(s: array<Sec>, doffs: seq<int>, grow: bool, ghost p: Plan) returns (mapNew: seq<int>, cur: int)
    requires p.Fits() && p.grow == grow && doffs == p.starts
    requires Progress(p, s[..], 0)
    modifies s
    ensures Laid(p, s[..], mapNew)
    ensures cur == p.New(|p.starts|)
  {
    hide *;
    mapNew := [];
    cur := DataStart(p);
    var d := 0;
    while d < |doffs|
      invariant 0 <= d <= |doffs| == |p.starts|
      invariant cur == p.New(d)
      invariant |mapNew| == d && (forall j :: 0 <= j < d ==> mapNew[j] == p.New(j))
      invariant Progress(p, s[..], d)
    {
      mapNew := mapNew + [cur];
      cur := PlaceOne(s, doffs[d], cur, grow, p, d);
      d := d + 1;
    }
    AllPlaced(p, s[..], mapNew);
  }

  /** The first byte behind the section table. */
  function DataStart(ghost p: Plan): (cur: nat)
    ensures cur == p.New(0)
  {
    TABOFF + SECCNT * ENTSZ
  }

  lemma AllPlaced(p: Plan, s: seq<Sec>, mapNew: seq<int>)
    requires p.Fits() && Progress(p, s, |p.starts|)
    requires |mapNew| == |p.starts| && forall j :: 0 <= j < |p.starts| ==> mapNew[j] == p.New(j)
    ensures Laid(p, s, mapNew)
  {
    StartShape(p);
    forall i | 0 <= i < |s| ensures PlacedAt(p, s[i]) {
      assert s[i].e == p.table[i];
    }
  }

  method PlaceOne(s: array<Sec>, od: int, cur: int, grow: bool, ghost p: Plan, ghost d: nat) returns (next: int)
    requires p.Fits() && p.grow == grow && d < |p.starts| && od == p.starts[d]
    requires cur == p.New(d)
    requires Progress(p, s[..], d)
    modifies s
    ensures next == p.New(d + 1)
    ensures Progress(p, s[..], d + 1)
  {
    ghost var was := s[..];
    StartShape(p);
    if od == DATA {
      TypesDiffer(p, s[..]);
      PlaceHeader(s, cur);
      next := (cur + BUILD_LEN + 7) / 8 * 8 + HEADER;
      AfterHeader(p, was, s[..]);
    } else {
      var placed := Placed(s[..], od, grow, p, d);
      PlaceAll(s, od, cur);
      next := Align4(cur + placed);
      AfterMove(p, was, s[..], d);
    }
  }

  lemma AfterHeader(p: Plan, was: seq<Sec>, now: seq<Sec>)
    requires p.Valid() && Progress(p, was, 0)
    requires |now| == |was| && forall i :: 0 <= i < |was| ==> now[i] == HeaderRow(was[i], DATA)
    ensures Progress(p, now, 1)
  {}

  lemma AfterMove(p: Plan, was: seq<Sec>, now: seq<Sec>, d: nat)
    requires p.Valid() && 0 < d < |p.starts| && p.starts[d] != DATA && Progress(p, was, d)
    requires |now| == |was|
    requires forall i :: 0 <= i < |was| ==>
      now[i] == if was[i].e.doff == p.starts[d] then was[i].(newDoff := p.New(d)) else was[i]
    ensures Progress(p, now, d + 1)
  {}

  lemma TypesDiffer(p: Plan, s: seq<Sec>)
    requires p.Valid() && Rows(s, p.table)
    ensures forall i, j :: 0 <= i < j < |s| ==> s[i].e.ty != s[j].e.ty
  {}

  /** The bytes that slot d needs. */
  method Placed(s: seq<Sec>, od: int, grow: bool, ghost p: Plan, ghost d: nat) returns (placed: int)
    requires p.Fits() && p.grow == grow && 0 < d < |p.starts| && od == p.starts[d]
    requires Spanned(s, p.table, p.len)
    ensures placed == p.Room(d) && placed > 0
  {
    var owner, orl := FindOwner(s, od, p, d);
    placed := orl;
    if s[owner].e.ty == 5 { placed := if s[owner].e.psz == 16 then 20 else s[owner].rlen; }
    if s[owner].e.ty == 1 && grow { placed := orl + CODE_GROW; }
    RoomBounds(p, d);
    NextStartIsEnd(p, d);
  }

  lemma PhNewBound(p: Plan)
    requires p.Fits()
    ensures 0 <= p.PhNew() < 0x8000_0000
  {
    NewFileFits(p);
    var i := FindType(p.table, 10);
    if i >= 0 && p.table[i].doff != DATA {
      var k := p.SlotFrom(p.table[i].doff, 0);
      if k < |p.starts| { SlotsDisjoint(p, k, |p.starts|); }
    }
  }

  lemma RelocIsWord(p: Plan, ov: word)
    requires p.Fits()
    ensures 0 <= p.Reloc(ov) < WORD
  {
    StartShape(p);
    PhNewBound(p);
    var k := p.SlotFrom(ov, 0);
    if k < |p.starts| {
      SlotAligned(p, k);
      NewFileFits(p);
      SlotsDisjoint(p, k, |p.starts|);
      ReachIsSpan(p, k);
      if k > 0 { RoomBounds(p, k); }
    }
  }

  /** The finished table and the two maps, as relocation consults them. */
  datatype Maps = Maps(s: seq<Sec>, mapOld: seq<int>, mapNew: seq<int>, phNew: int)

  ghost predicate MapsOf(p: Plan, m: Maps)
  {
    Laid(p, m.s, m.mapNew) && m.mapOld == p.starts && m.phNew == p.PhNew()
  }

  /** Offsets below the data, zero among them, are never moved. */
  lemma RelocBelow(p: Plan, ov: int)
    requires p.Fits() && ov < DATA
    ensures p.Reloc(ov) == ov && !p.Matched(ov)
  {
    StartShape(p);
  }

  /** The original's RELOC and RELOC_IF: first the header group, then the slots in order. */
  method Relocate(maps: Maps, ov: word, ghost p: Plan) returns (nv: word, matched: bool)
    requires MapsOf(p, maps)
    ensures nv == p.Reloc(ov) && matched == p.Matched(ov)
    ensures !matched ==> nv == ov
  {
    RelocIsWord(p, ov);
    if DATA <= ov < DATA + HEADER { return maps.phNew + (ov - DATA), true; }
    var m := 0;
    while m < |maps.mapOld|
      invariant 0 <= m <= |maps.mapOld|
      invariant p.SlotFrom(ov, 0) == p.SlotFrom(ov, m)
    {
      var start := maps.mapOld[m];
      var ml := ReachOf(maps.s, start, p, m);
      if start <= ov < start + ml { return maps.mapNew[m] + (ov - start), true; }
      m := m + 1;
    }
    return ov, false;
  }

  method ReachOf(s: seq<Sec>, old_: int, ghost p: Plan, ghost j: nat) returns (ml: int)
    requires p.Valid() && Spanned(s, p.table, p.len) && j < |p.starts| && p.starts[j] == old_
    ensures ml == p.Reach(j)
  {
    NextStartIsEnd(p, j);
    ml := 0;
    var i := 0;
    ghost var seen := false;
    while i < |s|
      invariant 0 <= i <= |s|
      invariant ml == if seen then p.Span(j) else 0
      invariant seen <==> exists k :: 0 <= k < i && s[k].e.doff == old_
    {
      if s[i].e.doff == old_ {
        if s[i].rlen > ml { ml := s[i].rlen; }
        seen := true;
      }
      i := i + 1;
    }
    var e := EntryOf(p, j);
    assert s[e].e == p.table[e];
    if old_ == DATA { ml := HEADER + BUILD_LEN; }
  }
}
