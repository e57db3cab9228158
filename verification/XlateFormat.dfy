/** The program-binary container: its section table, and where translation puts each section. */
module XlateFormat {
  import opened Words

  const MAGIC := 0xb10bcace
  const VER_V2 := 0x00010002
  const VER_V7 := 0x00010007
  const H14_V7 := 0x00000301
  const SECCNT := 13
  const TABOFF := 0x50
  const ENTSZ := 0x20
  /** The first byte after the section table. */
  const DATA := 0x1f0
  /** The build key and the program header travel as one group of BUILD_LEN + HEADER bytes. */
  const BUILD_LEN := 20
  const HEADER := 64
  const CODE_GROW := 0x38

  /** A section table entry; its remaining three words are not read. */
  datatype Entry = Entry(ty: word, doff: word, psz: word, count: word, next: word)

  function EntryAt(img: seq<byte>, i: nat): Entry
    requires i < SECCNT && DATA <= |img|
  {
    var o := TABOFF + i * ENTSZ;
    Entry(Rd(img, o), Rd(img, o + 0x04), Rd(img, o + 0x08), Rd(img, o + 0x0c), Rd(img, o + 0x10))
  }

  function Table(img: seq<byte>): (t: seq<Entry>)
    requires DATA <= |img|
    ensures |t| == SECCNT
  {
    seq(SECCNT, i requires 0 <= i < SECCNT => EntryAt(img, i))
  }

  ghost predicate Ascending(s: seq<int>)
  {
    forall i, j :: 0 <= i < j < |s| ==> s[i] < s[j]
  }

  /** Inserts v in its place, unless it is there already. */
  function Insert(s: seq<int>, v: int): (r: seq<int>)
    requires Ascending(s)
    ensures Ascending(r)
    ensures forall x :: x in r <==> x in s || x == v
  {
    var n := |s| - 1;
    if s == [] || s[n] < v then s + [v]
    else if s[n] == v then s
    else
      var r := Insert(s[..n], v);
      assert s == s[..n] + [s[n]];
      assert forall x :: x in s[..n] ==> x < s[n];
      assert forall x :: x in r ==> x < s[n];
      assert forall i :: 0 <= i < |r| ==> r[i] in r;
      r + [s[n]]
  }

  /** The distinct section starts, in order. */
  function Starts(table: seq<Entry>): (r: seq<int>)
    ensures Ascending(r)
  {
    if table == [] then []
    else Insert(Starts(table[..|table| - 1]), table[|table| - 1].doff)
  }

  lemma StartsSnoc(table: seq<Entry>, n: nat)
    requires n < |table|
    ensures forall x :: x in Starts(table[..n + 1]) <==> x in Starts(table[..n]) || x == table[n].doff
  {
    var t := table[..n + 1];
    assert t[..|t| - 1] == table[..n] && t[|t| - 1] == table[n];
    assert Starts(t) == Insert(Starts(table[..n]), table[n].doff);
  }

  lemma {:induction false} StartsAre(table: seq<Entry>, n: nat, x: int)
    requires n <= |table|
    ensures x in Starts(table[..n]) <==> exists i :: 0 <= i < n && table[i].doff == x
  {
    if n > 0 {
      StartsAre(table, n - 1, x);
      StartsSnoc(table, n - 1);
      hide Starts;
      if exists i :: 0 <= i < n && table[i].doff == x {
        var i :| 0 <= i < n && table[i].doff == x;
        assert i < n - 1 || x == table[n - 1].doff;
      } else {
        assert table[n - 1].doff != x;
      }
    }
  }

  lemma {:induction false} AscendingUnique(s: seq<int>, t: seq<int>)
    requires Ascending(s) && Ascending(t)
    requires forall x :: x in s <==> x in t
    ensures s == t
  {
    assert s != [] ==> s[0] in s;
    assert t != [] ==> t[0] in t;
    if s == [] || t == [] {
    } else {
      var m, n := |s| - 1, |t| - 1;
      assert s[m] in t && t[n] in s;
      assert s[m] == t[n];
      assert s == s[..m] + [s[m]] && t == t[..n] + [t[n]];
      forall x ensures x in s[..m] <==> x in t[..n] {
        assert x in s <==> x in t;
        assert x in s[..m] <==> x in s && x != s[m];
        assert x in t[..n] <==> x in t && x != t[n];
      }
      AscendingUnique(s[..m], t[..n]);
    }
  }

  /** The least section start above d, or len when there is none. */
  function NextStart(table: seq<Entry>, d: int, len: int): int
  {
    if table == [] then len
    else
      var n := |table| - 1;
      var best := NextStart(table[..n], d, len);
      if d < table[n].doff < best then table[n].doff else best
  }

  lemma {:induction false} NextStartBounds(table: seq<Entry>, d: int, len: int)
    requires d < len
    ensures d < NextStart(table, d, len) <= len
    ensures NextStart(table, d, len) == len
         || exists i :: 0 <= i < |table| && table[i].doff == NextStart(table, d, len)
    ensures forall i :: 0 <= i < |table| && d < table[i].doff ==> NextStart(table, d, len) <= table[i].doff
  {
    if table != [] {
      var n := |table| - 1;
      NextStartBounds(table[..n], d, len);
      forall i | 0 <= i < |table| && d < table[i].doff
        ensures NextStart(table, d, len) <= table[i].doff
      {
        if i < n { assert table[..n][i] == table[i]; }
      }
      var best := NextStart(table[..n], d, len);
      if !(d < table[n].doff < best) && best != len {
        var i :| 0 <= i < n && table[..n][i].doff == best;
        assert table[i].doff == best;
      }
    }
  }

  /** Index of the last entry starting at d, or -1. */
  function LastAt(table: seq<Entry>, d: int): (i: int)
    ensures -1 <= i < |table|
    ensures i >= 0 ==> table[i].doff == d
    ensures forall k :: i < k < |table| ==> table[k].doff != d
  {
    if table == [] then -1
    else if table[|table| - 1].doff == d then |table| - 1
    else LastAt(table[..|table| - 1], d)
  }

  /** The first entry of a type, or -1. */
  function FindType(table: seq<Entry>, ty: word): (i: int)
    ensures -1 <= i < |table|
    ensures i >= 0 ==> table[i].ty == ty
    ensures forall k :: 0 <= k < (if i < 0 then |table| else i) ==> table[k].ty != ty
  {
    if table == [] then -1
    else
      var i := FindType(table[..|table| - 1], ty);
      if i >= 0 then i else if table[|table| - 1].ty == ty then |table| - 1 else -1
  }

  predicate HasType(table: seq<Entry>, ty: word)
  {
    exists i :: 0 <= i < |table| && table[i].ty == ty
  }

  /** Types whose contents are rewritten; each needs a start of its own. */
  predicate Exclusive(ty: word) { ty == 1 || ty == 3 || ty == 5 || ty == 9 }

  /** (n + 3) & ~3 */
  function Align4(n: nat): (r: nat)
    ensures r % 4 == 0 && n <= r < n + 4
  {
    (n + 3) / 4 * 4
  }

  function PlanOf(table: seq<Entry>, len: nat, grow: bool): Plan
  {
    Plan(table, len, grow, Starts(table))
  }

  /** Where the old sections lie and where the new ones go. */
  datatype Plan = Plan(table: seq<Entry>, len: nat, grow: bool, starts: seq<int>)
  {
    /** What the translator demands of a section table. */
    ghost predicate Valid()
    {
      && |table| == SECCNT
      && starts == Starts(table)
      && len + 0x1000 <= 0x8000_0000
      && (forall i, j :: 0 <= i < j < |table| ==> table[i].ty != table[j].ty)
      && (forall i :: 0 <= i < |table| ==> DATA <= table[i].doff < len)
      && (exists i :: 0 <= i < |table| && table[i].doff == DATA)
      && (forall i :: 0 <= i < |table| && table[i].doff == DATA ==> table[i].ty == 2 || table[i].ty == 10)
      && (forall i :: 0 <= i < |table| ==> !(DATA < table[i].doff < DATA + HEADER + BUILD_LEN))
      && (forall i, j :: 0 <= i < |table| && 0 <= j < |table| && i != j && Exclusive(table[i].ty)
            ==> table[i].doff != table[j].doff)
    }

    /** Old end of slot j: the next start, or the end of the file. */
    function End(j: nat): int
      requires j < |starts|
    {
      if j + 1 < |starts| then starts[j + 1] else len
    }

    function Span(j: nat): int
      requires j < |starts|
    {
      End(j) - starts[j]
    }

    /** The entry that decides how slot j is laid out: the last that starts there. */
    function Owner(j: nat): (e: Entry)
      requires j < |starts|
    {
      var i := LastAt(table, starts[j]);
      if i >= 0 then table[i] else Entry(0, 0, 0, 0, 0)
    }

    /** Bytes given to slot j in the new file. */
    function Room(j: nat): int
      requires j < |starts|
    {
      if Owner(j).ty == 1 && grow then Span(j) + CODE_GROW
      else if Owner(j).ty == 5 && Owner(j).psz == 16 then 20
      else Span(j)
    }

    /** Bytes of the new file that slot j may fill, the header group being slot 0. */
    function Extent(j: nat): int
      requires j < |starts|
    {
      if j == 0 then HEADER + BUILD_LEN else Room(j)
    }

    /**
     * A type 5 section is widened to 20 bytes when its psz is 16, so it must not be longer. The build key and
     * the program header, which are first written wherever their sections go, must not reach beyond these.
     */
    ghost predicate RoomFits()
    {
      && (forall j :: 0 < j < |starts| && Owner(j).ty == 5 && Owner(j).psz == 16 ==> Span(j) <= 20)
      && (forall i, j :: 0 <= i < |table| && 0 < j < |starts| && table[i].doff == starts[j] ==>
            (table[i].ty == 2 ==> BUILD_LEN <= Span(j)) && (table[i].ty == 10 ==> HEADER <= Span(j)))
    }

    ghost predicate Fits() { Valid() && RoomFits() }

    /** New start of slot j; New(|starts|) is the size of the new file. */
    function New(j: nat): nat
      requires j <= |starts|
    {
      if j == 0 then DATA
      else if j == 1 then 0x248
      else
        var n := New(j - 1) + Room(j - 1);
        if n < 0 then 0 else Align4(n)
    }


    /** Old bytes that the relocation takes as slot j. */
    function Reach(j: nat): int
      requires j < |starts|
    {
      if starts[j] == DATA then HEADER + BUILD_LEN else Span(j)
    }

    predicate InSlot(p: int, j: nat)
      requires j < |starts|
    {
      starts[j] <= p < starts[j] + Reach(j)
    }

    /** The slot at or after j whose old bytes hold p, or |starts|. */
    function SlotFrom(p: int, j: nat): (k: nat)
      requires j <= |starts|
      ensures j <= k <= |starts|
      ensures k < |starts| ==> InSlot(p, k)
      ensures forall i :: j <= i < k ==> !InSlot(p, i)
      decreases |starts| - j
    {
      if j == |starts| || InSlot(p, j) then j else SlotFrom(p, j + 1)
    }

    /** Where the program header goes, 0 if there is none. */
    function PhNew(): int
    {
      var i := FindType(table, 10);
      if i < 0 then 0 else if table[i].doff == DATA then 0x208 else New(SlotFrom(table[i].doff, 0))
    }

    /** Whether relocation knows the old offset p. */
    predicate Matched(p: int)
    {
      DATA <= p < DATA + HEADER || SlotFrom(p, 0) < |starts|
    }

    /** The new offset of the old offset p; an unknown offset is left alone. */
    function Reloc(p: int): int
    {
      if DATA <= p < DATA + HEADER then PhNew() + (p - DATA)
      else
        var j := SlotFrom(p, 0);
        if j < |starts| then New(j) + (p - starts[j]) else p
    }
  }
}
