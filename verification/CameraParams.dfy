/** The camera's parameter string "k=v;k=v" and the map that it stands for. */
module CameraParams {
  import opened Options
  import opened Strings

  type Map = map<string, string>

  /** The first entry of a string, and what follows the ';' behind it. */
  datatype Entry = Entry(key: string, value: string, rest: Option<string>)

  /** A key runs to the first '=', its value to the next ';' or to the end. */
  function FirstEntry(s: string): (e: Option<Entry>)
    ensures e.Some? && e.value.rest.Some? ==> |e.value.rest.value| < |s|
    ensures e.Some? ==> '=' !in e.value.key && ';' !in e.value.value
  {
    var eq := IndexOf(s, '=');
    if eq == |s| then None
    else
      var rest := s[eq + 1..];
      var end := IndexOf(rest, ';');
      Some(Entry(s[..eq], rest[..end], if end == |rest| then None else Some(rest[end + 1..])))
  }

  lemma NoEntry(s: string)
    requires IndexOf(s, '=') == |s|
    ensures FirstEntry(s) == None
  {}

  lemma LastEntry(k: string, v: string)
    requires '=' !in k && ';' !in v
    ensures FirstEntry(k + "=" + v) == Some(Entry(k, v, None))
  {
    var s := k + "=" + v;
    IndexOfIn(k, '=', v);
    assert s[|k| + 1..] == v && s[..|k|] == k;
    IndexOfAbsent(v, ';');
    assert v[..|v|] == v;
  }

  lemma EntryThen(k: string, v: string, t: string)
    requires '=' !in k && ';' !in v
    ensures FirstEntry(k + "=" + v + ";" + t) == Some(Entry(k, v, Some(t)))
  {
    var s := k + "=" + v + ";" + t;
    var r := v + [';'] + t;
    assert s == k + ['='] + r;
    IndexOfIn(k, '=', r);
    assert s[|k| + 1..] == r && s[..|k|] == k;
    IndexOfIn(v, ';', t);
    assert r[..|v|] == v && r[|v| + 1..] == t;
  }

  /** Reads entries up to the first one without '='; a later entry with the same key wins. */
  function Parse(s: string, m: Map): Map
    decreases |s|
  {
    var e := FirstEntry(s);
    if e.None? then m
    else if e.value.rest.None? then m[e.value.key := e.value.value]
    else Parse(e.value.rest.value, m[e.value.key := e.value.value])
  }

  function Item(k: string, m: Map): string
    requires k in m
  {
    k + "=" + m[k]
  }

  /** The entries of ks, each with a ';' in front. */
  function Cat(ks: seq<string>, m: Map): string
    requires forall i :: 0 <= i < |ks| ==> ks[i] in m
  {
    if ks == [] then "" else ";" + Item(ks[0], m) + Cat(ks[1..], m)
  }

  /** The entries of ks, separated by ';'. */
  function Join(ks: seq<string>, m: Map): string
    requires forall i :: 0 <= i < |ks| ==> ks[i] in m
  {
    if ks == [] then "" else Cat(ks, m)[1..]
  }

  /** A map that a parameter string can carry. */
  ghost predicate Clean(m: Map)
  {
    forall k :: k in m ==> '=' !in k && ';' !in m[k]
  }

  /** ks lists the keys of m, each once. */
  ghost predicate Lists(ks: seq<string>, m: Map)
  {
    && (forall i :: 0 <= i < |ks| ==> ks[i] in m)
    && (forall k :: k in m ==> k in ks)
    && (forall i, j :: 0 <= i < j < |ks| ==> ks[i] != ks[j])
  }

  /** Lexicographic order, as the keys of a map of strings are kept. */
  predicate Less(a: string, b: string)
  {
    b != "" && (a == "" || a[0] < b[0] || (a[0] == b[0] && Less(a[1..], b[1..])))
  }

  lemma {:induction false} LessTotal(a: string, b: string)
    ensures a == b || Less(a, b) || Less(b, a)
    ensures !(Less(a, b) && Less(b, a))
  {
    if a != "" && b != "" {
      LessTotal(a[1..], b[1..]);
      assert a == [a[0]] + a[1..] && b == [b[0]] + b[1..];
    }
  }

  lemma {:induction false} LessTransitive(a: string, b: string, c: string)
    requires Less(a, b) && Less(b, c)
    ensures Less(a, c)
  {
    if a != "" && a[0] == b[0] == c[0] { LessTransitive(a[1..], b[1..], c[1..]); }
  }

  /** A prefix comes first, and else the first character that differs decides. */
  lemma {:induction false} LessIs(p: string, c: char, x: string, d: char, y: string)
    ensures Less(p, p + [c] + x)
    ensures Less(p + [c] + x, p + [d] + y) <== c < d
  {
    if p == "" {
      assert p + [c] + x == [c] + x && p + [d] + y == [d] + y;
    } else {
      LessIs(p[1..], c, x, d, y);
      assert (p + [c] + x)[1..] == p[1..] + [c] + x && (p + [d] + y)[1..] == p[1..] + [d] + y;
    }
  }

  ghost predicate Ascending(ks: seq<string>)
  {
    forall i, j :: 0 <= i < j < |ks| ==> Less(ks[i], ks[j])
  }

  ghost predicate IsLeast(k: string, s: set<string>)
  {
    k in s && forall x :: x in s && x != k ==> Less(k, x)
  }

  lemma {:induction false} LeastExists(s: set<string>) returns (k: string)
    requires s != {}
    ensures IsLeast(k, s)
  {
    var x :| x in s;
    if s == {x} {
      k := x;
    } else {
      var y := LeastExists(s - {x});
      LessTotal(x, y);
      if Less(x, y) {
        k := x;
        forall z | z in s && z != x && z != y ensures Less(x, z) { LessTransitive(x, y, z); }
      } else {
        k := y;
      }
    }
  }

  /** Every enumeration of the keys in ascending order is the same one. */
  lemma {:induction false} OrderUnique(a: seq<string>, b: seq<string>, m: Map)
    requires Lists(a, m) && Lists(b, m) && Ascending(a) && Ascending(b)
    ensures a == b
  {
    assert forall k :: k in a <==> k in b;
    SameOrder(a, b);
  }

  lemma {:induction false} SameOrder(a: seq<string>, b: seq<string>)
    requires Ascending(a) && Ascending(b)
    requires forall k :: k in a <==> k in b
    ensures a == b
  {
    assert a != [] ==> a[0] in b;
    assert b != [] ==> b[0] in a;
    if a != [] && b != [] {
      HeadsAgree(a, b);
      forall k ensures k in a[1..] <==> k in b[1..] {
        HeadOnce(a, k);
        HeadOnce(b, k);
        assert k in a <==> k in b;
      }
      SameOrder(a[1..], b[1..]);
      assert a == [a[0]] + a[1..] && b == [b[0]] + b[1..];
    }
  }

  lemma HeadsAgree(a: seq<string>, b: seq<string>)
    requires Ascending(a) && Ascending(b) && a != [] && b != [] && a[0] in b && b[0] in a
    ensures a[0] == b[0]
  {
    LessTotal(a[0], b[0]);
  }

  lemma HeadOnce(a: seq<string>, k: string)
    requires Ascending(a) && a != []
    ensures k in a[1..] <==> k in a && k != a[0]
  {
    LessTotal(a[0], a[0]);
  }

  /** Parsing the entries of ks, joined, adds exactly them. */
  lemma {:induction false} ParseJoin(ks: seq<string>, m: Map, acc: Map)
    requires forall i :: 0 <= i < |ks| ==> ks[i] in m && '=' !in ks[i] && ';' !in m[ks[i]]
    ensures Parse(Join(ks, m), acc) == acc + Picked(ks, m)
  {
    if ks != [] {
      var k := ks[0];
      PickedCons(ks, m, acc);
      if |ks| == 1 {
        assert Join(ks, m) == k + "=" + m[k];
        LastEntry(k, m[k]);
        hide FirstEntry;
        assert ks[1..] == [];
      } else {
        JoinCons(ks, m);
        EntryThen(k, m[k], Join(ks[1..], m));
        hide FirstEntry, Join, Cat, Picked;
        ParseJoin(ks[1..], m, acc[k := m[k]]);
      }
    }
  }

  /** The entries as they stand in a string, keys repeated or not. */
  datatype Pair = Pair(key: string, value: string)

  function Written(ps: seq<Pair>): string
  {
    if ps == [] then "" else if |ps| == 1 then ps[0].key + "=" + ps[0].value
    else ps[0].key + "=" + ps[0].value + ";" + Written(ps[1..])
  }

  /** The value of the last entry with the key, or what there was before. */
  function LastOf(ps: seq<Pair>, k: string, before: Option<string>): Option<string>
  {
    if ps == [] then before
    else if ps[|ps| - 1].key == k then Some(ps[|ps| - 1].value)
    else LastOf(ps[..|ps| - 1], k, before)
  }

  function Lookup(m: Map, k: string): Option<string> { if k in m then Some(m[k]) else None }

  lemma {:induction false} LastOfCons(ps: seq<Pair>, k: string, before: Option<string>)
    requires ps != []
    ensures LastOf(ps, k, before) == LastOf(ps[1..], k, if ps[0].key == k then Some(ps[0].value) else before)
  {
    var n := |ps| - 1;
    if n > 0 {
      assert ps[1..][..n - 1] == ps[..n][1..];
      LastOfCons(ps[..n], k, before);
    } else {
      assert ps[..n] == [] && ps[1..] == [];
    }
  }

  /** Of entries with the same key the last one counts. */
  lemma {:induction false} LastEntryWins(ps: seq<Pair>, m: Map, k: string)
    requires forall i :: 0 <= i < |ps| ==> '=' !in ps[i].key && ';' !in ps[i].value
    ensures Lookup(Parse(Written(ps), m), k) == LastOf(ps, k, Lookup(m, k))
    decreases |ps|
  {
    if ps == [] {
      NoEntry("");
    } else {
      var p := ps[0];
      LastOfCons(ps, k, Lookup(m, k));
      if |ps| == 1 {
        LastEntry(p.key, p.value);
        hide FirstEntry;
        assert ps[1..] == [];
      } else {
        EntryThen(p.key, p.value, Written(ps[1..]));
        hide FirstEntry, LastOf;
        LastEntryWins(ps[1..], m[p.key := p.value], k);
      }
    }
  }

  /** The entries of m with keys in ks. */
  ghost function Picked(ks: seq<string>, m: Map): Map
    requires forall i :: 0 <= i < |ks| ==> ks[i] in m
  {
    map k | k in ks :: m[k]
  }

  lemma PickedCons(ks: seq<string>, m: Map, acc: Map)
    requires ks != [] && forall i :: 0 <= i < |ks| ==> ks[i] in m
    ensures acc + Picked(ks, m) == acc[ks[0] := m[ks[0]]] + Picked(ks[1..], m)
  {
    assert forall x :: x in ks <==> x == ks[0] || x in ks[1..];
  }

  lemma JoinCons(ks: seq<string>, m: Map)
    requires |ks| > 1 && forall i :: 0 <= i < |ks| ==> ks[i] in m
    ensures Join(ks, m) == ks[0] + "=" + m[ks[0]] + ";" + Join(ks[1..], m)
  {
    var tail := Cat(ks[1..], m);
    assert tail[0] == ';';
    assert tail == ";" + tail[1..];
  }

  /** Parsing what flattening wrote gives the map back, in whatever order it was written. */
  lemma ParseFlatten(ks: seq<string>, m: Map)
    requires Clean(m) && Lists(ks, m)
    ensures Parse(Join(ks, m), map[]) == m
  {
    ParseJoin(ks, m, map[]);
  }

  /** The parser makes only maps that a string can carry. */
  lemma {:induction false} ParseClean(s: string, m: Map)
    requires Clean(m)
    ensures Clean(Parse(s, m))
    decreases |s|
  {
    var e := FirstEntry(s);
    hide FirstEntry;
    if e.Some? && e.value.rest.Some? { ParseClean(e.value.rest.value, m[e.value.key := e.value.value]); }
  }

  /** The string that flattening writes. */
  ghost predicate IsFlattened(s: string, m: Map)
  {
    exists ks: seq<string> :: Lists(ks, m) && Ascending(ks) && s == Join(ks, m)
  }

  /** Flattening what was parsed is idempotent on every string whatsoever. */
  lemma FlattenIdempotent(s: string, f: string, g: string)
    requires IsFlattened(f, Parse(s, map[])) && IsFlattened(g, Parse(f, map[]))
    ensures Parse(f, map[]) == Parse(s, map[]) && g == f
  {
    var m := Parse(s, map[]);
    ParseClean(s, map[]);
    var ks :| Lists(ks, m) && Ascending(ks) && f == Join(ks, m);
    ParseFlatten(ks, m);
    var ls :| Lists(ls, m) && Ascending(ls) && g == Join(ls, m);
    OrderUnique(ks, ls, m);
  }

  function GetIn(m: Map, key: string): Option<string>
  {
    if key in m then Some(CStr(m[key])) else None
  }

  function ValueIn(m: Map, key: string): string
  {
    var v := GetIn(m, key);
    if v.None? then "" else v.value
  }

  /** A missing value, or one that the format cannot carry, is ignored. */
  function SetIn(m: Map, key: string, value: Option<string>): Map
  {
    if value.None? || '=' in CStr(value.value) || ';' in CStr(value.value) then m else m[key := CStr(value.value)]
  }

  lemma SetClean(m: Map, key: string, value: Option<string>)
    requires Clean(m) && '=' !in key
    ensures Clean(SetIn(m, key, value))
  {}

  /** The entry at from, by its indices. */
  lemma EntryAt(s: string, from: nat, eq: nat, end: nat)
    requires from <= eq < end <= |s|
    requires eq == from + IndexOf(s[from..], '=') && end == eq + 1 + IndexOf(s[eq + 1..], ';')
    ensures FirstEntry(s[from..])
      == Some(Entry(s[from..eq], s[eq + 1..end], if end == |s| then None else Some(s[end + 1..])))
  {
    assert s[from..][..eq - from] == s[from..eq];
    assert s[from..][eq - from + 1..] == s[eq + 1..];
    assert s[eq + 1..][..end - eq - 1] == s[eq + 1..end];
    assert end < |s| ==> s[eq + 1..][end - eq..] == s[end + 1..];
  }

  /** The class Parameters. */
  class Parameters {
    var mMap: Map

    constructor (flattened: string)
      ensures mMap == Parse(flattened, map[])
    {
      mMap := map[];
      new;
      hide FirstEntry;
      var from := 0;
      while true
        invariant from <= |flattened|
        invariant Parse(flattened, map[]) == Parse(flattened[from..], mMap)
        decreases |flattened| - from
      {
        var eq := from + IndexOf(flattened[from..], '=');
        if eq == |flattened| {
          NoEntry(flattened[from..]);
          break;
        }
        var end := eq + 1 + IndexOf(flattened[eq + 1..], ';');
        EntryAt(flattened, from, eq, end);
        mMap := mMap[flattened[from..eq] := flattened[eq + 1..end]];
        if end == |flattened| { break; }
        from := end + 1;
      }
    }

    function Get(key: string): Option<string>
      reads this
    {
      GetIn(mMap, key)
    }

    function Value(key: string): string
      reads this
    {
      ValueIn(mMap, key)
    }

    method Set(key: string, value: Option<string>)
      modifies this
      ensures mMap == SetIn(old(mMap), key, value)
    {
      if value.None? || '=' in CStr(value.value) || ';' in CStr(value.value) { return; }
      mMap := mMap[key := CStr(value.value)];
    }

    /** Writes the entries in the order of their keys. */
    method Flatten() returns (flattened: string)
      ensures IsFlattened(flattened, mMap)
    {
      flattened := "";
      var rest := mMap.Keys;
      ghost var ks: seq<string> := [];
      while rest != {}
        invariant rest <= mMap.Keys
        invariant forall k :: k in ks <==> k in mMap && k !in rest
        invariant Ascending(ks) && forall i, x :: 0 <= i < |ks| && x in rest ==> Less(ks[i], x)
        invariant flattened == Join(ks, mMap)
        decreases |rest|
      {
        ghost var least := LeastExists(rest);
        var key :| key in rest && forall x :: x in rest && x != key ==> Less(key, x);
        if flattened != "" { flattened := flattened + ";"; }
        flattened := flattened + key + "=" + mMap[key];
        JoinSnoc(ks, key, mMap);
        rest := rest - {key};
        ks := ks + [key];
      }
      AscendingLists(ks, mMap);
    }
  }

  lemma AscendingLists(ks: seq<string>, m: Map)
    requires Ascending(ks) && forall k :: k in ks <==> k in m
    ensures Lists(ks, m)
  {
    forall i, j | 0 <= i < j < |ks| ensures ks[i] != ks[j] { LessTotal(ks[i], ks[i]); }
  }

  lemma {:induction false} CatSnoc(ks: seq<string>, k: string, m: Map)
    requires k in m && forall i :: 0 <= i < |ks| ==> ks[i] in m
    ensures Cat(ks + [k], m) == Cat(ks, m) + ";" + Item(k, m)
  {
    if ks == [] {
      assert ks + [k] == [k] && [k][1..] == [];
    } else {
      assert (ks + [k])[1..] == ks[1..] + [k];
      CatSnoc(ks[1..], k, m);
    }
  }

  lemma JoinSnoc(ks: seq<string>, k: string, m: Map)
    requires k in m && forall i :: 0 <= i < |ks| ==> ks[i] in m
    ensures Join(ks + [k], m) == (if Join(ks, m) != "" then Join(ks, m) + ";" else "") + k + "=" + m[k]
  {
    CatSnoc(ks, k, m);
    if ks == [] {
      assert ks + [k] == [k];
      assert Cat(ks + [k], m) == ";" + (k + "=" + m[k]);
    } else {
      CatLong(ks, m);
      hide Cat;
      assert (Cat(ks, m) + ";" + Item(k, m))[1..] == Cat(ks, m)[1..] + ";" + Item(k, m);
    }
  }

  lemma CatLong(ks: seq<string>, m: Map)
    requires ks != [] && forall i :: 0 <= i < |ks| ==> ks[i] in m
    ensures |Cat(ks, m)| > 1
  {}
}
