/** Looking up and replacing a parameter in the string itself, without parsing it. */
module CameraFlat {
  import opened Options
  import opened Strings
  import opened CameraParams

  /** What the search for a key looks for: its entry's beginning, behind a ';'. */
  function Pat(key: string): string { ";" + key + "=" }

  /** Where the value of key starts. */
  function FindParam(params: string, key: string): (r: Option<nat>)
    ensures r.Some? ==> r.value <= |params|
  {
    if Match(params, key + "=", 0) then Some(|key| + 1)
    else
      var at := FindAt(params, Pat(key), 0);
      if at.None? then None else Some(at.value + |key| + 2)
  }

  function ValueEnd(params: string, from: nat): (end: nat)
    requires from <= |params|
    ensures from <= end <= |params|
  {
    from + IndexOf(params[from..], ';')
  }

  function GetParam(params: string, key: string): string
  {
    var from := FindParam(params, key);
    if from.None? then "" else params[from.value..ValueEnd(params, from.value)]
  }

  function Replaced(params: string, key: string, value: string): string
  {
    var from := FindParam(params, key);
    if from.None? then params else params[..from.value] + value + params[ValueEnd(params, from.value)..]
  }

  predicate Plain(key: string) { '=' !in key && ';' !in key }

  /** Entries that can be told apart by searching for ";key=". */
  ghost predicate Keyed(ks: seq<string>, m: Map)
  {
    forall i :: 0 <= i < |ks| ==> ks[i] in m && Plain(ks[i]) && ';' !in m[ks[i]]
  }

  /** A flattened string of such entries has every key of the map once. */
  ghost predicate Searchable(ks: seq<string>, m: Map) { Lists(ks, m) && Keyed(ks, m) }

  /** The prefix test and the search behind ';' are one search in the string with a ';' in front. */
  lemma FindParamIsFind(params: string, key: string)
    ensures FindParam(params, key) == Plus(FindAt(";" + params, Pat(key), 0), |key| + 1)
  {
    MatchFront(params, key);
    FindBehind(";", params, Pat(key), 0);
    hide Match, Pat;
  }

  lemma MatchFront(params: string, key: string)
    ensures Match(";" + params, Pat(key), 0) <==> Match(params, key + "=", 0)
  {
    assert Pat(key) == ";" + (key + "=");
    if |key| + 1 <= |params| {
      assert (";" + params)[0..|key| + 2] == ";" + params[0..|key| + 1];
      assert (";" + params[0..|key| + 1])[1..] == params[0..|key| + 1] && Pat(key)[1..] == key + "=";
    }
  }

  /** Two keys without '=' that begin the same entry are the same key. */
  lemma SameKey(k: string, key: string, t: string)
    requires '=' !in k && '=' !in key && Match(k + ['='] + t, key + "=", 0)
    ensures k == key
  {
    var s, n := k + ['='] + t, |key| + 1;
    assert key + "=" == key + ['='];
    assert s == key + ['='] + s[n..] by { assert s == s[0..n] + s[n..]; }
    IndexOfIn(k, '=', t);
    IndexOfIn(key, '=', s[n..]);
    assert s[..|k|] == k && s[..|key|] == key;
  }

  /** The entry of another key is passed over. */
  lemma PassEntry(k: string, v: string, tail: string, key: string)
    requires Plain(k) && ';' !in v && Plain(key) && key != k
    ensures FindAt(";" + (k + "=" + v) + tail, Pat(key), 0) == Plus(FindAt(tail, Pat(key), 0), |k| + |v| + 2)
  {
    var head := ";" + (k + "=" + v);
    var s := head + tail;
    NotAtHead(k, v, tail, key);
    forall p | 0 <= p < |head| ensures !Match(s, Pat(key), p) {
      if p > 0 { NotInside(k, v, tail, key, p); }
    }
    hide Match, Pat;
    FindSkips(s, Pat(key), 0, |head|);
    FindBehind(head, tail, Pat(key), 0);
  }

  lemma NotAtHead(k: string, v: string, tail: string, key: string)
    requires Plain(k) && Plain(key) && key != k
    ensures !Match(";" + (k + "=" + v) + tail, Pat(key), 0)
  {
    var t := k + ['='] + (v + tail);
    assert ";" + (k + "=" + v) + tail == ";" + t;
    MatchFront(t, key);
    if Match(t, key + "=", 0) { SameKey(k, key, v + tail); }
  }

  lemma NotInside(k: string, v: string, tail: string, key: string, p: nat)
    requires ';' !in k && ';' !in v && 0 < p <= |k| + |v| + 1
    ensures !Match(";" + (k + "=" + v) + tail, Pat(key), p)
  {
    var e := k + "=" + v;
    assert e[p - 1] != ';';
    assert (";" + e + tail)[p] == e[p - 1];
    if Match(";" + e + tail, Pat(key), p) { MatchHead(";" + e + tail, Pat(key), p); }
  }

  /** The search stops at the entry of key and at no other. */
  lemma {:induction false} FindInCat(ks: seq<string>, m: Map, key: string, i: nat)
    requires Keyed(ks, m) && Plain(key) && i <= |ks|
    requires forall j :: 0 <= j < i ==> ks[j] != key
    requires i < |ks| ==> ks[i] == key
    ensures FindAt(Cat(ks, m), Pat(key), 0) == if i < |ks| then Some(|Cat(ks[..i], m)|) else None
  {
    if ks == [] {
    } else if i == 0 {
      HeadMatches(ks, m);
      hide Match, Pat;
    } else {
      PassFirst(ks, m, key, i);
      hide Match, Pat, FindAt, Cat;
      FindInCat(ks[1..], m, key, i - 1);
    }
  }

  lemma PassFirst(ks: seq<string>, m: Map, key: string, i: nat)
    requires Keyed(ks, m) && Plain(key) && 0 < i <= |ks| && ks[0] != key
    ensures FindAt(Cat(ks, m), Pat(key), 0)
      == Plus(FindAt(Cat(ks[1..], m), Pat(key), 0), |ks[0]| + |m[ks[0]]| + 2)
    ensures |Cat(ks[..i], m)| == |Cat(ks[1..][..i - 1], m)| + |ks[0]| + |m[ks[0]]| + 2
  {
    PassEntry(ks[0], m[ks[0]], Cat(ks[1..], m), key);
    hide FindAt, Pat;
    assert ks[1..][..i - 1] == ks[..i][1..];
  }

  lemma HeadMatches(ks: seq<string>, m: Map)
    requires ks != [] && Keyed(ks, m)
    ensures Match(Cat(ks, m), Pat(ks[0]), 0)
  {
    var rest := m[ks[0]] + Cat(ks[1..], m);
    assert Cat(ks, m) == Pat(ks[0]) + rest;
    assert (Pat(ks[0]) + rest)[0..|Pat(ks[0])|] == Pat(ks[0]);
  }

  lemma {:induction false} CatSplit(ks: seq<string>, m: Map, i: nat)
    requires i < |ks| && forall j :: 0 <= j < |ks| ==> ks[j] in m
    ensures Cat(ks, m) == Cat(ks[..i], m) + Pat(ks[i]) + (m[ks[i]] + Cat(ks[i + 1..], m))
  {
    if i > 0 {
      CatSplit(ks[1..], m, i - 1);
      assert ks[1..][..i - 1] == ks[..i][1..] && ks[1..][i..] == ks[i + 1..];
    }
  }

  /** Cat reads only the values of its keys. */
  lemma {:induction false} CatSame(ks: seq<string>, m: Map, n: Map)
    requires forall j :: 0 <= j < |ks| ==> ks[j] in m && ks[j] in n && m[ks[j]] == n[ks[j]]
    ensures Cat(ks, m) == Cat(ks, n)
  {
    if ks != [] { CatSame(ks[1..], m, n); }
  }

  lemma JoinIsCat(ks: seq<string>, m: Map)
    requires ks != [] && Keyed(ks, m)
    ensures ";" + Join(ks, m) == Cat(ks, m)
  {
    assert Cat(ks, m)[0] == ';';
  }

  /** The part of a flattened string up to the value of entry i, without the leading ';'. */
  function Front(ks: seq<string>, m: Map, i: nat): string
    requires i < |ks| && forall j :: 0 <= j < |ks| ==> ks[j] in m
  {
    (Cat(ks[..i], m) + Pat(ks[i]))[1..]
  }

  lemma JoinSplit(ks: seq<string>, m: Map, i: nat)
    requires i < |ks| && Keyed(ks, m)
    ensures Join(ks, m) == Front(ks, m, i) + (m[ks[i]] + Cat(ks[i + 1..], m))
    ensures |Front(ks, m, i)| == |Cat(ks[..i], m)| + |ks[i]| + 1
  {
    CatSplit(ks, m, i);
    var a, b := Cat(ks[..i], m) + Pat(ks[i]), m[ks[i]] + Cat(ks[i + 1..], m);
    hide Cat;
    assert (a + b)[1..] == a[1..] + b;
  }

  /** The value of key starts behind the front part and ends where the next entry, or the string, begins. */
  lemma Located(ks: seq<string>, m: Map, key: string, i: nat)
    requires Searchable(ks, m) && i < |ks| && ks[i] == key
    ensures FindParam(Join(ks, m), key) == Some(|Front(ks, m, i)|)
    ensures Join(ks, m)[..|Front(ks, m, i)|] == Front(ks, m, i)
    ensures ValueEnd(Join(ks, m), |Front(ks, m, i)|) == |Front(ks, m, i)| + |m[key]|
    ensures Join(ks, m)[|Front(ks, m, i)| + |m[key]|..] == Cat(ks[i + 1..], m)
    ensures Join(ks, m)[|Front(ks, m, i)|..|Front(ks, m, i)| + |m[key]|] == m[key]
  {
    hide FindParam, FindAt, Cat, Join, Front, Pat, IndexOf;
    FindInCat(ks, m, key, i);
    JoinIsCat(ks, m);
    JoinSplit(ks, m, i);
    CatHead(ks[i + 1..], m);
    var v, b := m[key], Cat(ks[i + 1..], m);
    ValueStops(v, b);
    FindParamIsFind(Join(ks, m), key);
    Cut(Join(ks, m), Front(ks, m, i), v, b);
  }

  lemma Cut(s: string, f: string, v: string, b: string)
    requires s == f + (v + b)
    ensures s[..|f|] == f && s[|f|..] == v + b && s[|f|..|f| + |v|] == v && s[|f| + |v|..] == b
  {}

  /** A value ends where the next entry, or the string, begins. */
  lemma ValueStops(v: string, b: string)
    requires ';' !in v && (b == "" || b[0] == ';')
    ensures IndexOf(v + b, ';') == |v|
  {
    if b == "" {
      assert v + b == v;
      IndexOfAbsent(v, ';');
    } else {
      assert v + b == v + [';'] + b[1..];
      hide IndexOf;
      IndexOfIn(v, ';', b[1..]);
    }
  }

  lemma CatHead(ks: seq<string>, m: Map)
    requires forall j :: 0 <= j < |ks| ==> ks[j] in m
    ensures Cat(ks, m) == "" || Cat(ks, m)[0] == ';'
  {}

  lemma NotLocated(ks: seq<string>, m: Map, key: string)
    requires Searchable(ks, m) && key !in m && Plain(key)
    ensures FindParam(Join(ks, m), key) == None
  {
    FindParamIsFind(Join(ks, m), key);
    if ks == [] {
      assert FindAt(";", Pat(key), 0) == None;
    } else {
      FindInCat(ks, m, key, |ks|);
      JoinIsCat(ks, m);
    }
  }

  /** Looking a key up in the string is looking it up in the map. */
  lemma GetParamIsLookup(ks: seq<string>, m: Map, key: string)
    requires Searchable(ks, m) && Plain(key)
    ensures GetParam(Join(ks, m), key) == if key in m then m[key] else ""
  {
    if key in m {
      var i :| 0 <= i < |ks| && ks[i] == key;
      Located(ks, m, key, i);
    } else {
      NotLocated(ks, m, key);
    }
    hide FindParam, Cat, Join, ValueEnd, Front;
  }

  /** Replacing a value in the string is updating the map, for a key that is there; else nothing changes. */
  lemma SetParamIsUpdate(ks: seq<string>, m: Map, key: string, value: string)
    requires Searchable(ks, m) && Plain(key) && ';' !in value
    ensures key in m ==> Replaced(Join(ks, m), key, value) == Join(ks, m[key := value])
    ensures Parse(Replaced(Join(ks, m), key, value), map[]) == if key in m then m[key := value] else m
  {
    hide Parse, Join;
    if key in m {
      var i :| 0 <= i < |ks| && ks[i] == key;
      ReplacedIsJoin(ks, m, key, value, i);
      ParseFlatten(ks, m[key := value]);
    } else {
      NotLocated(ks, m, key);
      ParseFlatten(ks, m);
    }
  }

  lemma ReplacedIsJoin(ks: seq<string>, m: Map, key: string, value: string, i: nat)
    requires Searchable(ks, m) && i < |ks| && ks[i] == key && ';' !in value
    ensures Replaced(Join(ks, m), key, value) == Join(ks, m[key := value])
  {
    var n := m[key := value];
    ReplacedAt(ks, m, key, value, i);
    assert Keyed(ks, n);
    FrontSame(ks, m, n, i);
    hide Cat, Join, Front, Lists, Replaced;
    JoinSplit(ks, n, i);
  }

  lemma ReplacedAt(ks: seq<string>, m: Map, key: string, value: string, i: nat)
    requires Searchable(ks, m) && i < |ks| && ks[i] == key
    ensures Replaced(Join(ks, m), key, value) == Front(ks, m, i) + (value + Cat(ks[i + 1..], m))
  {
    Located(ks, m, key, i);
    hide FindParam, Cat, Join, ValueEnd, Front, Searchable, Lists, Keyed;
    Around(Front(ks, m, i), value, Cat(ks[i + 1..], m));
  }

  lemma Around(f: string, v: string, b: string)
    ensures f + v + b == f + (v + b)
  {}

  /** What surrounds a value does not depend on it. */
  lemma FrontSame(ks: seq<string>, m: Map, n: Map, i: nat)
    requires i < |ks| && (forall j :: 0 <= j < |ks| ==> ks[j] in m && ks[j] in n)
    requires forall j :: 0 <= j < |ks| && j != i ==> m[ks[j]] == n[ks[j]]
    ensures Front(ks, m, i) == Front(ks, n, i)
    ensures Cat(ks[i + 1..], m) == Cat(ks[i + 1..], n)
  {
    CatSame(ks[..i], m, n);
    CatSame(ks[i + 1..], m, n);
  }

  /**
   * setParam, which the original does in place. On a flattened string it sets the key's value in the map
   * that the string stands for, and leaves a string without the key alone.
   */
  method SetParam(params: string, key: string, value: string) returns (changed: string)
    ensures changed == Replaced(params, key, value)
    ensures forall ks: seq<string>, m: Map ::
      Searchable(ks, m) && Plain(key) && ';' !in value && params == Join(ks, m) ==>
        Parse(changed, map[]) == if key in m then m[key := value] else m
  {
    changed := params;
    var from := FindParam(params, key);
    if from.Some? {
      changed := changed[..from.value] + value + changed[ValueEnd(changed, from.value)..];
    }
    hide Replaced, FindParam, Join, Parse, ValueEnd;
    forall ks: seq<string>, m: Map | Searchable(ks, m) && Plain(key) && ';' !in value && params == Join(ks, m)
      ensures Parse(changed, map[]) == if key in m then m[key := value] else m
    {
      SetParamIsUpdate(ks, m, key, value);
    }
  }
}
