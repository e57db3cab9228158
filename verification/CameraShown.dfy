/** What each of the two translations makes of a map, key by key, whatever stood there before. */
module CameraShown {
  import opened Options
  import opened Strings
  import opened CameraParams
  import opened CameraFixups

  /** What is read at a key after a value was set there; one that the format cannot carry is ignored. */
  function Stored(v: string, old_: Option<string>): Option<string> { if Carried(v) then Some(v) else old_ }

  /** Of any value what comes before its first NUL is set. */
  lemma PutAny(m: Map, k: string, v: string, n: nat)
    requires n <= |v| && '\0' !in v[..n] && (n < |v| ==> v[n] == '\0')
    ensures GetIn(SetIn(m, k, Some(v)), k) == Stored(v[..n], GetIn(m, k))
    ensures forall j :: j != k ==> GetIn(SetIn(m, k, Some(v)), j) == GetIn(m, j)
  {
    if n < |v| {
      assert v == v[..n] + ['\0'] + v[n + 1..];
      IndexOfIn(v[..n], '\0', v[n + 1..]);
    } else {
      assert v[..n] == v;
      CStrBare(v);
    }
    assert CStr(v) == v[..n];
    CStrBare(v[..n]);
    PutElsewhere(m, k, Some(v));
    hide CStr;
  }

  lemma PutValue(m: Map, k: string, v: string)
    requires '\0' !in v
    ensures GetIn(SetIn(m, k, Some(v)), k) == Stored(v, GetIn(m, k))
    ensures forall j :: j != k ==> GetIn(SetIn(m, k, Some(v)), j) == GetIn(m, j)
  {
    PutElsewhere(m, k, Some(v));
    CStrBare(v);
    hide CStr;
  }

  lemma ReadHasNoNul(m: Map, k: string)
    ensures GetIn(m, k).Some? ==> '\0' !in GetIn(m, k).value
  {
    if k in m { assert '\0' !in CStr(m[k]); }
  }

  lemma KeyKept(m: Map, n: Map, k: string)
    requires Same(Key(k), m, n)
    ensures GetIn(n, k) == GetIn(m, k)
  {
    assert About(Key(k), k);
  }

  // What the application is shown.

  /** The keys that fixupGetParameters may write. */
  predicate ShownAt(k: string)
  {
    k == SCENES || k == ISOS || k == SCENE || k == VIDEO_HDRS || k == VIDEO_HDR || k == ISO || k == SHUTTER
  }

  /** Every other key keeps its value. */
  lemma GetKeepsOthers(m: Map, k: string)
    requires !ShownAt(k)
    ensures GetIn(GetFixed(m), k) == GetIn(m, k)
  {
    hide Same, OfferHdr, OfferIso, ShowHdr, ShowVideoHdr, ShowExposure, GetIn;
    hide SCENES, ISOS, SCENE, VIDEO_HDRS, VIDEO_HDR, ISO, SHUTTER;
    OffersKeeps(Key(k), m);
    var a := OfferIso(OfferHdr(m));
    ShowHdrKeeps(Key(k), a);
    ShowVideoHdrKeeps(Key(k), ShowHdr(a));
    ShowExposureKeeps(Key(k), ShowVideoHdr(ShowHdr(a)));
    KeyKept(m, a, k);
    KeyKept(a, ShowHdr(a), k);
    KeyKept(ShowHdr(a), ShowVideoHdr(ShowHdr(a)), k);
    KeyKept(ShowVideoHdr(ShowHdr(a)), GetFixed(m), k);
  }

  /** The ISO value and the shutter speed shown for the vendor's mode, over what was there. */
  predicate ShowsExposure(m: Map, n: Map)
  {
    var sonyIso, mode, shutter := GetIn(m, SONY_ISO), ValueIn(m, SONY_AE_MODE), GetIn(m, SONY_SHUTTER);
    if sonyIso.None? || GetIn(m, SONY_AE_MODES).None? then
      GetIn(n, ISO) == GetIn(m, ISO) && GetIn(n, SHUTTER) == GetIn(m, SHUTTER)
    else
      && GetIn(n, ISO) ==
           (if mode in ["iso-prio", "manual"] then Stored("ISO" + sonyIso.value, GetIn(m, ISO)) else Some("auto"))
      && GetIn(n, SHUTTER) ==
           (if mode !in ["shutter-prio", "manual"] then Some("auto")
            else if shutter.None? then GetIn(m, SHUTTER) else Stored(shutter.value, GetIn(m, SHUTTER)))
  }

  lemma ShowExposureOf(m: Map)
    ensures ShowsExposure(m, ShowExposure(m))
  {
    ExposureKeysApart();
    ReadHasNoNul(m, SONY_ISO);
    ReadHasNoNul(m, SONY_SHUTTER);
    hide SetIn, GetIn, Stored, SONY_SHUTTER, SONY_ISO, SONY_AE_MODE, SHUTTER, SONY_AE_MODES, ISO;
    var sonyIso, shutter := GetIn(m, SONY_ISO), GetIn(m, SONY_SHUTTER);
    if sonyIso.Some? {
      var iso := "ISO" + sonyIso.value;
      PutValue(m, ISO, iso);
      AutoPut(m, ISO);
      AutoPut(SetIn(m, ISO, Some(iso)), SHUTTER);
      AutoPut(SetIn(m, ISO, Some("auto")), SHUTTER);
      if shutter.Some? {
        PutValue(m, SHUTTER, shutter.value);
        PutValue(SetIn(m, ISO, Some("auto")), SHUTTER, shutter.value);
        PutValue(SetIn(m, SHUTTER, shutter), ISO, iso);
      } else {
        NothingSet(m, SHUTTER);
        NothingSet(SetIn(m, ISO, Some("auto")), SHUTTER);
      }
    }
  }

  lemma NothingSet(m: Map, k: string)
    ensures SetIn(m, k, None) == m
  {}

  lemma AutoPut(m: Map, k: string)
    ensures GetIn(SetIn(m, k, Some("auto")), k) == Some("auto")
    ensures forall j :: j != k ==> GetIn(SetIn(m, k, Some("auto")), j) == GetIn(m, j)
  {
    Put(m, k, "auto");
  }

  lemma ShowsSame(m: Map, a: Map, n: Map)
    requires Same(Exposure, m, a) && ShowsExposure(a, n)
    ensures ShowsExposure(m, n)
  {
    hide GetIn, Stored, SONY_SHUTTER, SONY_ISO, SONY_AE_MODE, SHUTTER, SONY_AE_MODES, ISO;
  }

  /**
   * Whatever stood there before: the vendor's ISO value is shown exactly in the modes iso-prio and manual, its
   * shutter speed exactly in shutter-prio and manual, and "auto" in all others.
   */
  lemma ExposureShown(m: Map)
    ensures ShowsExposure(m, GetFixed(m))
  {
    hide About, OfferHdr, OfferIso, ShowHdr, ShowVideoHdr, ShowExposure, ShowsExposure, GetIn;
    KeysApart();
    OffersKeeps(Exposure, m);
    var a := OfferIso(OfferHdr(m));
    ShowHdrKeeps(Exposure, a);
    ShowVideoHdrKeeps(Exposure, ShowHdr(a));
    ShowExposureOf(ShowVideoHdr(ShowHdr(a)));
    ShowsSame(m, ShowVideoHdr(ShowHdr(a)), GetFixed(m));
  }

  /** The scene mode is shown as hdr exactly if the vendor's stabiliser says so, and else as it was. */
  lemma SceneShown(m: Map)
    ensures GetIn(GetFixed(m), SCENE) ==
      if GetIn(m, SONY_STABILISER) == Some("on-still-hdr") then Some("hdr") else GetIn(m, SCENE)
  {
    hide GetFixed, ShowHdr, GetIn, SCENE, SONY_STABILISER, HINT;
    GetSceneOf(m);
    ShowHdrOf(m);
  }

  lemma Found(s: string, pat: string, from: nat, p: nat)
    requires from <= p <= |s| && Match(s, pat, p)
    ensures FindAt(s, pat, from).Some?
    decreases p - from
  {
    hide Match;
    if from < p && !Match(s, pat, from) { Found(s, pat, from + 1, p); }
  }

  /** An item at the end of a list is found there. */
  lemma EndsWith(list: string, item: string)
    ensures Infix(list + "," + item, item)
  {
    var s := list + "," + item;
    assert s[|list| + 1..|list| + 1 + |item|] == item;
    Found(s, item, 0, |list| + 1);
  }

  lemma OfferHdrOf(m: Map)
    ensures GetIn(OfferHdr(m), SCENES) ==
      if Contains(GetIn(m, SONY_STABILISERS), "on-still-hdr") && !Contains(GetIn(m, SCENES), "hdr")
      then Stored(ValueIn(m, SCENES) + ",hdr", GetIn(m, SCENES)) else GetIn(m, SCENES)
  {
    ReadHasNoNul(m, SCENES);
    hide SetIn, GetIn, Stored, Infix, SCENES, SONY_STABILISERS;
    PutValue(m, SCENES, ValueIn(m, SCENES) + ",hdr");
  }

  /** The scene modes are offered as before, with hdr at the end where the vendor has it and they had not. */
  lemma HdrOffered(m: Map)
    ensures GetIn(GetFixed(m), SCENES) ==
      if Contains(GetIn(m, SONY_STABILISERS), "on-still-hdr") && !Contains(GetIn(m, SCENES), "hdr")
      then Stored(ValueIn(m, SCENES) + ",hdr", GetIn(m, SCENES)) else GetIn(m, SCENES)
  {
    OfferHdrOf(m);
    ShownKeysApart();
    hide Same, OfferHdr, OfferIso, ShowHdr, ShowVideoHdr, ShowExposure, GetIn, Contains, ValueIn, Stored;
    hide SCENES, ISOS, SCENE, VIDEO_HDRS, VIDEO_HDR, ISO, SHUTTER, SONY_STABILISERS;
    AfterOffers(OfferHdr(m), SCENES);
    OfferIsoKeeps(Key(SCENES), OfferHdr(m));
    KeyKept(OfferHdr(m), OfferIso(OfferHdr(m)), SCENES);
  }

  /** So hdr is offered exactly if it was, or the vendor has it; and as one more item behind the others. */
  lemma HdrListed(m: Map)
    requires GetIn(m, SCENES).Some? ==> Carried(GetIn(m, SCENES).value)
    ensures Contains(GetIn(GetFixed(m), SCENES), "hdr") <==>
      Contains(GetIn(m, SCENES), "hdr") || Contains(GetIn(m, SONY_STABILISERS), "on-still-hdr")
    ensures Contains(GetIn(m, SONY_STABILISERS), "on-still-hdr") && !Contains(GetIn(m, SCENES), "hdr") ==>
      GetIn(GetFixed(m), SCENES).Some? && Split(GetIn(GetFixed(m), SCENES).value) == Split(ValueIn(m, SCENES)) + ["hdr"]
  {
    hide GetFixed, GetIn, Infix, Split, SCENES, SONY_STABILISERS;
    HdrOffered(m);
    HdrAppended(ValueIn(m, SCENES));
  }

  lemma HdrAppended(list: string)
    ensures Infix(list + ",hdr", "hdr") && Split(list + ",hdr") == Split(list) + ["hdr"]
    ensures Carried(list) ==> Carried(list + ",hdr")
  {
    assert list + "," + "hdr" == list + ",hdr" && "hdr" + "" == "hdr";
    EndsWith(list, "hdr");
    SplitEnd(list, "hdr");
    SplitPlain("hdr", "");
  }

  lemma ShownKeysApart()
    ensures SCENES != ISOS && SCENES != SCENE && SCENES != VIDEO_HDRS && SCENES != VIDEO_HDR
    ensures SCENES != ISO && SCENES != SHUTTER
    ensures ISOS != SCENE && ISOS != VIDEO_HDRS && ISOS != VIDEO_HDR && ISOS != ISO && ISOS != SHUTTER
    ensures VIDEO_HDRS != VIDEO_HDR && VIDEO_HDRS != ISO && VIDEO_HDRS != SHUTTER && VIDEO_HDRS != SCENE
    ensures SONY_ISOS != SCENES
  {}

  lemma OfferIsoKeeps(t: Topic, m: Map)
    requires !About(t, ISOS)
    ensures Same(t, m, OfferIso(m))
  {
    hide About, Same, GetIn, SetIn, IsoNames, ISOS;
    PutsKeep(t);
  }

  lemma OfferHdrKeeps(t: Topic, m: Map)
    requires !About(t, SCENES)
    ensures Same(t, m, OfferHdr(m))
  {
    hide About, Same, GetIn, SetIn, ValueIn, Contains, SCENES;
    PutsKeep(t);
  }

  /** What the steps behind the two lists leave alone. */
  lemma AfterOffers(b: Map, k: string)
    requires k != SCENE && k != VIDEO_HDRS && k != VIDEO_HDR && k != ISO && k != SHUTTER
    ensures GetIn(ShowExposure(ShowVideoHdr(ShowHdr(OfferIso(b)))), k) == GetIn(OfferIso(b), k)
  {
    hide Same, OfferIso, ShowHdr, ShowVideoHdr, ShowExposure, GetIn;
    hide SCENE, VIDEO_HDRS, VIDEO_HDR, ISO, SHUTTER;
    var a := OfferIso(b);
    ShowHdrKeeps(Key(k), a);
    ShowVideoHdrKeeps(Key(k), ShowHdr(a));
    ShowExposureKeeps(Key(k), ShowVideoHdr(ShowHdr(a)));
    KeyKept(a, ShowHdr(a), k);
    KeyKept(ShowHdr(a), ShowVideoHdr(ShowHdr(a)), k);
    KeyKept(ShowVideoHdr(ShowHdr(a)), ShowExposure(ShowVideoHdr(ShowHdr(a))), k);
  }

  lemma {:induction false} NamesHaveNoNul(list: string)
    requires '\0' !in list
    ensures '\0' !in IsoNames(list)
  {
    if list != "" { NamesHaveNoNul(list[1..]); }
  }

  lemma OfferIsoOf(m: Map)
    ensures GetIn(OfferIso(m), ISOS) ==
      if GetIn(m, SONY_ISOS).None? then GetIn(m, ISOS)
      else Stored("ISO" + IsoNames(GetIn(m, SONY_ISOS).value) + ",auto", GetIn(m, ISOS))
  {
    ReadHasNoNul(m, SONY_ISOS);
    hide SetIn, GetIn, Stored, ISOS, SONY_ISOS, IsoNames;
    if GetIn(m, SONY_ISOS).Some? {
      NamesHaveNoNul(GetIn(m, SONY_ISOS).value);
      PutValue(m, ISOS, "ISO" + IsoNames(GetIn(m, SONY_ISOS).value) + ",auto");
    }
  }

  /** The ISO values are offered as the list made of the vendor's, if it has one. */
  lemma IsoListShown(m: Map)
    ensures GetIn(GetFixed(m), ISOS) ==
      if GetIn(m, SONY_ISOS).None? then GetIn(m, ISOS)
      else Stored("ISO" + IsoNames(GetIn(m, SONY_ISOS).value) + ",auto", GetIn(m, ISOS))
  {
    ShownKeysApart();
    hide Same, OfferHdr, OfferIso, ShowHdr, ShowVideoHdr, ShowExposure, GetIn, IsoNames, Stored;
    hide SCENES, ISOS, SCENE, VIDEO_HDRS, VIDEO_HDR, ISO, SHUTTER, SONY_ISOS;
    AfterOffers(OfferHdr(m), ISOS);
    OfferIsoOf(OfferHdr(m));
    OfferHdrKeeps(Key(ISOS), m);
    OfferHdrKeeps(Key(SONY_ISOS), m);
    KeyKept(m, OfferHdr(m), ISOS);
    KeyKept(m, OfferHdr(m), SONY_ISOS);
  }

  lemma ShowVideoHdrsOf(m: Map)
    ensures GetIn(ShowVideoHdr(m), VIDEO_HDRS) ==
      if GetIn(m, SONY_VIDEO_HDR).None? || GetIn(m, SONY_VIDEO_HDRS).None? then GetIn(m, VIDEO_HDRS)
      else Stored(GetIn(m, SONY_VIDEO_HDRS).value, GetIn(m, VIDEO_HDRS))
  {
    HdrKeysApart();
    ReadHasNoNul(m, SONY_VIDEO_HDRS);
    hide SetIn, GetIn, Stored, VIDEO_HDR, VIDEO_HDRS, SONY_VIDEO_HDR, SONY_VIDEO_HDRS;
    if GetIn(m, SONY_VIDEO_HDRS).Some? {
      var v := GetIn(m, SONY_VIDEO_HDRS).value;
      PutValue(m, VIDEO_HDRS, v);
      var n := SetIn(m, VIDEO_HDRS, Some(v));
      PutElsewhere(n, VIDEO_HDR, GetIn(n, SONY_VIDEO_HDR));
    }
  }

  /** Video HDR and its values are shown as the vendor has them, if it has both. */
  lemma VideoHdrShown(m: Map)
    ensures var has := GetIn(m, SONY_VIDEO_HDR).Some? && GetIn(m, SONY_VIDEO_HDRS).Some?;
      && GetIn(GetFixed(m), VIDEO_HDR) ==
           (if has then Stored(GetIn(m, SONY_VIDEO_HDR).value, GetIn(m, VIDEO_HDR)) else GetIn(m, VIDEO_HDR))
      && GetIn(GetFixed(m), VIDEO_HDRS) ==
           (if has then Stored(GetIn(m, SONY_VIDEO_HDRS).value, GetIn(m, VIDEO_HDRS)) else GetIn(m, VIDEO_HDRS))
  {
    GetHdrOf(m);
    ShowVideoHdrOf(m);
    ShownKeysApart();
    HdrKeysApart();
    SonyHdrApart();
    hide Same, OfferHdr, OfferIso, ShowHdr, ShowVideoHdr, ShowExposure, GetIn, Carried;
    hide SCENES, ISOS, SCENE, VIDEO_HDRS, VIDEO_HDR, ISO, SHUTTER, SONY_VIDEO_HDR, SONY_VIDEO_HDRS;
    var b := ShowHdr(OfferIso(OfferHdr(m)));
    HdrKeyBefore(m, VIDEO_HDRS);
    HdrKeyBefore(m, SONY_VIDEO_HDR);
    HdrKeyBefore(m, SONY_VIDEO_HDRS);
    ShowVideoHdrsOf(b);
    ShowExposureKeeps(Key(VIDEO_HDRS), ShowVideoHdr(b));
    KeyKept(ShowVideoHdr(b), GetFixed(m), VIDEO_HDRS);
  }

  lemma SonyHdrApart()
    ensures SONY_VIDEO_HDR != SCENES && SONY_VIDEO_HDR != ISOS && SONY_VIDEO_HDR != SCENE
    ensures SONY_VIDEO_HDRS != SCENES && SONY_VIDEO_HDRS != ISOS && SONY_VIDEO_HDRS != SCENE
  {}

  lemma HdrKeyBefore(m: Map, k: string)
    requires k != SCENES && k != ISOS && k != SCENE
    ensures GetIn(ShowHdr(OfferIso(OfferHdr(m))), k) == GetIn(m, k)
  {
    hide Same, OfferHdr, OfferIso, ShowHdr, GetIn, SCENES, ISOS, SCENE;
    OffersKeeps(Key(k), m);
    ShowHdrKeeps(Key(k), OfferIso(OfferHdr(m)));
    KeyKept(m, OfferIso(OfferHdr(m)), k);
    KeyKept(OfferIso(OfferHdr(m)), ShowHdr(OfferIso(OfferHdr(m))), k);
  }

  // What the vendor is told.

  /** The keys that fixupSetParameters may write. */
  predicate ToldAt(k: string)
  {
    || k == FPS_RANGE || k == SONY_SHUTTER || k == SONY_AE_MODE || k == SONY_ISO || k == SONY_STABILISER || k == SCENE
    || k == SONY_VIDEO_HDR || k == SONY_VIDEO_STABILISER
  }

  /** The steps of fixupSetParameters before the exposure, behind it, and up to the last one. */
  function Asked(m: Map): Map { SetIn(m, FPS_RANGE, Some("1000,60000")) }

  function Picked(m: Map): Map { PickIso(PickShutter(Asked(m))) }

  function AllButRecording(m: Map): Map { PickVideoHdr(PickScene(Picked(m))) }

  lemma KeptBeforeRecording(m: Map, k: string)
    requires !ToldAt(k) || k == SONY_VIDEO_STABILISER
    ensures GetIn(AllButRecording(m), k) == GetIn(m, k)
  {
    ToldKeysApart();
    hide Same, Asked, PickShutter, PickIso, PickScene, PickVideoHdr, GetIn, FPS_RANGE, SONY_SHUTTER, SONY_AE_MODE;
    hide SONY_ISO, SONY_STABILISER, SCENE, SONY_VIDEO_HDR, SONY_VIDEO_STABILISER;
    AskedKeeps(m, k);
    var a, b := PickShutter(Asked(m)), Picked(m);
    PickShutterKeeps(Key(k), Asked(m));
    PickIsoKeeps(Key(k), a);
    PickSceneKeeps(Key(k), b);
    PickVideoHdrKeeps(Key(k), PickScene(b));
    KeyKept(Asked(m), a, k);
    KeyKept(a, b, k);
    KeyKept(b, PickScene(b), k);
    KeyKept(PickScene(b), AllButRecording(m), k);
  }

  lemma AskedKeeps(m: Map, k: string)
    requires k != FPS_RANGE
    ensures GetIn(Asked(m), k) == GetIn(m, k)
  {
    PutElsewhere(m, FPS_RANGE, Some("1000,60000"));
  }

  lemma ToldKeysApart()
    ensures SONY_VIDEO_STABILISER != FPS_RANGE && SONY_VIDEO_STABILISER != SONY_SHUTTER
    ensures SONY_VIDEO_STABILISER != SONY_AE_MODE && SONY_VIDEO_STABILISER != SONY_ISO
    ensures SONY_VIDEO_STABILISER != SONY_STABILISER && SONY_VIDEO_STABILISER != SCENE
    ensures SONY_VIDEO_STABILISER != SONY_VIDEO_HDR && !ToldAt(SONY_VIDEO_STABILISERS) && !ToldAt(HINT)
  {}

  /** Every other key keeps its value. */
  lemma SetKeepsOthers(m: Map, k: string)
    requires !ToldAt(k)
    ensures GetIn(SetFixed(m), k) == GetIn(m, k)
  {
    KeptBeforeRecording(m, k);
    hide Same, AllButRecording, PickRecording, GetIn, FPS_RANGE, SONY_SHUTTER, SONY_AE_MODE;
    hide SONY_ISO, SONY_STABILISER, SCENE, SONY_VIDEO_HDR, SONY_VIDEO_STABILISER;
    assert SetFixed(m) == PickRecording(AllButRecording(m)) by { SetIsLast(m); }
    PickRecordingKeeps(Key(k), AllButRecording(m));
    KeyKept(AllButRecording(m), SetFixed(m), k);
  }

  lemma SetIsLast(m: Map)
    ensures SetFixed(m) == PickRecording(AllButRecording(m))
  {
    hide PickShutter, PickIso, PickScene, PickVideoHdr, PickRecording, SetIn;
  }

  lemma PickRecordingAt(m: Map)
    ensures GetIn(PickRecording(m), SONY_VIDEO_STABILISER) ==
      if GetIn(m, HINT) != Some("true") then GetIn(m, SONY_VIDEO_STABILISER)
      else Some(if Contains(GetIn(m, SONY_VIDEO_STABILISERS), "on-intelligent-active") then "on-intelligent-active"
                else "on")
  {
    SceneKeysApart();
    hide GetIn, SetIn, Infix, HINT, SONY_STABILISER, SONY_VIDEO_STABILISER, SONY_VIDEO_STABILISERS;
    var smart := Contains(GetIn(m, SONY_VIDEO_STABILISERS), INTELLIGENT);
    var v := if smart then INTELLIGENT else "on";
    Put(m, SONY_VIDEO_STABILISER, v);
    PutElsewhere(SetIn(m, SONY_VIDEO_STABILISER, Some(v)), SONY_STABILISER, Some("off"));
  }

  /** While recording the video stabiliser is the best one that the vendor offers, and else as it was. */
  lemma RecordingTold(m: Map)
    ensures GetIn(SetFixed(m), SONY_VIDEO_STABILISER) ==
      if GetIn(m, HINT) != Some("true") then GetIn(m, SONY_VIDEO_STABILISER)
      else Some(if Contains(GetIn(m, SONY_VIDEO_STABILISERS), "on-intelligent-active") then "on-intelligent-active"
                else "on")
  {
    ToldKeysApart();
    SetIsLast(m);
    hide SetFixed, AllButRecording, PickRecording, GetIn, Contains, HINT, SONY_VIDEO_STABILISER;
    hide SONY_VIDEO_STABILISERS, ToldAt;
    KeptBeforeRecording(m, HINT);
    KeptBeforeRecording(m, SONY_VIDEO_STABILISERS);
    KeptBeforeRecording(m, SONY_VIDEO_STABILISER);
    PickRecordingAt(AllButRecording(m));
  }

  /** The still stabiliser is off while recording, and else the one that the scene mode wants, if there is one. */
  lemma StabiliserTold(m: Map)
    ensures GetIn(SetFixed(m), SONY_STABILISER) ==
      if GetIn(m, HINT) == Some("true") then Some("off")
      else if GetIn(m, SCENE).None? then GetIn(m, SONY_STABILISER)
      else Some(if GetIn(m, SCENE).value == "hdr" then "on-still-hdr" else "on")
    ensures GetIn(SetFixed(m), SCENE) == if GetIn(m, SCENE) == Some("hdr") then Some("auto") else GetIn(m, SCENE)
  {
    hide SetFixed, PickScene, PickRecording, GetIn, SCENE, HINT, SONY_STABILISER;
    SetSceneOf(m);
    PickSceneOf(m);
    PickRecordingOf(PickScene(m));
  }

  /** The vendor's video HDR is what the application asks for, if it has any. */
  lemma VideoHdrTold(m: Map)
    ensures GetIn(SetFixed(m), SONY_VIDEO_HDR) ==
      if GetIn(m, SONY_VIDEO_HDR).None? || GetIn(m, VIDEO_HDR).None? then GetIn(m, SONY_VIDEO_HDR)
      else Stored(GetIn(m, VIDEO_HDR).value, GetIn(m, SONY_VIDEO_HDR))
  {
    hide SetFixed, PickVideoHdr, GetIn, Carried, VIDEO_HDR, SONY_VIDEO_HDR, SONY_VIDEO_HDRS;
    SetHdrOf(m);
    PickVideoHdrOf(m);
  }

  /** The exposure mode that the shutter speed asks for. */
  function ShutterMode(m: Map): Option<string>
  {
    var shutter := GetIn(m, SHUTTER);
    if shutter.Some? && shutter.value != "auto" then Some("shutter-prio")
    else if shutter.Some? && Offers(m, "auto") then Some("auto")
    else GetIn(m, SONY_AE_MODE)
  }

  /** And the mode once the ISO value has had its say. */
  function ExposureMode(m: Map): Option<string>
  {
    var iso, before := GetIn(m, ISO), ShutterMode(m);
    if iso.None? then before
    else if iso.value == "auto" then
      if Offers(m, "auto") && before != Some("shutter-prio") then Some("auto") else before
    else if Offers(m, "iso-prio") then Some(if before == Some("shutter-prio") then "manual" else "iso-prio")
    else before
  }

  /** The shutter speed that the vendor is left with. */
  function ToldShutter(m: Map): Option<string>
  {
    var shutter := GetIn(m, SHUTTER);
    if shutter.Some? && shutter.value != "auto" then Stored(shutter.value, GetIn(m, SONY_SHUTTER))
    else GetIn(m, SONY_SHUTTER)
  }

  /** And the ISO value: what is asked for, without its first three characters. */
  function ToldIso(m: Map): Option<string>
  {
    var iso := GetIn(m, ISO);
    if iso.Some? && iso.value != "auto" && |iso.value| >= 3 then Stored(iso.value[3..], GetIn(m, SONY_ISO))
    else GetIn(m, SONY_ISO)
  }

  ghost predicate TellsExposure(m: Map, n: Map)
  {
    && GetIn(n, SONY_AE_MODE) == ExposureMode(m)
    && GetIn(n, SONY_SHUTTER) == ToldShutter(m) && GetIn(n, SONY_ISO) == ToldIso(m)
  }

  lemma PickShutterAt(m: Map)
    ensures var n := PickShutter(m);
      && GetIn(n, SONY_AE_MODE) == ShutterMode(m)
      && GetIn(n, SONY_SHUTTER) ==
           (if GetIn(m, SHUTTER).Some? && GetIn(m, SHUTTER).value != "auto"
            then Stored(GetIn(m, SHUTTER).value, GetIn(m, SONY_SHUTTER)) else GetIn(m, SONY_SHUTTER))
      && (forall j :: j != SONY_SHUTTER && j != SONY_AE_MODE ==> GetIn(n, j) == GetIn(m, j))
  {
    ExposureKeysApart();
    ReadHasNoNul(m, SHUTTER);
    hide SetIn, GetIn, Stored, Infix, SONY_SHUTTER, SONY_AE_MODE, SHUTTER, SONY_AE_MODES;
    var shutter := GetIn(m, SHUTTER);
    AutoPut(m, SONY_AE_MODE);
    if shutter.Some? {
      PutValue(m, SONY_SHUTTER, shutter.value);
      Put(SetIn(m, SONY_SHUTTER, shutter), SONY_AE_MODE, "shutter-prio");
    }
  }

  lemma PickIsoAt(m: Map)
    ensures var n, iso, before := PickIso(m), GetIn(m, ISO), GetIn(m, SONY_AE_MODE);
      && GetIn(n, SONY_AE_MODE) ==
           (if iso.None? then before
            else if iso.value == "auto" then
              if Offers(m, "auto") && before != Some("shutter-prio") then Some("auto") else before
            else if Offers(m, "iso-prio") then Some(if before == Some("shutter-prio") then "manual" else "iso-prio")
            else before)
      && GetIn(n, SONY_ISO) ==
           (if iso.Some? && iso.value != "auto" && |iso.value| >= 3 then Stored(iso.value[3..], GetIn(m, SONY_ISO))
            else GetIn(m, SONY_ISO))
      && (forall j :: j != SONY_ISO && j != SONY_AE_MODE ==> GetIn(n, j) == GetIn(m, j))
  {
    ExposureKeysApart();
    ReadHasNoNul(m, ISO);
    hide SetIn, GetIn, Stored, Infix, SONY_ISO, SONY_AE_MODE, ISO, SONY_AE_MODES;
    var iso := GetIn(m, ISO);
    if iso.Some? {
      var n := if iso.value != "auto" && |iso.value| >= 3 then SetIn(m, SONY_ISO, Some(iso.value[3..])) else m;
      if iso.value != "auto" && |iso.value| >= 3 { PutValue(m, SONY_ISO, iso.value[3..]); }
      Put(n, SONY_AE_MODE, "auto");
      Put(n, SONY_AE_MODE, "manual");
      Put(n, SONY_AE_MODE, "iso-prio");
    }
  }

  lemma AskedIsSame(m: Map)
    ensures Same(Exposure, m, Asked(m))
  {
    KeysApart();
    FpsKeeps(Exposure, m);
  }

  lemma PickedTells(m: Map)
    ensures TellsExposure(m, Picked(m))
  {
    ExposureKeysApart();
    AskedIsSame(m);
    var a := Asked(m);
    ExposureSeen(m, a);
    hide Same, Asked, PickShutter, PickIso, GetIn, Stored, Infix;
    hide SONY_SHUTTER, SONY_ISO, SONY_AE_MODE, SHUTTER, SONY_AE_MODES, ISO;
    PickShutterAt(a);
    PickIsoAt(PickShutter(a));
  }

  lemma ExposureSeen(m: Map, n: Map)
    requires Same(Exposure, m, n)
    ensures GetIn(n, SHUTTER) == GetIn(m, SHUTTER) && GetIn(n, ISO) == GetIn(m, ISO)
    ensures GetIn(n, SONY_SHUTTER) == GetIn(m, SONY_SHUTTER) && GetIn(n, SONY_ISO) == GetIn(m, SONY_ISO)
    ensures GetIn(n, SONY_AE_MODE) == GetIn(m, SONY_AE_MODE) && GetIn(n, SONY_AE_MODES) == GetIn(m, SONY_AE_MODES)
  {
    hide GetIn, SONY_SHUTTER, SONY_ISO, SONY_AE_MODE, SHUTTER, SONY_AE_MODES, ISO;
  }

  lemma TellsSame(m: Map, a: Map, b: Map)
    requires TellsExposure(m, a) && Same(Exposure, a, b)
    ensures TellsExposure(m, b)
  {
    ExposureSeen(a, b);
    hide Same, GetIn, Stored, ExposureMode, ToldShutter, ToldIso;
    hide SONY_SHUTTER, SONY_ISO, SONY_AE_MODE, SHUTTER, SONY_AE_MODES, ISO;
  }

  /** Mode, ISO value and shutter speed that the vendor is told, for every map. */
  lemma ExposureTold(m: Map)
    ensures TellsExposure(m, SetFixed(m))
  {
    hide Same, About, TellsExposure, Asked, PickShutter, PickIso, PickScene, PickVideoHdr, PickRecording, SetIn;
    KeysApart();
    PickedTells(m);
    var b := Picked(m);
    PickSceneKeeps(Exposure, b);
    TellsSame(m, b, PickScene(b));
    PickVideoHdrKeeps(Exposure, PickScene(b));
    TellsSame(m, PickScene(b), AllButRecording(m));
    PickRecordingKeeps(Exposure, AllButRecording(m));
    TellsSame(m, AllButRecording(m), PickRecording(AllButRecording(m)));
    SetIsLast(m);
  }

  lemma FpsTold(m: Map)
    ensures GetIn(SetFixed(m), FPS_RANGE) == Some("1000,60000")
  {
    FpsApart();
    Put(m, FPS_RANGE, "1000,60000");
    SetIsLast(m);
    var a := Asked(m);
    assert GetIn(a, FPS_RANGE) == Some("1000,60000");
    hide Same, Asked, PickShutter, PickIso, PickScene, PickVideoHdr, PickRecording, SetFixed, GetIn;
    hide FPS_RANGE, SONY_SHUTTER, SONY_AE_MODE, SONY_ISO, SONY_STABILISER, SCENE, SONY_VIDEO_HDR;
    hide SONY_VIDEO_STABILISER;
    var k, b := FPS_RANGE, Picked(m);
    PickShutterKeeps(Key(k), a);
    PickIsoKeeps(Key(k), PickShutter(a));
    PickSceneKeeps(Key(k), b);
    PickVideoHdrKeeps(Key(k), PickScene(b));
    PickRecordingKeeps(Key(k), AllButRecording(m));
    KeyKept(a, PickShutter(a), k);
    KeyKept(PickShutter(a), b, k);
    KeyKept(b, PickScene(b), k);
    KeyKept(PickScene(b), AllButRecording(m), k);
    KeyKept(AllButRecording(m), SetFixed(m), k);
  }

  lemma FpsApart()
    ensures FPS_RANGE != SONY_SHUTTER && FPS_RANGE != SONY_AE_MODE && FPS_RANGE != SONY_ISO
    ensures FPS_RANGE != SONY_STABILISER && FPS_RANGE != SCENE && FPS_RANGE != SONY_VIDEO_HDR
    ensures FPS_RANGE != SONY_VIDEO_STABILISER
  {}

  /** Writing v over what was asked for leaves the same to be read. */
  predicate SameShown(v: string, asked: Option<string>) { Carried(v) ==> asked == Some(v) }

  /** When shutter speed and ISO value come back as they were set, if at all. */
  predicate ExposureKept(m: Map)
  {
    || GetIn(m, SONY_AE_MODES).None? || ToldIso(m).None?
    || (var mode := if ExposureMode(m).None? then "" else ExposureMode(m).value;
        && (if mode in ["iso-prio", "manual"] then SameShown("ISO" + ToldIso(m).value, GetIn(m, ISO))
            else GetIn(m, ISO) == Some("auto"))
        && (if mode !in ["shutter-prio", "manual"] then GetIn(m, SHUTTER) == Some("auto")
            else ToldShutter(m).None? || SameShown(ToldShutter(m).value, GetIn(m, SHUTTER))))
  }

  /** For every map: shutter speed and ISO value survive exactly if the mode picked shows both of them. */
  lemma ExposureReadBack(m: Map)
    ensures var n := GetFixed(SetFixed(m));
      GetIn(n, ISO) == GetIn(m, ISO) && GetIn(n, SHUTTER) == GetIn(m, SHUTTER) <==> ExposureKept(m)
  {
    NotTold();
    hide SetFixed, GetFixed, GetIn, ToldAt, ExposureMode, ToldShutter, ToldIso, Carried;
    hide SONY_SHUTTER, SONY_ISO, SONY_AE_MODE, SHUTTER, SONY_AE_MODES, ISO;
    ExposureTold(m);
    ExposureShown(SetFixed(m));
    SetKeepsOthers(m, ISO);
    SetKeepsOthers(m, SHUTTER);
    SetKeepsOthers(m, SONY_AE_MODES);
  }

  lemma NotTold()
    ensures !ToldAt(ISO) && !ToldAt(SHUTTER) && !ToldAt(SONY_AE_MODES)
  {}
}
