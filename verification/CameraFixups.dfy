/** Translating the parameters between what the vendor camera says and what an application sees. */
module CameraFixups {
  import opened Options
  import opened Strings
  import opened CameraParams

  const FPS_RANGE := "preview-fps-range"
  const SCENE := "scene-mode"
  const SCENES := "scene-mode-values"
  const HINT := "recording-hint"
  const ISO := "iso"
  const ISOS := "iso-values"
  const SHUTTER := "shutter-speed"
  const VIDEO_HDR := "video-hdr"
  const VIDEO_HDRS := "video-hdr-values"
  const SONY_STABILISERS := "sony-is-values"
  const SONY_STABILISER := "sony-is"
  const SONY_VIDEO_STABILISER := "sony-vs"
  const SONY_VIDEO_STABILISERS := "sony-vs-values"
  const SONY_VIDEO_HDR := "sony-video-hdr"
  const SONY_VIDEO_HDRS := "sony-video-hdr-values"
  const SONY_ISOS := "sony-iso-values"
  const SONY_ISO := "sony-iso"
  const SONY_AE_MODES := "sony-ae-mode-values"
  const SONY_AE_MODE := "sony-ae-mode"
  const SONY_SHUTTER := "sony-shutter-speed"

  const STILL_HDR := "on-still-hdr"
  const INTELLIGENT := "on-intelligent-active"

  predicate Contains(list: Option<string>, item: string) { list.Some? && Infix(list.value, item) }

  /** Every comma also begins a new ISO value. */
  function IsoNames(list: string): string
  {
    if list == "" then "" else (if list[0] == ',' then ",ISO" else [list[0]]) + IsoNames(list[1..])
  }

  // The steps of fixupGetParameters.

  function OfferHdr(m: Map): Map
  {
    if Contains(GetIn(m, SONY_STABILISERS), STILL_HDR) && !Contains(GetIn(m, SCENES), "hdr")
    then SetIn(m, SCENES, Some(ValueIn(m, SCENES) + ",hdr")) else m
  }

  function OfferIso(m: Map): Map
  {
    var modes := GetIn(m, SONY_ISOS);
    if modes.None? then m else SetIn(m, ISOS, Some("ISO" + IsoNames(modes.value) + ",auto"))
  }

  function ShowHdr(m: Map): Map
  {
    if ValueIn(m, SONY_STABILISER) == STILL_HDR then SetIn(m, SCENE, Some("hdr")) else m
  }

  function ShowVideoHdr(m: Map): Map
  {
    if GetIn(m, SONY_VIDEO_HDR).Some? && GetIn(m, SONY_VIDEO_HDRS).Some? then
      var n := SetIn(m, VIDEO_HDRS, GetIn(m, SONY_VIDEO_HDRS));
      SetIn(n, VIDEO_HDR, GetIn(n, SONY_VIDEO_HDR))
    else m
  }

  function ShowExposure(m: Map): Map
  {
    var sonyIso := GetIn(m, SONY_ISO);
    if sonyIso.None? || GetIn(m, SONY_AE_MODES).None? then m
    else
      var mode, iso, shutter := ValueIn(m, SONY_AE_MODE), Some("ISO" + sonyIso.value), GetIn(m, SONY_SHUTTER);
      if mode == "iso-prio" then SetIn(SetIn(m, ISO, iso), SHUTTER, Some("auto"))
      else if mode == "shutter-prio" then SetIn(SetIn(m, ISO, Some("auto")), SHUTTER, shutter)
      else if mode == "manual" then SetIn(SetIn(m, SHUTTER, shutter), ISO, iso)
      else SetIn(SetIn(m, ISO, Some("auto")), SHUTTER, Some("auto"))
  }

  function GetFixed(m: Map): Map { ShowExposure(ShowVideoHdr(ShowHdr(OfferIso(OfferHdr(m))))) }

  // The steps of fixupSetParameters.

  function PickShutter(m: Map): Map
  {
    var shutter := GetIn(m, SHUTTER);
    if shutter.None? then m
    else if shutter.value != "auto" then SetIn(SetIn(m, SONY_SHUTTER, shutter), SONY_AE_MODE, Some("shutter-prio"))
    else if Contains(GetIn(m, SONY_AE_MODES), "auto") then SetIn(m, SONY_AE_MODE, Some("auto"))
    else m
  }

  function PickIso(m: Map): Map
  {
    var iso := GetIn(m, ISO);
    if iso.None? then m
    else
      var n := if iso.value != "auto" && |iso.value| >= 3 then SetIn(m, SONY_ISO, Some(iso.value[3..])) else m;
      var modes, mode := GetIn(n, SONY_AE_MODES), ValueIn(n, SONY_AE_MODE);
      if modes.None? then n
      else if iso.value == "auto" then
        if Contains(modes, "auto") && mode != "shutter-prio" then SetIn(n, SONY_AE_MODE, Some("auto")) else n
      else if Contains(modes, "iso-prio") then
        SetIn(n, SONY_AE_MODE, Some(if mode == "shutter-prio" then "manual" else "iso-prio"))
      else n
  }

  function PickScene(m: Map): Map
  {
    var scene := GetIn(m, SCENE);
    if scene.None? then m
    else if scene.value == "hdr" then SetIn(SetIn(m, SONY_STABILISER, Some(STILL_HDR)), SCENE, Some("auto"))
    else SetIn(m, SONY_STABILISER, Some("on"))
  }

  function PickVideoHdr(m: Map): Map
  {
    if GetIn(m, SONY_VIDEO_HDR).Some? && GetIn(m, VIDEO_HDR).Some? then SetIn(m, SONY_VIDEO_HDR, GetIn(m, VIDEO_HDR))
    else m
  }

  function PickRecording(m: Map): Map
  {
    if ValueIn(m, HINT) == "true" then
      var smart := Contains(GetIn(m, SONY_VIDEO_STABILISERS), INTELLIGENT);
      SetIn(SetIn(m, SONY_VIDEO_STABILISER, Some(if smart then INTELLIGENT else "on")), SONY_STABILISER, Some("off"))
    else m
  }

  function SetFixed(m: Map): Map
  {
    PickRecording(PickVideoHdr(PickScene(PickIso(PickShutter(SetIn(m, FPS_RANGE, Some("1000,60000")))))))
  }

  // The two translations, one method for each paragraph of the original.

  method OfferHdrStep(params: Parameters)
    modifies params
    ensures params.mMap == OfferHdr(old(params.mMap))
  {
    hide SetIn, GetIn, CStr, Infix;
    if Contains(params.Get(SONY_STABILISERS), STILL_HDR) && !Contains(params.Get(SCENES), "hdr") {
      params.Set(SCENES, Some(params.Value(SCENES) + ",hdr"));
    }
  }

  method OfferIsoStep(params: Parameters)
    modifies params
    ensures params.mMap == OfferIso(old(params.mMap))
  {
    hide SetIn, GetIn, CStr, Infix;
    var isoModes := params.Get(SONY_ISOS);
    if isoModes.Some? {
      var list := "ISO";
      var c := 0;
      while c < |isoModes.value|
        invariant c <= |isoModes.value|
        invariant "ISO" + IsoNames(isoModes.value) == list + IsoNames(isoModes.value[c..])
      {
        list := list + if isoModes.value[c] == ',' then ",ISO" else [isoModes.value[c]];
        c := c + 1;
      }
      assert isoModes.value[c..] == "" && list + "" == list;
      params.Set(ISOS, Some(list + ",auto"));
    }
  }

  method ShowHdrStep(params: Parameters)
    modifies params
    ensures params.mMap == ShowHdr(old(params.mMap))
  {
    hide SetIn, GetIn, CStr, Infix;
    if params.Value(SONY_STABILISER) == STILL_HDR { params.Set(SCENE, Some("hdr")); }
  }

  method ShowVideoHdrStep(params: Parameters)
    modifies params
    ensures params.mMap == ShowVideoHdr(old(params.mMap))
  {
    hide SetIn, GetIn, CStr, Infix;
    if params.Get(SONY_VIDEO_HDR).Some? && params.Get(SONY_VIDEO_HDRS).Some? {
      params.Set(VIDEO_HDRS, params.Get(SONY_VIDEO_HDRS));
      params.Set(VIDEO_HDR, params.Get(SONY_VIDEO_HDR));
    }
  }

  method ShowExposureStep(params: Parameters)
    modifies params
    ensures params.mMap == ShowExposure(old(params.mMap))
  {
    hide SetIn, GetIn, CStr, Infix;
    var sonyIso := params.Get(SONY_ISO);
    if sonyIso.Some? && params.Get(SONY_AE_MODES).Some? {
      var aeMode := params.Value(SONY_AE_MODE);
      var iso := "ISO" + sonyIso.value;
      var shutterSpeed := params.Get(SONY_SHUTTER);
      if aeMode == "iso-prio" {
        params.Set(ISO, Some(iso));
        params.Set(SHUTTER, Some("auto"));
      } else if aeMode == "shutter-prio" {
        params.Set(ISO, Some("auto"));
        params.Set(SHUTTER, shutterSpeed);
      } else if aeMode == "manual" {
        params.Set(SHUTTER, shutterSpeed);
        params.Set(ISO, Some(iso));
      } else {
        params.Set(ISO, Some("auto"));
        params.Set(SHUTTER, Some("auto"));
      }
    }
  }

  method FixupGetParameters(settings: string) returns (flattened: string)
    ensures IsFlattened(flattened, GetFixed(Parse(settings, map[])))
  {
    hide OfferHdr, OfferIso, ShowHdr, ShowVideoHdr, ShowExposure, IsFlattened, Parse;
    var params := new Parameters(settings);
    OfferHdrStep(params);
    OfferIsoStep(params);
    ShowHdrStep(params);
    ShowVideoHdrStep(params);
    ShowExposureStep(params);
    flattened := params.Flatten();
  }

  method PickShutterStep(params: Parameters)
    modifies params
    ensures params.mMap == PickShutter(old(params.mMap))
  {
    hide SetIn, GetIn, CStr, Infix;
    var shutterSpeed := params.Get(SHUTTER);
    if shutterSpeed.Some? {
      if shutterSpeed.value != "auto" {
        params.Set(SONY_SHUTTER, shutterSpeed);
        params.Set(SONY_AE_MODE, Some("shutter-prio"));
      } else if Contains(params.Get(SONY_AE_MODES), "auto") {
        params.Set(SONY_AE_MODE, Some("auto"));
      }
    }
  }

  method PickIsoStep(params: Parameters)
    modifies params
    ensures params.mMap == PickIso(old(params.mMap))
  {
    hide SetIn, GetIn, CStr, Infix;
    var isoMode := params.Get(ISO);
    if isoMode.Some? {
      var autoIso := isoMode.value == "auto";
      if !autoIso && |isoMode.value| >= 3 { params.Set(SONY_ISO, Some(isoMode.value[3..])); }
      var aeModes := params.Get(SONY_AE_MODES);
      if aeModes.Some? {
        var aeMode := params.Value(SONY_AE_MODE);
        if autoIso {
          if Contains(aeModes, "auto") && aeMode != "shutter-prio" { params.Set(SONY_AE_MODE, Some("auto")); }
        } else if Contains(aeModes, "iso-prio") {
          params.Set(SONY_AE_MODE, Some(if aeMode == "shutter-prio" then "manual" else "iso-prio"));
        }
      }
    }
  }

  method PickSceneStep(params: Parameters)
    modifies params
    ensures params.mMap == PickScene(old(params.mMap))
  {
    hide SetIn, GetIn, CStr, Infix;
    var sceneMode := params.Get(SCENE);
    if sceneMode.Some? {
      if sceneMode.value == "hdr" {
        params.Set(SONY_STABILISER, Some(STILL_HDR));
        params.Set(SCENE, Some("auto"));
      } else {
        params.Set(SONY_STABILISER, Some("on"));
      }
    }
  }

  method PickVideoHdrStep(params: Parameters)
    modifies params
    ensures params.mMap == PickVideoHdr(old(params.mMap))
  {
    hide SetIn, GetIn, CStr, Infix;
    if params.Get(SONY_VIDEO_HDR).Some? && params.Get(VIDEO_HDR).Some? {
      params.Set(SONY_VIDEO_HDR, params.Get(VIDEO_HDR));
    }
  }

  method PickRecordingStep(params: Parameters)
    modifies params
    ensures params.mMap == PickRecording(old(params.mMap))
  {
    hide SetIn, GetIn, CStr, Infix;
    if params.Value(HINT) == "true" {
      var smart := Contains(params.Get(SONY_VIDEO_STABILISERS), INTELLIGENT);
      params.Set(SONY_VIDEO_STABILISER, Some(if smart then INTELLIGENT else "on"));
      params.Set(SONY_STABILISER, Some("off"));
    }
  }

  method FixupSetParameters(settings: string) returns (flattened: string)
    ensures IsFlattened(flattened, SetFixed(Parse(settings, map[])))
  {
    hide PickShutter, PickIso, PickScene, PickVideoHdr, PickRecording, IsFlattened, Parse, SetIn;
    var params := new Parameters(settings);
    params.Set(FPS_RANGE, Some("1000,60000"));
    PickShutterStep(params);
    PickIsoStep(params);
    PickSceneStep(params);
    PickVideoHdrStep(params);
    PickRecordingStep(params);
    flattened := params.Flatten();
  }

  // What an application that sets its parameters sees when it reads them back.

  /** A value that Set stores unchanged. */
  predicate Bare(v: string) { '=' !in v && ';' !in v && '\0' !in v }

  lemma CStrBare(v: string)
    requires '\0' !in v
    ensures CStr(v) == v
  {
    IndexOfAbsent(v, '\0');
  }

  /** Setting key k shows at k and nowhere else. */
  lemma Put(m: Map, k: string, v: string)
    requires Bare(v)
    ensures GetIn(SetIn(m, k, Some(v)), k) == Some(v)
    ensures forall j :: j != k ==> GetIn(SetIn(m, k, Some(v)), j) == GetIn(m, j)
  {
    CStrBare(v);
    hide CStr;
  }

  /** What is read from a map that a string can carry has neither ';' nor NUL. */
  lemma ReadBare(m: Map, k: string)
    requires Clean(m) && GetIn(m, k).Some? && '=' !in GetIn(m, k).value
    ensures Bare(GetIn(m, k).value)
  {
    hide IndexOf;
  }

  /** Setting key k to any value leaves the others as they are. */
  lemma PutElsewhere(m: Map, k: string, v: Option<string>)
    ensures forall j :: j != k ==> GetIn(SetIn(m, k, v), j) == GetIn(m, j)
  {
    hide CStr;
  }

  /** What the translations are about, as far as applications see it. */
  datatype Topic = Exposure | SceneMode | Hdr | Key(key: string)

  /** The keys that decide what is seen. */
  predicate About(t: Topic, k: string)
  {
    match t
    case Exposure =>
      k == SHUTTER || k == ISO || k == SONY_AE_MODES || k == SONY_AE_MODE || k == SONY_ISO || k == SONY_SHUTTER
    case SceneMode => k == SCENE || k == SONY_STABILISER || k == HINT
    case Hdr => k == VIDEO_HDR || k == SONY_VIDEO_HDR || k == SONY_VIDEO_HDRS
    case Key(key) => k == key
  }

  lemma KeysApart()
    ensures !About(Exposure, FPS_RANGE) && !About(Exposure, SCENE) && !About(Exposure, SONY_STABILISER)
    ensures !About(Exposure, SONY_VIDEO_HDR) && !About(Exposure, SONY_VIDEO_STABILISER)
    ensures !About(Exposure, SCENES) && !About(Exposure, ISOS)
    ensures !About(Exposure, VIDEO_HDR) && !About(Exposure, VIDEO_HDRS)
  {}

  lemma SceneKeysApart()
    ensures !About(SceneMode, FPS_RANGE) && !About(SceneMode, SONY_VIDEO_HDR) && !About(SceneMode, SCENES)
    ensures !About(SceneMode, ISOS) && !About(SceneMode, VIDEO_HDR) && !About(SceneMode, VIDEO_HDRS)
    ensures !About(SceneMode, SHUTTER) && !About(SceneMode, ISO) && !About(SceneMode, SONY_AE_MODE)
    ensures !About(SceneMode, SONY_ISO) && !About(SceneMode, SONY_SHUTTER)
    ensures SCENE != SONY_STABILISER && HINT != SCENE && HINT != SONY_STABILISER
    ensures SONY_VIDEO_STABILISER != SCENE && SONY_VIDEO_STABILISER != HINT
    ensures SONY_VIDEO_STABILISER != SONY_STABILISER
  {}

  lemma HdrKeysApart()
    ensures !About(Hdr, FPS_RANGE) && !About(Hdr, SCENE) && !About(Hdr, SCENES) && !About(Hdr, ISOS)
    ensures !About(Hdr, SHUTTER) && !About(Hdr, ISO) && !About(Hdr, SONY_AE_MODE) && !About(Hdr, SONY_ISO)
    ensures !About(Hdr, SONY_SHUTTER) && !About(Hdr, SONY_STABILISER) && !About(Hdr, SONY_VIDEO_STABILISER)
    ensures VIDEO_HDR != SONY_VIDEO_HDR && VIDEO_HDR != SONY_VIDEO_HDRS && SONY_VIDEO_HDR != SONY_VIDEO_HDRS
    ensures VIDEO_HDRS != VIDEO_HDR && VIDEO_HDRS != SONY_VIDEO_HDR && VIDEO_HDRS != SONY_VIDEO_HDRS
  {}

  lemma ExposureKeysApart()
    ensures SONY_SHUTTER != SONY_AE_MODE && SONY_ISO != SONY_AE_MODE && SONY_ISO != SONY_SHUTTER
    ensures SHUTTER != ISO && SHUTTER != SONY_SHUTTER && SHUTTER != SONY_AE_MODE && SHUTTER != SONY_ISO
    ensures ISO != SONY_SHUTTER && ISO != SONY_AE_MODE && ISO != SONY_ISO
    ensures SONY_AE_MODES != SONY_SHUTTER && SONY_AE_MODES != SONY_AE_MODE && SONY_AE_MODES != SONY_ISO
    ensures SONY_AE_MODES != SHUTTER && SONY_AE_MODES != ISO
  {}

  /** n shows the same as m on a topic. */
  ghost predicate Same(t: Topic, m: Map, n: Map) { forall j :: About(t, j) ==> GetIn(n, j) == GetIn(m, j) }

  /** Setting another key changes nothing about a topic, nor does one such change after another. */
  lemma PutsKeep(t: Topic)
    ensures forall m: Map, k, v :: !About(t, k) ==> Same(t, m, SetIn(m, k, v))
    ensures forall m: Map :: Same(t, m, m)
    ensures forall a: Map, b: Map, c: Map :: Same(t, a, b) && Same(t, b, c) ==> Same(t, a, c)
  {
    hide About, GetIn, SetIn;
    forall m: Map, k, v | !About(t, k) ensures Same(t, m, SetIn(m, k, v)) { PutElsewhere(m, k, v); }
  }

  lemma FpsKeeps(t: Topic, m: Map)
    requires !About(t, FPS_RANGE)
    ensures Same(t, m, SetIn(m, FPS_RANGE, Some("1000,60000")))
  {
    hide About, Same, GetIn, SetIn, FPS_RANGE;
    PutsKeep(t);
  }

  lemma PickShutterKeeps(t: Topic, m: Map)
    requires !About(t, SONY_SHUTTER) && !About(t, SONY_AE_MODE)
    ensures Same(t, m, PickShutter(m))
  {
    hide About, Same, GetIn, SetIn, Contains, SONY_SHUTTER, SONY_AE_MODE;
    PutsKeep(t);
  }

  lemma PickIsoKeeps(t: Topic, m: Map)
    requires !About(t, SONY_ISO) && !About(t, SONY_AE_MODE)
    ensures Same(t, m, PickIso(m))
  {
    hide About, Same, GetIn, SetIn, ValueIn, Contains, SONY_ISO, SONY_AE_MODE;
    PutsKeep(t);
  }

  lemma PickSceneKeeps(t: Topic, m: Map)
    requires !About(t, SONY_STABILISER) && !About(t, SCENE)
    ensures Same(t, m, PickScene(m))
  {
    hide About, Same, GetIn, SetIn, SONY_STABILISER, SCENE, STILL_HDR;
    PutsKeep(t);
  }

  lemma PickVideoHdrKeeps(t: Topic, m: Map)
    requires !About(t, SONY_VIDEO_HDR)
    ensures Same(t, m, PickVideoHdr(m))
  {
    hide About, Same, GetIn, SetIn, SONY_VIDEO_HDR;
    PutsKeep(t);
  }

  lemma PickRecordingKeeps(t: Topic, m: Map)
    requires !About(t, SONY_VIDEO_STABILISER) && !About(t, SONY_STABILISER)
    ensures Same(t, m, PickRecording(m))
  {
    hide About, Same, GetIn, SetIn, ValueIn, Contains, SONY_VIDEO_STABILISER, SONY_STABILISER, INTELLIGENT;
    PutsKeep(t);
  }

  lemma OffersKeeps(t: Topic, m: Map)
    requires !About(t, SCENES) && !About(t, ISOS)
    ensures Same(t, m, OfferIso(OfferHdr(m)))
  {
    hide About, Same, GetIn, SetIn, ValueIn, Contains, IsoNames, SCENES, ISOS;
    PutsKeep(t);
  }

  lemma ShowHdrKeeps(t: Topic, m: Map)
    requires !About(t, SCENE)
    ensures Same(t, m, ShowHdr(m))
  {
    hide About, Same, GetIn, SetIn, ValueIn, SCENE, STILL_HDR;
    PutsKeep(t);
  }

  lemma ShowVideoHdrKeeps(t: Topic, m: Map)
    requires !About(t, VIDEO_HDRS) && !About(t, VIDEO_HDR)
    ensures Same(t, m, ShowVideoHdr(m))
  {
    hide About, Same, GetIn, SetIn, VIDEO_HDRS, VIDEO_HDR;
    PutsKeep(t);
  }

  lemma ShowExposureKeeps(t: Topic, m: Map)
    requires !About(t, ISO) && !About(t, SHUTTER)
    ensures Same(t, m, ShowExposure(m))
  {
    hide About, Same, GetIn, SetIn, ValueIn, ISO, SHUTTER;
    PutsKeep(t);
  }

  /** An ISO value as applications write it. */
  predicate AppIso(iso: string) { iso == "auto" || "ISO" <= iso }

  /** The shutter speed and the ISO value an application asks for. */
  datatype Wish = Wish(shutter: string, iso: string)

  predicate Storable(w: Wish) { Bare(w.shutter) && Bare(w.iso) && AppIso(w.iso) }

  ghost predicate Asks(m: Map, w: Wish) { GetIn(m, SHUTTER) == Some(w.shutter) && GetIn(m, ISO) == Some(w.iso) }

  /** The exposure mode that carries a wish, where the camera offers "auto", and "iso-prio" if prio. */
  function Mode(w: Wish, prio: bool): string
  {
    if w.iso == "auto" || !prio then if w.shutter == "auto" then "auto" else "shutter-prio"
    else if w.shutter == "auto" then "iso-prio" else "manual"
  }

  lemma PickShutterShows(m: Map, w: Wish)
    requires Asks(m, w) && Storable(w) && Contains(GetIn(m, SONY_AE_MODES), "auto")
    ensures var n := PickShutter(m);
      && (forall j :: j != SONY_SHUTTER && j != SONY_AE_MODE ==> GetIn(n, j) == GetIn(m, j))
      && GetIn(n, SONY_AE_MODE) == Some(Mode(w, false))
      && (w.shutter != "auto" ==> GetIn(n, SONY_SHUTTER) == Some(w.shutter))
  {
    hide SetIn, GetIn, Infix, Contains, SONY_SHUTTER, SONY_AE_MODE, SHUTTER, SONY_AE_MODES, ISO;
    ExposureKeysApart();
    Put(m, SONY_SHUTTER, w.shutter);
    Put(m, SONY_AE_MODE, "auto");
    Put(SetIn(m, SONY_SHUTTER, Some(w.shutter)), SONY_AE_MODE, "shutter-prio");
  }

  lemma PickIsoShows(m: Map, w: Wish)
    requires Asks(m, w) && Storable(w) && Contains(GetIn(m, SONY_AE_MODES), "auto")
    requires GetIn(m, SONY_AE_MODE) == Some(Mode(w, false))
    ensures var n := PickIso(m);
      && (forall j :: j != SONY_ISO && j != SONY_AE_MODE ==> GetIn(n, j) == GetIn(m, j))
      && GetIn(n, SONY_AE_MODE) == Some(Mode(w, Contains(GetIn(m, SONY_AE_MODES), "iso-prio")))
      && (w.iso != "auto" ==> GetIn(n, SONY_ISO) == Some(w.iso[3..]))
  {
    hide SetIn, GetIn, Infix, SONY_ISO, SONY_AE_MODE, SHUTTER, SONY_AE_MODES, ISO;
    ExposureKeysApart();
    var n := if w.iso != "auto" then SetIn(m, SONY_ISO, Some(w.iso[3..])) else m;
    if w.iso != "auto" { Put(m, SONY_ISO, w.iso[3..]); }
    Put(n, SONY_AE_MODE, "auto");
    Put(n, SONY_AE_MODE, "manual");
    Put(n, SONY_AE_MODE, "iso-prio");
  }

  /** What setting leaves behind for a wish. */
  ghost predicate Carries(m: Map, w: Wish, prio: bool)
  {
    && Asks(m, w)
    && GetIn(m, SONY_AE_MODES).Some?
    && GetIn(m, SONY_AE_MODE) == Some(Mode(w, prio))
    && (w.shutter != "auto" ==> GetIn(m, SONY_SHUTTER) == Some(w.shutter))
    && (w.iso != "auto" ==> |w.iso| >= 3 && GetIn(m, SONY_ISO) == Some(w.iso[3..]))
  }

  predicate Offers(m: Map, mode: string) { Contains(GetIn(m, SONY_AE_MODES), mode) }

  lemma PicksCarry(m: Map, w: Wish)
    requires Asks(m, w) && Storable(w) && Offers(m, "auto")
    ensures Carries(PickIso(PickShutter(m)), w, Offers(m, "iso-prio"))
  {
    PickShutterShows(m, w);
    var a := PickShutter(m);
    hide SetIn, GetIn, Infix, SONY_SHUTTER, SONY_ISO, SONY_AE_MODE, SHUTTER, SONY_AE_MODES, ISO;
    ExposureKeysApart();
    hide PickShutter, PickIso, Mode;
    PickIsoShows(a, w);
  }

  lemma CarriesSame(m: Map, n: Map, w: Wish, prio: bool)
    requires Same(Exposure, m, n) && Carries(m, w, prio)
    ensures Carries(n, w, prio)
  {
    hide GetIn, Mode, SONY_SHUTTER, SONY_ISO, SONY_AE_MODE, SHUTTER, SONY_AE_MODES, ISO;
  }

  lemma AsksSame(m: Map, n: Map, w: Wish)
    requires Same(Exposure, m, n) && Asks(m, w)
    ensures Asks(n, w) && GetIn(n, SONY_AE_MODES) == GetIn(m, SONY_AE_MODES)
  {
    hide GetIn, SONY_SHUTTER, SONY_ISO, SONY_AE_MODE, SHUTTER, SONY_AE_MODES, ISO;
  }

  lemma SetCarries(m: Map, w: Wish)
    requires Asks(m, w) && Storable(w) && Offers(m, "auto")
    ensures Carries(SetFixed(m), w, Offers(m, "iso-prio"))
  {
    hide Same, About, Carries, Asks, Storable, SetIn, GetIn, Contains, PickIso, PickShutter;
    hide PickScene, PickVideoHdr, PickRecording;
    var prio := Offers(m, "iso-prio");
    var a := SetIn(m, FPS_RANGE, Some("1000,60000"));
    KeysApart();
    FpsKeeps(Exposure, m);
    AsksSame(m, a, w);
    PicksCarry(a, w);
    var b := PickIso(PickShutter(a));
    PickSceneKeeps(Exposure, b);
    CarriesSame(b, PickScene(b), w, prio);
    var c := PickScene(b);
    PickVideoHdrKeeps(Exposure, c);
    CarriesSame(c, PickVideoHdr(c), w, prio);
    PickRecordingKeeps(Exposure, PickVideoHdr(c));
    CarriesSame(PickVideoHdr(c), SetFixed(m), w, prio);
  }

  lemma ShowExposureShows(m: Map, w: Wish, prio: bool)
    requires Storable(w) && Carries(m, w, prio)
    ensures Asks(ShowExposure(m), w) <==> w.iso == "auto" || prio
  {
    hide SetIn, GetIn, SONY_SHUTTER, SONY_ISO, SONY_AE_MODE, SHUTTER, SONY_AE_MODES, ISO;
    ExposureKeysApart();
    var sonyIso := GetIn(m, SONY_ISO);
    if sonyIso.Some? {
      var iso := "ISO" + sonyIso.value;
      assert w.iso != "auto" ==> iso == w.iso;
      Put(m, ISO, "auto");
      var a := SetIn(m, ISO, Some("auto"));
      Put(a, SHUTTER, "auto");
      Put(a, SHUTTER, w.shutter);
      Put(m, SHUTTER, w.shutter);
      if w.iso != "auto" {
        Put(m, ISO, iso);
        Put(SetIn(m, ISO, Some(iso)), SHUTTER, "auto");
        Put(SetIn(m, SHUTTER, Some(w.shutter)), ISO, iso);
      }
    }
  }

  lemma GetShows(m: Map, w: Wish, prio: bool)
    requires Storable(w) && Carries(m, w, prio)
    ensures Asks(GetFixed(m), w) <==> w.iso == "auto" || prio
  {
    hide Same, About, Carries, Asks, Storable;
    hide OfferHdr, OfferIso, ShowHdr, ShowVideoHdr, ShowExposure;
    var a := OfferIso(OfferHdr(m));
    KeysApart();
    OffersKeeps(Exposure, m);
    CarriesSame(m, a, w, prio);
    ShowHdrKeeps(Exposure, a);
    CarriesSame(a, ShowHdr(a), w, prio);
    ShowVideoHdrKeeps(Exposure, ShowHdr(a));
    CarriesSame(ShowHdr(a), ShowVideoHdr(ShowHdr(a)), w, prio);
    ShowExposureShows(ShowVideoHdr(ShowHdr(a)), w, prio);
  }

  /** Where "auto" is offered, shutter speed and ISO value come back exactly if ISO is auto or has a mode. */
  lemma ExposureSurvives(m: Map, w: Wish)
    requires Asks(m, w) && Storable(w) && Offers(m, "auto")
    ensures Asks(GetFixed(SetFixed(m)), w) <==> w.iso == "auto" || Offers(m, "iso-prio")
  {
    hide Carries, Asks, Storable, Offers, SetFixed, GetFixed;
    SetCarries(m, w);
    GetShows(SetFixed(m), w, Offers(m, "iso-prio"));
  }

  /** When the scene mode comes back as it was set. */
  predicate SceneKept(m: Map)
  {
    if GetIn(m, SCENE).Some? then !(GetIn(m, SCENE).value == "hdr" && ValueIn(m, HINT) == "true")
    else ValueIn(m, HINT) == "true" || ValueIn(m, SONY_STABILISER) != STILL_HDR
  }

  /** What is seen at the scene keys. */
  datatype Scene = Scene(mode: Option<string>, stabiliser: Option<string>, hint: Option<string>)

  function SceneOf(m: Map): Scene { Scene(GetIn(m, SCENE), GetIn(m, SONY_STABILISER), GetIn(m, HINT)) }

  lemma SameSceneOf(m: Map, n: Map)
    requires Same(SceneMode, m, n)
    ensures SceneOf(m) == SceneOf(n)
  {
    hide GetIn, SCENE, SONY_STABILISER, HINT;
  }

  lemma PickSceneOf(m: Map)
    ensures SceneOf(PickScene(m)) ==
      var s := SceneOf(m);
      if s.mode.None? then s
      else if s.mode.value == "hdr" then s.(mode := Some("auto"), stabiliser := Some(STILL_HDR))
      else s.(stabiliser := Some("on"))
  {
    hide GetIn, SetIn, SCENE, HINT, SONY_STABILISER;
    SceneKeysApart();
    Put(m, SONY_STABILISER, STILL_HDR);
    Put(m, SONY_STABILISER, "on");
    Put(SetIn(m, SONY_STABILISER, Some(STILL_HDR)), SCENE, "auto");
  }

  lemma PickRecordingOf(m: Map)
    ensures SceneOf(PickRecording(m)) ==
      var s := SceneOf(m);
      if s.hint == Some("true") then s.(stabiliser := Some("off")) else s
  {
    hide GetIn, SetIn, SCENE, HINT, SONY_STABILISER, SONY_VIDEO_STABILISER, SONY_VIDEO_STABILISERS, Contains;
    SceneKeysApart();
    var smart := Contains(GetIn(m, SONY_VIDEO_STABILISERS), INTELLIGENT);
    var v := if smart then INTELLIGENT else "on";
    PutElsewhere(m, SONY_VIDEO_STABILISER, Some(v));
    Put(SetIn(m, SONY_VIDEO_STABILISER, Some(v)), SONY_STABILISER, "off");
  }

  lemma ShowHdrOf(m: Map)
    ensures SceneOf(ShowHdr(m)) ==
      var s := SceneOf(m);
      if s.stabiliser == Some(STILL_HDR) then s.(mode := Some("hdr")) else s
  {
    hide GetIn, SetIn, SCENE, HINT, SONY_STABILISER;
    SceneKeysApart();
    Put(m, SCENE, "hdr");
  }

  lemma SetSceneOf(m: Map)
    ensures SceneOf(SetFixed(m)) == SceneOf(PickRecording(PickScene(m)))
  {
    hide Same, About, SceneOf, PickIso, PickShutter, PickScene, PickVideoHdr, PickRecording, SetIn;
    var a := SetIn(m, FPS_RANGE, Some("1000,60000"));
    var b := PickIso(PickShutter(a));
    var c := PickScene(b);
    SceneKeysApart();
    FpsKeeps(SceneMode, m);
    SameSceneOf(m, a);
    PickShutterKeeps(SceneMode, a);
    SameSceneOf(a, PickShutter(a));
    PickIsoKeeps(SceneMode, PickShutter(a));
    SameSceneOf(PickShutter(a), b);
    PickSceneOf(b);
    PickSceneOf(m);
    PickVideoHdrKeeps(SceneMode, c);
    SameSceneOf(c, PickVideoHdr(c));
    PickRecordingOf(PickVideoHdr(c));
    PickRecordingOf(PickScene(m));
  }

  lemma GetSceneOf(m: Map)
    ensures SceneOf(GetFixed(m)) == SceneOf(ShowHdr(m))
  {
    hide Same, About, SceneOf, OfferHdr, OfferIso, ShowHdr, ShowVideoHdr, ShowExposure;
    var a := OfferIso(OfferHdr(m));
    SceneKeysApart();
    OffersKeeps(SceneMode, m);
    SameSceneOf(m, a);
    ShowHdrOf(a);
    ShowHdrOf(m);
    ShowVideoHdrKeeps(SceneMode, ShowHdr(a));
    SameSceneOf(ShowHdr(a), ShowVideoHdr(ShowHdr(a)));
    ShowExposureKeeps(SceneMode, ShowVideoHdr(ShowHdr(a)));
    SameSceneOf(ShowVideoHdr(ShowHdr(a)), GetFixed(m));
  }

  /** The scene mode comes back exactly if HDR is not asked for while recording, nor left set with no scene mode. */
  lemma SceneSurvives(m: Map)
    ensures GetIn(GetFixed(SetFixed(m)), SCENE) == GetIn(m, SCENE) <==> SceneKept(m)
  {
    hide SetFixed, GetFixed, PickRecording, PickScene, ShowHdr, GetIn, SCENE, HINT, SONY_STABILISER;
    SetSceneOf(m);
    GetSceneOf(SetFixed(m));
    PickSceneOf(m);
    PickRecordingOf(PickScene(m));
    ShowHdrOf(SetFixed(m));
    assert STILL_HDR != "on" && STILL_HDR != "off" && "hdr" != "auto";
  }

  /** A value that the format can carry. */
  predicate Carried(v: string) { '=' !in v && ';' !in v }

  /** When the video HDR setting comes back as it was set. */
  predicate VideoHdrKept(m: Map)
  {
    || GetIn(m, SONY_VIDEO_HDR).None? || GetIn(m, SONY_VIDEO_HDRS).None?
    || (GetIn(m, VIDEO_HDR).Some? && Carried(GetIn(m, VIDEO_HDR).value))
    || !Carried(GetIn(m, SONY_VIDEO_HDR).value)
  }

  lemma ReadNoNul(m: Map, k: string)
    ensures GetIn(m, k).Some? ==> CStr(GetIn(m, k).value) == GetIn(m, k).value
  {
    if k in m { CStrBare(CStr(m[k])); }
  }

  /** Setting key k to a value read from the map. */
  lemma PutRead(m: Map, k: string, n: Map, from: string)
    requires GetIn(n, from).Some?
    ensures var v := GetIn(n, from);
      GetIn(SetIn(m, k, v), k) == if Carried(v.value) then v else GetIn(m, k)
  {
    ReadNoNul(n, from);
    hide CStr;
  }

  /** What is seen at the video HDR keys. */
  datatype VideoHdr = VideoHdr(shown: Option<string>, sony: Option<string>, values: Option<string>)

  function HdrOf(m: Map): VideoHdr
  {
    VideoHdr(GetIn(m, VIDEO_HDR), GetIn(m, SONY_VIDEO_HDR), GetIn(m, SONY_VIDEO_HDRS))
  }

  lemma SameHdrOf(m: Map, n: Map)
    requires Same(Hdr, m, n)
    ensures HdrOf(m) == HdrOf(n)
  {
    hide GetIn, VIDEO_HDR, SONY_VIDEO_HDR, SONY_VIDEO_HDRS;
  }

  lemma PickVideoHdrOf(m: Map)
    ensures HdrOf(PickVideoHdr(m)) ==
      var s := HdrOf(m);
      if s.sony.Some? && s.shown.Some? && Carried(s.shown.value) then s.(sony := s.shown) else s
  {
    hide GetIn, SetIn, VIDEO_HDR, SONY_VIDEO_HDR, SONY_VIDEO_HDRS, Carried;
    HdrKeysApart();
    PutElsewhere(m, SONY_VIDEO_HDR, GetIn(m, VIDEO_HDR));
    if GetIn(m, VIDEO_HDR).Some? { PutRead(m, SONY_VIDEO_HDR, m, VIDEO_HDR); }
  }

  lemma ShowVideoHdrOf(m: Map)
    ensures HdrOf(ShowVideoHdr(m)) ==
      var s := HdrOf(m);
      if s.sony.Some? && s.values.Some? && Carried(s.sony.value) then s.(shown := s.sony) else s
  {
    hide GetIn, SetIn, VIDEO_HDR, SONY_VIDEO_HDR, SONY_VIDEO_HDRS, VIDEO_HDRS, Carried;
    HdrKeysApart();
    var n := SetIn(m, VIDEO_HDRS, GetIn(m, SONY_VIDEO_HDRS));
    PutElsewhere(m, VIDEO_HDRS, GetIn(m, SONY_VIDEO_HDRS));
    PutElsewhere(n, VIDEO_HDR, GetIn(n, SONY_VIDEO_HDR));
    if GetIn(m, SONY_VIDEO_HDR).Some? { PutRead(n, VIDEO_HDR, n, SONY_VIDEO_HDR); }
  }

  lemma SetHdrOf(m: Map)
    ensures HdrOf(SetFixed(m)) == HdrOf(PickVideoHdr(m))
  {
    HdrKeysApart();
    hide Same, About, HdrOf, PickIso, PickShutter, PickScene, PickVideoHdr, PickRecording, SetIn;
    var a := SetIn(m, FPS_RANGE, Some("1000,60000"));
    var b, c := PickShutter(a), PickIso(PickShutter(a));
    FpsKeeps(Hdr, m);
    SameHdrOf(m, a);
    PickShutterKeeps(Hdr, a);
    SameHdrOf(a, b);
    PickIsoKeeps(Hdr, b);
    SameHdrOf(b, c);
    PickSceneKeeps(Hdr, c);
    SameHdrOf(c, PickScene(c));
    PickVideoHdrOf(PickScene(c));
    PickVideoHdrOf(m);
    PickRecordingKeeps(Hdr, PickVideoHdr(PickScene(c)));
    SameHdrOf(PickVideoHdr(PickScene(c)), SetFixed(m));
  }

  lemma GetHdrOf(m: Map)
    ensures HdrOf(GetFixed(m)) == HdrOf(ShowVideoHdr(m))
  {
    HdrKeysApart();
    hide Same, About, HdrOf, OfferHdr, OfferIso, ShowHdr, ShowVideoHdr, ShowExposure;
    var a := OfferIso(OfferHdr(m));
    OffersKeeps(Hdr, m);
    SameHdrOf(m, a);
    ShowHdrKeeps(Hdr, a);
    SameHdrOf(a, ShowHdr(a));
    ShowVideoHdrOf(ShowHdr(a));
    ShowVideoHdrOf(m);
    ShowExposureKeeps(Hdr, ShowVideoHdr(ShowHdr(a)));
    SameHdrOf(ShowVideoHdr(ShowHdr(a)), GetFixed(m));
  }

  /** The video HDR setting comes back exactly if it can be carried, or the vendor's is not shown at all. */
  lemma VideoHdrSurvives(m: Map)
    ensures GetIn(GetFixed(SetFixed(m)), VIDEO_HDR) == GetIn(m, VIDEO_HDR) <==> VideoHdrKept(m)
  {
    hide SetFixed, GetFixed, PickVideoHdr, ShowVideoHdr, GetIn, VIDEO_HDR, SONY_VIDEO_HDR, SONY_VIDEO_HDRS, Carried;
    SetHdrOf(m);
    GetHdrOf(SetFixed(m));
    PickVideoHdrOf(m);
    ShowVideoHdrOf(SetFixed(m));
  }

  lemma PutsClean()
    ensures forall m: Map, k, v :: Clean(m) && '=' !in k ==> Clean(SetIn(m, k, v))
  {
    forall m: Map, k, v | Clean(m) && '=' !in k ensures Clean(SetIn(m, k, v)) { SetClean(m, k, v); }
  }

  lemma KeysLackEquals()
    ensures '=' !in FPS_RANGE && '=' !in SCENE && '=' !in SCENES && '=' !in ISO && '=' !in ISOS
    ensures '=' !in SHUTTER && '=' !in VIDEO_HDR && '=' !in VIDEO_HDRS && '=' !in SONY_STABILISER
    ensures '=' !in SONY_VIDEO_STABILISER && '=' !in SONY_VIDEO_HDR && '=' !in SONY_ISO
    ensures '=' !in SONY_AE_MODE && '=' !in SONY_SHUTTER
  {}

  /** Setting keeps a map that a string can carry. */
  lemma SetFixedClean(m: Map)
    requires Clean(m)
    ensures Clean(SetFixed(m))
  {
    PutsClean();
    KeysLackEquals();
    hide SetIn, Clean, GetIn, ValueIn, Contains, FPS_RANGE, SCENE, SONY_STABILISER, SONY_VIDEO_STABILISER;
    hide SONY_VIDEO_HDR, SONY_ISO, SONY_AE_MODE, SONY_SHUTTER;
    assert Clean(PickIso(PickShutter(SetIn(m, FPS_RANGE, Some("1000,60000")))));
    hide PickIso, PickShutter;
  }

  lemma GetFixedClean(m: Map)
    requires Clean(m)
    ensures Clean(GetFixed(m))
  {
    PutsClean();
    KeysLackEquals();
    hide SetIn, Clean, GetIn, ValueIn, Contains, SCENE, SCENES, ISO, ISOS, SHUTTER, VIDEO_HDR, VIDEO_HDRS, IsoNames;
    assert Clean(ShowVideoHdr(ShowHdr(OfferIso(OfferHdr(m)))));
    hide ShowVideoHdr, ShowHdr, OfferIso, OfferHdr;
  }

  lemma ParseFlattened(f: string, m: Map)
    requires IsFlattened(f, m) && Clean(m)
    ensures Parse(f, map[]) == m
  {
    var ks :| Lists(ks, m) && Ascending(ks) && f == Join(ks, m);
    ParseFlatten(ks, m);
  }

  /** What an application reads back from the strings, against what it set. */
  lemma ApplicationSees(asked: string, passed: string, shown: string, w: Wish)
    requires IsFlattened(passed, SetFixed(Parse(asked, map[])))
    requires IsFlattened(shown, GetFixed(Parse(passed, map[])))
    requires Asks(Parse(asked, map[]), w) && '=' !in w.shutter && '=' !in w.iso && AppIso(w.iso)
    requires Offers(Parse(asked, map[]), "auto")
    ensures var before, after := Parse(asked, map[]), Parse(shown, map[]);
      && (Asks(after, w) <==> w.iso == "auto" || Offers(before, "iso-prio"))
      && (GetIn(after, SCENE) == GetIn(before, SCENE) <==> SceneKept(before))
      && (GetIn(after, VIDEO_HDR) == GetIn(before, VIDEO_HDR) <==> VideoHdrKept(before))
  {
    var m := Parse(asked, map[]);
    ParseClean(asked, map[]);
    ReadBare(m, SHUTTER);
    ReadBare(m, ISO);
    hide IsFlattened, Parse, Clean, SetFixed, GetFixed, AppIso, Bare, Offers, SceneKept, VideoHdrKept, GetIn;
    SetFixedClean(m);
    GetFixedClean(SetFixed(m));
    ParseFlattened(passed, SetFixed(m));
    ParseFlattened(shown, GetFixed(SetFixed(m)));
    ExposureSurvives(m, w);
    SceneSurvives(m);
    VideoHdrSurvives(m);
  }

  /** The parts of a list between its commas. */
  function Split(list: string): (parts: seq<string>)
    ensures parts != []
  {
    if list == "" then [""]
    else
      var rest := Split(list[1..]);
      if list[0] == ',' then [""] + rest else [[list[0]] + rest[0]] + rest[1..]
  }

  /** The ISO values offered are the vendor's, each behind "ISO". */
  lemma {:induction false} IsoNamesSplit(list: string)
    ensures var parts, names := Split(list), Split(IsoNames(list));
      |names| == |parts| && names[0] == parts[0] && forall i :: 0 < i < |parts| ==> names[i] == "ISO" + parts[i]
  {
    if list != "" {
      IsoNamesSplit(list[1..]);
      var rest := IsoNames(list[1..]);
      if list[0] == ',' {
        assert ",ISO" + rest == [','] + ("ISO" + rest);
        SplitPlain("ISO", rest);
      } else {
        var s := [list[0]] + rest;
        assert s[1..] == rest;
      }
      hide IsoNames;
    }
  }

  lemma {:induction false} SplitPlain(a: string, b: string)
    requires ',' !in a
    ensures Split(a + b) == [a + Split(b)[0]] + Split(b)[1..]
  {
    if a == "" {
      assert a + b == b && a + Split(b)[0] == Split(b)[0];
    } else {
      assert (a + b)[1..] == a[1..] + b;
      SplitPlain(a[1..], b);
      assert [a[0]] + (a[1..] + Split(b)[0]) == a + Split(b)[0];
    }
  }

  lemma {:induction false} SplitEnd(a: string, b: string)
    ensures Split(a + "," + b) == Split(a) + Split(b)
  {
    if a == "" {
      assert a + "," + b == [','] + b;
    } else {
      assert (a + "," + b)[1..] == a[1..] + "," + b;
      SplitEnd(a[1..], b);
    }
  }

  /** The list of ISO values shown: each of the vendor's behind "ISO", and then "auto". */
  lemma IsoOffered(list: string)
    ensures var parts, names := Split(list), Split("ISO" + IsoNames(list) + ",auto");
      && |names| == |parts| + 1 && names[|parts|] == "auto"
      && forall i :: 0 <= i < |parts| ==> names[i] == "ISO" + parts[i]
  {
    var all := "ISO" + IsoNames(list);
    IsoNamesSplit(list);
    SplitPlain("ISO", IsoNames(list));
    assert all + ",auto" == all + "," + "auto";
    SplitEnd(all, "auto");
    SplitPlain("auto", "");
    assert "auto" + "" == "auto";
  }
}
