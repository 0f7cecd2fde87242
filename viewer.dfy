/**
 * The settings of the viewer: setters that assign a field and dispatch a change event only
 * when the value differs, the classification table, the length unit, the controls of a
 * navigation mode, and the names of the point colour types.
 *
 * Setter arguments are arbitrary JavaScript values, compared with `!==`.
 */
module ViewerSettings {
  import opened Wrappers

  /** A JavaScript value as the setters see it; objects by identity. */
  datatype JsValue = Undefined | Null | Bool(b: bool) | Num(x: real) | NaN | Str(s: string) | Obj(id: nat)

  /** `a === b`: NaN equals nothing, not even itself; everything else by value or identity. */
  predicate StrictEquals(a: JsValue, b: JsValue)
  {
    a != NaN && a == b
  }

  /** `Boolean(v)`. */
  function Truthy(v: JsValue): bool
  {
    match v
    case Undefined => false
    case Null => false
    case Bool(b) => b
    case Num(x) => x != 0.0
    case NaN => false
    case Str(s) => s != ""
    case Obj(_) => true
  }

  /** A dispatched event: its `type` and, for the move speed and the length unit, the value
      it carries. */
  datatype Event = Event(kind: string, value: Option<JsValue>)

  /** The events a change-guarded setter dispatches when asked to go from `current` to
      `value`. */
  function Dispatched(current: JsValue, value: JsValue, kind: string, carried: Option<JsValue>): (r: seq<Event>)
    ensures |r| <= 1
    ensures r != [] <==> !StrictEquals(current, value)
  {
    if StrictEquals(current, value) then [] else [Event(kind, carried)]
  }

  /** Setting a value twice records one event, unless the value is NaN, which never equals the
      field it was stored in and so dispatches again every time. */
  lemma {:induction false} SetTwice(current: JsValue, value: JsValue, kind: string, carried: Option<JsValue>)
    ensures value != NaN ==> Dispatched(value, value, kind, carried) == []
    ensures value != NaN ==> |Dispatched(current, value, kind, carried) + Dispatched(value, value, kind, carried)| <= 1
    ensures value == NaN ==> |Dispatched(current, value, kind, carried) + Dispatched(value, value, kind, carried)| == 2
  {
    if value == NaN {
      assert !StrictEquals(current, value) && !StrictEquals(value, value);
    }
  }

  datatype Classification = Classification(visible: JsValue, name: string)

  /** The classification table the viewer starts with; property keys are strings. */
  function DefaultClassifications(): map<string, Classification>
  {
    map["0" := Classification(Bool(true), "never classified"),
        "1" := Classification(Bool(true), "unclassified"),
        "2" := Classification(Bool(true), "ground"),
        "3" := Classification(Bool(true), "low vegetation"),
        "4" := Classification(Bool(true), "medium vegetation"),
        "5" := Classification(Bool(true), "high vegetation"),
        "6" := Classification(Bool(true), "building"),
        "7" := Classification(Bool(true), "low point(noise)"),
        "8" := Classification(Bool(true), "key-point"),
        "9" := Classification(Bool(true), "water"),
        "12" := Classification(Bool(true), "overlap")]
  }

  /** `LENGTH_UNITS`: METER, FEET and INCH. */
  datatype LengthUnit = Meter | Feet | Inch

  /** The unit a `setLengthUnit` argument selects, if any. */
  function UnitFor(value: JsValue): (u: Option<LengthUnit>)
    ensures u == Some(Meter) <==> value == Str("m")
    ensures u == Some(Feet) <==> value == Str("ft")
    ensures u == Some(Inch) <==> value == Str("in")
    ensures u.None? <==> value !in {Str("m"), Str("ft"), Str("in")}
  {
    if value == Str("m") then Some(Meter)
    else if value == Str("ft") then Some(Feet)
    else if value == Str("in") then Some(Inch)
    else None
  }

  /** The navigation mode asked of `getControls`: one of the three control classes, or any
      other value. */
  datatype NavigationMode = OrbitMode | FirstPersonMode | EarthMode | OtherMode

  type ControlsId = nat

  /** `PointColorType`; its constants are taken to be distinct. */
  datatype PointColorType =
    | RGB | COLOR | HEIGHT | INTENSITY | INTENSITY_GRADIENT | CLASSIFICATION | RETURN_NUMBER
    | SOURCE | LOD | POINT_INDEX | NORMAL | PHONG | RGB_HEIGHT | COMPOSITE
    | OtherColorType(code: int)

  /** `toMaterialID(materialName)`; an unknown name gives `undefined`. */
  function ToMaterialID(name: string): Option<PointColorType>
  {
    if name == "RGB" then Some(RGB)
    else if name == "Color" then Some(COLOR)
    else if name == "Elevation" then Some(HEIGHT)
    else if name == "Intensity" then Some(INTENSITY)
    else if name == "Intensity Gradient" then Some(INTENSITY_GRADIENT)
    else if name == "Classification" then Some(CLASSIFICATION)
    else if name == "Return Number" then Some(RETURN_NUMBER)
    else if name == "Source" then Some(SOURCE)
    else if name == "Level of Detail" then Some(LOD)
    else if name == "Point Index" then Some(POINT_INDEX)
    else if name == "Normal" then Some(NORMAL)
    else if name == "Phong" then Some(PHONG)
    else if name == "Index" then Some(POINT_INDEX)
    else if name == "RGB and Elevation" then Some(RGB_HEIGHT)
    else if name == "Composite" then Some(COMPOSITE)
    else None
  }

  /** `toMaterialName(materialID)`: its `'Index'` branch comes after the one for the same
      constant, so it is never taken. */
  function ToMaterialName(id: PointColorType): Option<string>
  {
    if id == RGB then Some("RGB")
    else if id == COLOR then Some("Color")
    else if id == HEIGHT then Some("Elevation")
    else if id == INTENSITY then Some("Intensity")
    else if id == INTENSITY_GRADIENT then Some("Intensity Gradient")
    else if id == CLASSIFICATION then Some("Classification")
    else if id == RETURN_NUMBER then Some("Return Number")
    else if id == SOURCE then Some("Source")
    else if id == LOD then Some("Level of Detail")
    else if id == POINT_INDEX then Some("Point Index")
    else if id == NORMAL then Some("Normal")
    else if id == PHONG then Some("Phong")
    else if id == POINT_INDEX then Some("Index")
    else if id == RGB_HEIGHT then Some("RGB and Elevation")
    else if id == COMPOSITE then Some("Composite")
    else None
  }

  /** The names `toMaterialID` knows. */
  const MaterialNames: set<string> := {
    "RGB", "Color", "Elevation", "Intensity", "Intensity Gradient", "Classification",
    "Return Number", "Source", "Level of Detail", "Point Index", "Normal", "Phong", "Index",
    "RGB and Elevation", "Composite"}

  /** A known name comes back from its ID, except `'Index'`, which comes back as
      `'Point Index'`; an unknown name has no ID. */
  lemma NameRoundTrip(name: string)
    ensures name in MaterialNames ==>
      ToMaterialID(name).Some?
      && ToMaterialName(ToMaterialID(name).value) == Some(if name == "Index" then "Point Index" else name)
    ensures name !in MaterialNames ==> ToMaterialID(name).None?
  {}

  /** Every named colour type comes back from its name, and `'Index'` is never produced. */
  lemma IdRoundTrip(id: PointColorType)
    ensures !id.OtherColorType? ==> ToMaterialName(id).Some? && ToMaterialID(ToMaterialName(id).value) == Some(id)
    ensures id.OtherColorType? ==> ToMaterialName(id).None?
    ensures ToMaterialName(id) != Some("Index")
  {
    match id
    case RGB => case COLOR => case HEIGHT => case INTENSITY => case INTENSITY_GRADIENT =>
    case CLASSIFICATION => case RETURN_NUMBER => case SOURCE => case LOD => case POINT_INDEX =>
    case NORMAL => case PHONG => case RGB_HEIGHT => case COMPOSITE => case OtherColorType(_) =>
  }

  class Viewer {
    var minNodeSize: JsValue
    var background: JsValue
    var showBoundingBox: JsValue
    var moveSpeed: JsValue
    var freeze: JsValue
    var showAnnotations: JsValue
    var useDEMCollisions: JsValue
    var useEDL: JsValue
    var edlRadius: JsValue
    var edlStrength: JsValue
    var fov: JsValue
    var classifications: map<string, Classification>
    var lengthUnit: LengthUnit
    var orbitControls: ControlsId
    var fpControls: ControlsId
    var earthControls: ControlsId
    var events: seq<Event>

    /** The settings part of the constructor: the field initialisers, the controls made by
        `createControls`, then the block that sets the defaults through the setters. Of its
        calls, only the EDL strength (1.0 to 0.4) and the background (null to 'gradient')
        change anything, so they dispatch the only two events. */
    constructor (orbitControls: ControlsId, fpControls: ControlsId, earthControls: ControlsId)
      ensures fov == Num(60.0) && useDEMCollisions == Bool(false) && minNodeSize == Num(100.0)
      ensures edlStrength == Num(0.4) && edlRadius == Num(1.4) && useEDL == Bool(false)
      ensures classifications == DefaultClassifications() && moveSpeed == Num(10.0)
      ensures lengthUnit == Meter && showBoundingBox == Bool(false) && showAnnotations == Bool(true)
      ensures freeze == Bool(false) && background == Str("gradient")
      ensures this.orbitControls == orbitControls && this.fpControls == fpControls
      ensures this.earthControls == earthControls
      ensures events == [Event("edl_strength_changed", None), Event("background_changed", None)]
    {
      fov := Num(60.0);
      useDEMCollisions := Bool(false);
      minNodeSize := Num(100.0);
      edlStrength := Num(1.0);
      edlRadius := Num(1.4);
      useEDL := Bool(false);
      classifications := DefaultClassifications();
      moveSpeed := Num(10.0);
      lengthUnit := Meter;
      showBoundingBox := Bool(false);
      showAnnotations := Bool(true);
      freeze := Bool(false);
      background := Null;
      this.orbitControls := orbitControls;
      this.fpControls := fpControls;
      this.earthControls := earthControls;
      events := [];
      new;
      SetDefaults();
    }

    /** The constructor's block that sets the defaults: each setter in turn, with the events
        its change guard lets through. */
    method SetDefaults()
      modifies this`fov, this`useEDL, this`edlRadius, this`edlStrength, this`showBoundingBox
      modifies this`freeze, this`background, this`events
      ensures fov == Num(60.0) && useEDL == Bool(false) && edlRadius == Num(1.4) && edlStrength == Num(0.4)
      ensures showBoundingBox == Bool(false) && freeze == Bool(false) && background == Str("gradient")
      ensures events == old(events)
        + Dispatched(old(fov), Num(60.0), "fov_changed", None)
        + Dispatched(old(useEDL), Bool(false), "use_edl_changed", None)
        + Dispatched(old(edlRadius), Num(1.4), "edl_radius_changed", None)
        + Dispatched(old(edlStrength), Num(0.4), "edl_strength_changed", None)
        + Dispatched(old(showBoundingBox), Bool(false), "show_boundingbox_changed", None)
        + Dispatched(old(freeze), Bool(false), "freeze_changed", None)
        + Dispatched(old(background), Str("gradient"), "background_changed", None)
    {
      SetFOV(Num(60.0));
      SetEDLEnabled(Bool(false));
      SetEDLRadius(Num(1.4));
      SetEDLStrength(Num(0.4));
      SetShowBoundingBox(Bool(false));
      SetFreeze(Bool(false));
      SetBackground(Str("gradient"));
    }

    /** `getControls(navigationMode)`: the controls of that class, or `null`. */
    function GetControls(mode: NavigationMode): (c: Option<ControlsId>)
      reads this`orbitControls, this`fpControls, this`earthControls
      ensures c.None? <==> mode == OtherMode
      ensures mode == OrbitMode ==> c == Some(orbitControls)
      ensures mode == FirstPersonMode ==> c == Some(fpControls)
      ensures mode == EarthMode ==> c == Some(earthControls)
    {
      match mode
      case OrbitMode => Some(orbitControls)
      case FirstPersonMode => Some(fpControls)
      case EarthMode => Some(earthControls)
      case OtherMode => None
    }

    method SetMinNodeSize(value: JsValue)
      modifies this`minNodeSize, this`events
      ensures minNodeSize == value
      ensures events == old(events) + Dispatched(old(minNodeSize), value, "minnodesize_changed", None)
    {
      if !StrictEquals(minNodeSize, value) {
        minNodeSize := value;
        events := events + [Event("minnodesize_changed", None)];
      }
    }

    method SetBackground(bg: JsValue)
      modifies this`background, this`events
      ensures background == bg
      ensures events == old(events) + Dispatched(old(background), bg, "background_changed", None)
    {
      if StrictEquals(background, bg) {
        return;
      }
      background := bg;
      events := events + [Event("background_changed", None)];
    }

    method SetShowBoundingBox(value: JsValue)
      modifies this`showBoundingBox, this`events
      ensures showBoundingBox == value
      ensures events == old(events) + Dispatched(old(showBoundingBox), value, "show_boundingbox_changed", None)
    {
      if !StrictEquals(showBoundingBox, value) {
        showBoundingBox := value;
        events := events + [Event("show_boundingbox_changed", None)];
      }
    }

    /** The event carries the speed. */
    method SetMoveSpeed(value: JsValue)
      modifies this`moveSpeed, this`events
      ensures moveSpeed == value
      ensures events == old(events) + Dispatched(old(moveSpeed), value, "move_speed_changed", Some(value))
    {
      if !StrictEquals(moveSpeed, value) {
        moveSpeed := value;
        events := events + [Event("move_speed_changed", Some(value))];
      }
    }

    /** The value is first coerced to a boolean. */
    method SetFreeze(value: JsValue)
      modifies this`freeze, this`events
      ensures freeze == Bool(Truthy(value))
      ensures events == old(events) + Dispatched(old(freeze), Bool(Truthy(value)), "freeze_changed", None)
    {
      var flag := Bool(Truthy(value));
      if !StrictEquals(freeze, flag) {
        freeze := flag;
        events := events + [Event("freeze_changed", None)];
      }
    }

    method SetShowAnnotations(value: JsValue)
      modifies this`showAnnotations, this`events
      ensures showAnnotations == value
      ensures events == old(events) + Dispatched(old(showAnnotations), value, "show_annotations_changed", None)
    {
      if !StrictEquals(showAnnotations, value) {
        showAnnotations := value;
        events := events + [Event("show_annotations_changed", None)];
      }
    }

    method SetDEMCollisionsEnabled(value: JsValue)
      modifies this`useDEMCollisions, this`events
      ensures useDEMCollisions == value
      ensures events == old(events) + Dispatched(old(useDEMCollisions), value, "use_demcollisions_changed", None)
    {
      if !StrictEquals(useDEMCollisions, value) {
        useDEMCollisions := value;
        events := events + [Event("use_demcollisions_changed", None)];
      }
    }

    /** The value is first coerced to a boolean. */
    method SetEDLEnabled(value: JsValue)
      modifies this`useEDL, this`events
      ensures useEDL == Bool(Truthy(value))
      ensures events == old(events) + Dispatched(old(useEDL), Bool(Truthy(value)), "use_edl_changed", None)
    {
      var flag := Bool(Truthy(value));
      if !StrictEquals(useEDL, flag) {
        useEDL := flag;
        events := events + [Event("use_edl_changed", None)];
      }
    }

    method SetEDLRadius(value: JsValue)
      modifies this`edlRadius, this`events
      ensures edlRadius == value
      ensures events == old(events) + Dispatched(old(edlRadius), value, "edl_radius_changed", None)
    {
      if !StrictEquals(edlRadius, value) {
        edlRadius := value;
        events := events + [Event("edl_radius_changed", None)];
      }
    }

    method SetEDLStrength(value: JsValue)
      modifies this`edlStrength, this`events
      ensures edlStrength == value
      ensures events == old(events) + Dispatched(old(edlStrength), value, "edl_strength_changed", None)
    {
      if !StrictEquals(edlStrength, value) {
        edlStrength := value;
        events := events + [Event("edl_strength_changed", None)];
      }
    }

    method SetFOV(value: JsValue)
      modifies this`fov, this`events
      ensures fov == value
      ensures events == old(events) + Dispatched(old(fov), value, "fov_changed", None)
    {
      if !StrictEquals(fov, value) {
        fov := value;
        events := events + [Event("fov_changed", None)];
      }
    }

    /** An absent key gets an entry named 'no name'; a present one changes only its visibility,
        and only when that differs. Every change dispatches one event. */
    method SetClassificationVisibility(key: string, value: JsValue)
      modifies this`classifications, this`events
      ensures key !in old(classifications) ==>
        classifications == old(classifications)[key := Classification(value, "no name")]
        && events == old(events) + [Event("classification_visibility_changed", None)]
      ensures key in old(classifications) ==>
        classifications == old(classifications)[key := old(classifications)[key].(visible := value)]
        && events == old(events) + Dispatched(old(classifications)[key].visible, value,
                                              "classification_visibility_changed", None)
    {
      if key !in classifications {
        classifications := classifications[key := Classification(value, "no name")];
        events := events + [Event("classification_visibility_changed", None)];
      } else if !StrictEquals(classifications[key].visible, value) {
        classifications := classifications[key := classifications[key].(visible := value)];
        events := events + [Event("classification_visibility_changed", None)];
      }
    }

    /** `'m'`, `'ft'` and `'in'` select a unit; any other value keeps the unit. The event is
        dispatched, carrying the argument, either way. */
    method SetLengthUnit(value: JsValue)
      modifies this`lengthUnit, this`events
      ensures lengthUnit == if UnitFor(value).Some? then UnitFor(value).value else old(lengthUnit)
      ensures events == old(events) + [Event("length_unit_changed", Some(value))]
    {
      if value == Str("m") {
        lengthUnit := Meter;
      } else if value == Str("ft") {
        lengthUnit := Feet;
      } else if value == Str("in") {
        lengthUnit := Inch;
      }
      events := events + [Event("length_unit_changed", Some(value))];
    }
  }
}
