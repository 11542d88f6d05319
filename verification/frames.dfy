/** The frame registry of altavista/frames.py: a tree of frame definitions whose parents are filled in, and
    sometimes invented, by `register`. GMAT's own verdicts are arbitrary predicates. */
module Frames {
  import opened Base
  import opened Ordering

  // ---------------------------------------------------------------- frame definitions

  datatype Axes = Unspecified | ICRF | MJ2000Eq | MJ2000Ec | BodyFixed | ENU | NED
                | PlatformBody | RIC | VNB | VVLH | LocalCartesian | OtherAxes

  datatype Origin = NoOrigin | Body(body: string) | Platform(platform: string) | Entity(entity: string)

  datatype Source = NoSource | EntityStream(stream: string) | GmatModel(model: string)

  datatype Attitude = Attitude(source: Source, referenceFrame: string)

  /** `geodetic` is the body of origin_geodetic; its coordinates play no part here. */
  datatype FrameDef = FrameDef(id: string, axes: Axes, origin: Origin, parent: string, gmatName: string,
                               geodetic: Option<string>, referenceBody: string, referenceEntity: string,
                               attitude: Option<Attitude>)

  datatype FrameError =
    | UnknownAxes(id: string)
    | MissingField(id: string, field: string)
    | UnknownEntity(id: string, entity: string)
    | NotRealizable(id: string)
    | UnknownAttitudeModel(id: string, model: string)
    | GmatRefused(id: string)
    | InconsistentParent(id: string, supplied: string, computed: string)
    | CanonicalTaken(id: string)
    | NotRegistered(id: string)
    | Cycle(id: string, cycle: seq<string>)
    | ParentMissing(id: string, missing: string)

  /** What GMAT says of a spacecraft name, an attitude model and the object a definition names. */
  datatype Gmat = Gmat(spacecraft: string -> bool, attitudeModel: string -> bool, builds: FrameDef -> bool)

  predicate BodyAxes(a: Axes) {
    a.ICRF? || a.MJ2000Eq? || a.MJ2000Ec? || a.BodyFixed?
  }

  predicate Topocentric(a: Axes) {
    a.ENU? || a.NED?
  }

  predicate ObjectReferenced(a: Axes) {
    a.RIC? || a.VNB? || a.VVLH?
  }

  function AxesName(a: Axes): string {
    match a
    case ICRF => "ICRF"
    case MJ2000Eq => "MJ2000Eq"
    case MJ2000Ec => "MJ2000Ec"
    case BodyFixed => "BodyFixed"
    case RIC => "ric"
    case VNB => "vnb"
    case VVLH => "vvlh"
    case _ => ""
  }

  predicate NameChar(c: char) {
    'A' <= c <= 'Z' || 'a' <= c <= 'z' || '0' <= c <= '9' || c == '_'
  }

  function SafeName(s: string): string {
    var out := if s == [] then "empty" else seq(|s|, i requires 0 <= i < |s| => if NameChar(s[i]) then s[i] else '_');
    if '0' <= out[0] <= '9' then "n" + out else out
  }

  // ---------------------------------------------------------------- the checks of one kind each

  function CheckBodyAxes(d: FrameDef, g: Gmat): Result<string, FrameError> {
    if !d.origin.Body? || d.origin.body == "" then Err(MissingField(d.id, "body"))
    else if !g.builds(d) then Err(GmatRefused(d.id))
    else Ok(d.origin.body + AxesName(d.axes))
  }

  function CheckTopocentric(d: FrameDef, g: Gmat): Result<string, FrameError> {
    if d.geodetic.None? then Err(MissingField(d.id, "origin_geodetic"))
    else if d.geodetic.value == "" then Err(MissingField(d.id, "origin_geodetic.body"))
    else if !g.builds(d) then Err(GmatRefused(d.id))
    else Ok("gv_topo_" + SafeName(d.id))
  }

  function CheckObjectReferenced(d: FrameDef, g: Gmat): Result<string, FrameError> {
    if d.referenceEntity == "" then Err(MissingField(d.id, "reference_entity_id"))
    else if d.referenceBody == "" then Err(MissingField(d.id, "reference_body"))
    else if !d.origin.Entity? || d.origin.entity == "" then Err(MissingField(d.id, "entity_id"))
    else if !g.spacecraft(d.origin.entity) then Err(UnknownEntity(d.id, d.origin.entity))
    else if !g.spacecraft(d.referenceEntity) then Err(UnknownEntity(d.id, d.referenceEntity))
    else if !g.builds(d) then Err(GmatRefused(d.id))
    else Ok("gv_" + AxesName(d.axes) + "_" + SafeName(d.origin.entity) + "_" + SafeName(d.referenceEntity)
            + "_" + SafeName(d.referenceBody))
  }

  function CheckPlatformBody(d: FrameDef, g: Gmat): Result<string, FrameError> {
    if d.attitude.None? then Err(NotRealizable(d.id))
    else
      var source := d.attitude.value.source;
      if source.NoSource? then Err(MissingField(d.id, "attitude_source.source"))
      else if d.referenceEntity == "" then Err(MissingField(d.id, "reference_entity_id"))
      else if d.attitude.value.referenceFrame == "" then Err(MissingField(d.id, "attitude_source.reference_frame_id"))
      else if !g.spacecraft(d.referenceEntity) then Err(UnknownEntity(d.id, d.referenceEntity))
      else if source.GmatModel? && source.model == ""
        then Err(MissingField(d.id, "attitude_source.gmat_attitude_model"))
      else if source.GmatModel? && !g.attitudeModel(source.model) then Err(UnknownAttitudeModel(d.id, source.model))
      else Ok("gv_platform_body_" + SafeName(d.id))
  }

  /** The GMAT name of an acceptable definition. */
  function Checked(d: FrameDef, g: Gmat): Result<string, FrameError> {
    if BodyAxes(d.axes) then CheckBodyAxes(d, g)
    else if Topocentric(d.axes) then CheckTopocentric(d, g)
    else if ObjectReferenced(d.axes) then CheckObjectReferenced(d, g)
    else if d.axes.PlatformBody? then CheckPlatformBody(d, g)
    else if d.axes.LocalCartesian? then Ok("gv_local_cartesian")
    else Err(UnknownAxes(d.id))
  }

  /** What each kind needs: its fields set, its spacecraft and attitude model known, its object built. */
  ghost predicate Acceptable(d: FrameDef, g: Gmat) {
    if BodyAxes(d.axes) then (exists b :: d.origin == Body(b) && b != "") && g.builds(d)
    else if Topocentric(d.axes) then d.geodetic.Some? && d.geodetic.value != "" && g.builds(d)
    else if ObjectReferenced(d.axes) then
      && (exists e :: d.origin == Entity(e) && e != "" && g.spacecraft(e))
      && d.referenceEntity != "" && g.spacecraft(d.referenceEntity) && d.referenceBody != "" && g.builds(d)
    else if d.axes.PlatformBody? then
      && d.referenceEntity != "" && g.spacecraft(d.referenceEntity)
      && d.attitude.Some? && d.attitude.value.referenceFrame != "" && !d.attitude.value.source.NoSource?
      && forall m :: d.attitude.value.source == GmatModel(m) ==> m != "" && g.attitudeModel(m)
    else d.axes.LocalCartesian?
  }

  /** A definition passes exactly when it has all its kind needs; it is refused as of an unknown kind exactly
      when it is of none. */
  lemma AcceptedIff(d: FrameDef, g: Gmat)
    ensures Checked(d, g).Ok? <==> Acceptable(d, g)
    ensures Checked(d, g) == Err(UnknownAxes(d.id)) <==> d.axes.Unspecified? || d.axes.OtherAxes?
  {
    if d.origin.Body? {
      assert d.origin == Body(d.origin.body);
    } else if d.origin.Entity? {
      assert d.origin == Entity(d.origin.entity);
    }
  }

  /** Sanitized names are of letters, digits and underscores, do not begin with a digit, and keep every such
      character in its place. */
  lemma SafeNameIs(s: string)
    ensures var out := SafeName(s);
      var shift := if s != [] && '0' <= s[0] <= '9' then 1 else 0;
      && (s == [] ==> out == "empty") && (shift == 1 ==> out[0] == 'n')
      && (s != [] ==> |out| == |s| + shift && forall i :: 0 <= i < |s| ==>
            out[i + shift] == if 'A' <= s[i] <= 'Z' || 'a' <= s[i] <= 'z' || '0' <= s[i] <= '9' then s[i] else '_')
  {
  }

  /** The GMAT name of each kind of frame. */
  lemma NamesAre(d: FrameDef, g: Gmat)
    requires Checked(d, g).Ok?
    ensures var name := Checked(d, g).value;
      match d.axes
      case ICRF => d.origin.Body? && name == d.origin.body + "ICRF"
      case MJ2000Eq => d.origin.Body? && name == d.origin.body + "MJ2000Eq"
      case MJ2000Ec => d.origin.Body? && name == d.origin.body + "MJ2000Ec"
      case BodyFixed => d.origin.Body? && name == d.origin.body + "BodyFixed"
      case ENU => name == "gv_topo_" + SafeName(d.id)
      case NED => name == "gv_topo_" + SafeName(d.id)
      case RIC => d.origin.Entity? && name == "gv_ric_" + References(d)
      case VNB => d.origin.Entity? && name == "gv_vnb_" + References(d)
      case VVLH => d.origin.Entity? && name == "gv_vvlh_" + References(d)
      case PlatformBody => name == "gv_platform_body_" + SafeName(d.id)
      case LocalCartesian => name == "gv_local_cartesian"
      case _ => false
  {
    hide SafeName;
    if ObjectReferenced(d.axes) {
      assert "gv_" + "ric" + "_" == "gv_ric_" && "gv_" + "vnb" + "_" == "gv_vnb_" && "gv_" + "vvlh" + "_" == "gv_vvlh_";
      Joined("gv_" + AxesName(d.axes) + "_", SafeName(d.origin.entity), SafeName(d.referenceEntity),
        SafeName(d.referenceBody));
    }
  }

  function References(d: FrameDef): string
    requires d.origin.Entity?
  {
    SafeName(d.origin.entity) + ("_" + SafeName(d.referenceEntity) + ("_" + SafeName(d.referenceBody)))
  }

  lemma Joined(a: string, b: string, c: string, d: string)
    ensures a + b + "_" + c + "_" + d == a + (b + ("_" + c + ("_" + d)))
  {
  }

  /** What a missing field's name says of the definition. */
  predicate Missing(d: FrameDef, field: string) {
    match field
    case "body" => d.origin == Body("") || !d.origin.Body?
    case "origin_geodetic" => d.geodetic.None?
    case "origin_geodetic.body" => d.geodetic == Some("")
    case "reference_entity_id" => d.referenceEntity == ""
    case "reference_body" => d.referenceBody == ""
    case "entity_id" => d.origin == Entity("") || !d.origin.Entity?
    case "attitude_source.source" => d.attitude.Some? && d.attitude.value.source.NoSource?
    case "attitude_source.reference_frame_id" => d.attitude.Some? && d.attitude.value.referenceFrame == ""
    case "attitude_source.gmat_attitude_model" => d.attitude.Some? && d.attitude.value.source == GmatModel("")
    case _ => false
  }

  /** The fields of its kind that are checked before GMAT is asked. */
  predicate FieldsSet(d: FrameDef) {
    if BodyAxes(d.axes) then !Missing(d, "body")
    else if Topocentric(d.axes) then !Missing(d, "origin_geodetic") && !Missing(d, "origin_geodetic.body")
    else if ObjectReferenced(d.axes) then
      !Missing(d, "reference_entity_id") && !Missing(d, "reference_body") && !Missing(d, "entity_id")
    else if d.axes.PlatformBody? then
      && d.attitude.Some? && !Missing(d, "attitude_source.source") && !Missing(d, "reference_entity_id")
      && !Missing(d, "attitude_source.reference_frame_id")
    else d.axes.LocalCartesian?
  }

  /** Each refusal of a definition's own checks is true of it, and GMAT is asked only when its fields are set. */
  lemma RefusedCheckIsTrue(d: FrameDef, g: Gmat)
    requires Checked(d, g).Err?
    ensures match Checked(d, g).error
      case UnknownAxes(id) => id == d.id && (d.axes.Unspecified? || d.axes.OtherAxes?)
      case NotRealizable(id) => id == d.id && d.axes.PlatformBody? && d.attitude.None?
      case MissingField(id, field) =>
        id == d.id && Missing(d, field) && (field == "attitude_source.gmat_attitude_model" || !FieldsSet(d))
      case UnknownEntity(id, e) =>
        && id == d.id && FieldsSet(d) && !g.spacecraft(e)
        && (e == d.referenceEntity || d.origin == Entity(e))
        && (d.origin != Entity(e) && ObjectReferenced(d.axes) ==> d.origin.Entity? && g.spacecraft(d.origin.entity))
      case UnknownAttitudeModel(id, m) =>
        && id == d.id && FieldsSet(d) && d.attitude.Some? && d.attitude.value.source == GmatModel(m) && m != ""
        && !g.attitudeModel(m) && g.spacecraft(d.referenceEntity)
      case GmatRefused(id) => id == d.id && FieldsSet(d) && !g.builds(d)
      case _ => false
  {
  }

  // ---------------------------------------------------------------- parents

  type Defs = map<string, FrameDef>

  datatype Need = Need(axes: Axes, body: string)

  /** The body frame a relative frame hangs from. */
  function Needed(d: FrameDef): Option<Need> {
    if Topocentric(d.axes) && d.geodetic.Some? then Some(Need(BodyFixed, d.geodetic.value))
    else if ObjectReferenced(d.axes) then Some(Need(MJ2000Eq, d.referenceBody))
    else None
  }

  predicate Meets(d: FrameDef, n: Need) {
    d.axes == n.axes && d.origin == Body(n.body)
  }

  function Matches(defs: Defs, n: Need): set<string> {
    set id | id in defs && Meets(defs[id], n)
  }

  function Find(defs: Defs, n: Need): Option<string> {
    if Matches(defs, n) == {} then None else Some(Least(Matches(defs, n)))
  }

  function Canonical(n: Need): string {
    "gv_auto_parent_" + SafeName(n.body) + "_" + AxesName(n.axes)
  }

  function BodyFrame(id: string, n: Need): FrameDef {
    FrameDef(id, n.axes, Body(n.body), "", "", None, "", "", None)
  }

  /** The parent a relative frame is given. */
  function ParentFor(defs: Defs, n: Need): string {
    match Find(defs, n)
    case Some(id) => id
    case None => Canonical(n)
  }

  /** The frame registered when no frame meets the need. */
  function Invented(n: Need): FrameDef {
    BodyFrame(Canonical(n), n).(gmatName := n.body + AxesName(n.axes))
  }

  /** The registry with a frame that meets the need, and the reason why there is none. */
  function Ensured(defs: Defs, n: Need, g: Gmat): (Defs, Option<FrameError>) {
    if Find(defs, n).Some? then (defs, None)
    else if Canonical(n) in defs then (defs, Some(CanonicalTaken(Canonical(n))))
    else match CheckBodyAxes(BodyFrame(Canonical(n), n), g)
      case Err(e) => (defs, Some(e))
      case Ok(_) => (defs[Canonical(n) := Invented(n)], None)
  }

  /** The filled parent, checked against the one supplied. */
  function Filled(d: FrameDef, name: string, computed: string): Result<FrameDef, FrameError> {
    if d.parent != "" && d.parent != computed then Err(InconsistentParent(d.id, d.parent, computed))
    else Ok(d.(gmatName := name, parent := computed))
  }

  function Stored(defs: Defs, r: Result<FrameDef, FrameError>): (Defs, Result<FrameDef, FrameError>) {
    match r
    case Ok(d) => (defs[d.id := d], r)
    case Err(_) => (defs, r)
  }

  /** The registry after `register`, and its answer. */
  function Registered(defs: Defs, d: FrameDef, g: Gmat): (Defs, Result<FrameDef, FrameError>) {
    match Checked(d, g)
    case Err(e) => (defs, Err(e))
    case Ok(name) =>
      match Needed(d)
      case None => Stored(defs, Filled(d, name, if d.axes.PlatformBody? then d.attitude.value.referenceFrame else ""))
      case Some(n) =>
        var (more, problem) := Ensured(defs, n, g);
        if problem.Some? then (more, Err(problem.value))
        else Stored(more, Filled(d, name, ParentFor(defs, n)))
  }

  // ---------------------------------------------------------------- what convert uses

  /** The fixed turn between a frame and the topocentric system (South, East, Zenith) GMAT knows. */
  datatype Turn = NoTurn | EnuTurn | NedTurn

  /** `_native_cs` and `_to_native` of one id: the GMAT system, by name, and the turn. */
  datatype Native = Native(system: Option<string>, turn: Turn)

  type Natives = map<string, Native>

  /** The realization of a definition with its GMAT name filled in. */
  function NativeOf(d: FrameDef): Native {
    if BodyAxes(d.axes) || ObjectReferenced(d.axes) then Native(Some(d.gmatName), NoTurn)
    else if Topocentric(d.axes) then Native(Some(d.gmatName), if d.axes.ENU? then EnuTurn else NedTurn)
    else Native(None, NoTurn)
  }

  /** A system for the kinds GMAT has axes for, under the frame's GMAT name, and a turn for stations only. */
  lemma NativeIs(d: FrameDef)
    ensures NativeOf(d).system == (if d.axes in {ICRF, MJ2000Eq, MJ2000Ec, BodyFixed, ENU, NED, RIC, VNB, VVLH}
                                   then Some(d.gmatName) else None)
    ensures (NativeOf(d).turn == EnuTurn <==> d.axes == ENU) && (NativeOf(d).turn == NedTurn <==> d.axes == NED)
  {
  }

  /** A frame is invented for the need: none meets it, the canonical id is free and GMAT builds the frame. */
  predicate Inventable(defs: Defs, n: Need, g: Gmat) {
    Find(defs, n).None? && Canonical(n) !in defs && n.body != "" && g.builds(BodyFrame(Canonical(n), n))
  }

  predicate Invents(defs: Defs, d: FrameDef, g: Gmat) {
    Needed(d).Some? && Inventable(defs, Needed(d).value, g)
  }

  function WithInvented(natives: Natives, defs: Defs, n: Need, g: Gmat): Natives {
    if Inventable(defs, n, g) then natives[Canonical(n) := NativeOf(Invented(n))] else natives
  }

  /** The realizations after `register`: a definition's own is written as soon as its kind's checks pass. */
  function Realized(natives: Natives, defs: Defs, d: FrameDef, g: Gmat): Natives {
    match Checked(d, g)
    case Err(_) => natives
    case Ok(name) =>
      var own := natives[d.id := NativeOf(d.(gmatName := name))];
      if Needed(d).Some? then WithInvented(own, defs, Needed(d).value, g) else own
  }

  // ---------------------------------------------------------------- the tree invariant

  ghost predicate WellParented(defs: Defs, d: FrameDef) {
    match Needed(d)
    case Some(n) => d.parent in defs && Meets(defs[d.parent], n)
    case None =>
      if d.axes.PlatformBody? then d.attitude.Some? && d.parent == d.attitude.value.referenceFrame != ""
      else (BodyAxes(d.axes) || d.axes.LocalCartesian?) && d.parent == "" && (BodyAxes(d.axes) ==> d.origin.Body?)
  }

  ghost predicate Inv(defs: Defs) {
    && "" !in defs
    && forall id :: id in defs ==> defs[id].id == id && WellParented(defs, defs[id])
  }

  /** Where a frame of each kind hangs in a tree. */
  ghost predicate Hangs(defs: Defs, d: FrameDef) {
    match d.axes
    case ENU => HangsFrom(defs, d.parent, BodyFixed, d.geodetic)
    case NED => HangsFrom(defs, d.parent, BodyFixed, d.geodetic)
    case RIC => HangsFrom(defs, d.parent, MJ2000Eq, Some(d.referenceBody))
    case VNB => HangsFrom(defs, d.parent, MJ2000Eq, Some(d.referenceBody))
    case VVLH => HangsFrom(defs, d.parent, MJ2000Eq, Some(d.referenceBody))
    case PlatformBody => d.attitude.Some? && d.parent == d.attitude.value.referenceFrame && d.parent != ""
    case LocalCartesian => d.parent == ""
    case Unspecified => false
    case OtherAxes => false
    case _ => d.origin.Body? && d.parent == ""
  }

  ghost predicate HangsFrom(defs: Defs, parent: string, axes: Axes, body: Option<string>) {
    body.Some? && parent in defs && defs[parent].axes == axes && defs[parent].origin == Body(body.value)
  }

  /** The invariant says of every frame where it hangs. */
  lemma InvIff(defs: Defs)
    ensures Inv(defs) <==> "" !in defs && forall id :: id in defs ==> defs[id].id == id && Hangs(defs, defs[id])
  {
    forall id | id in defs ensures WellParented(defs, defs[id]) <==> Hangs(defs, defs[id]) {
      HangsIff(defs, defs[id]);
    }
  }

  lemma HangsIff(defs: Defs, d: FrameDef)
    ensures WellParented(defs, d) <==> Hangs(defs, d)
  {
  }

  /** No relative frame hangs from id unless d meets its need. */
  ghost predicate Replaceable(defs: Defs, d: FrameDef) {
    forall c :: c in defs && c != d.id && Needed(defs[c]).Some? && defs[c].parent == d.id ==>
      Meets(d, Needed(defs[c]).value)
  }

  /** What keeps the invariant: the frame does not become its own parent, and no frame that hangs from the
      definition it replaces is left hanging from something else. */
  ghost predicate Safe(defs: Defs, d: FrameDef) {
    && d.id != ""
    && (Needed(d).Some? ==> d.id != ParentFor(defs, Needed(d).value))
    && Replaceable(defs, d)
  }

  lemma FindIsLeast(defs: Defs, n: Need)
    ensures Find(defs, n).None? <==> forall id :: id in defs ==> !Meets(defs[id], n)
    ensures Find(defs, n).Some? ==> Find(defs, n).value in defs && Meets(defs[Find(defs, n).value], n)
    ensures Find(defs, n).Some? ==> forall id :: id in defs && Meets(defs[id], n) ==> StringLeq(Find(defs, n).value, id)
  {
    assert forall id :: id in defs && Meets(defs[id], n) <==> id in Matches(defs, n);
  }

  /** A need can be met afterwards by the parent it was promised; nothing else changed. */
  lemma EnsuredMeets(defs: Defs, n: Need, g: Gmat)
    ensures var (more, problem) := Ensured(defs, n, g);
      && (more == defs || (Canonical(n) !in defs && more == defs[Canonical(n) := Invented(n)]))
      && (problem.None? ==> ParentFor(defs, n) in more && Meets(more[ParentFor(defs, n)], n))
  {
    FindIsLeast(defs, n);
  }

  lemma InventedKeepsInv(defs: Defs, n: Need)
    requires Inv(defs) && Canonical(n) !in defs && BodyAxes(n.axes)
    ensures Inv(defs[Canonical(n) := Invented(n)])
  {
    var more := defs[Canonical(n) := Invented(n)];
    forall id | id in more ensures more[id].id == id && WellParented(more, more[id]) {
      if id != Canonical(n) {
        assert WellParented(defs, defs[id]);
      }
    }
  }

  lemma StoredAllowsOnlyReplaceable(defs: Defs, d: FrameDef)
    requires Inv(defs) && Inv(defs[d.id := d])
    ensures Replaceable(defs, d)
  {
    var after := defs[d.id := d];
    forall c | c in defs && c != d.id && Needed(defs[c]).Some? && defs[c].parent == d.id
      ensures Meets(d, Needed(defs[c]).value)
    {
      assert WellParented(after, after[c]);
    }
  }

  lemma ReplaceableKeepsInv(defs: Defs, d: FrameDef)
    requires Inv(defs) && d.id != "" && Replaceable(defs, d) && WellParented(defs[d.id := d], d)
    ensures Inv(defs[d.id := d])
  {
    var after := defs[d.id := d];
    forall id | id in after ensures after[id].id == id && WellParented(after, after[id]) {
      if id != d.id {
        assert WellParented(defs, defs[id]);
      }
    }
  }

  lemma OwnFrameWellParented(defs: Defs, d: FrameDef)
    requires match Needed(d)
      case Some(n) => d.parent in defs && Meets(defs[d.parent], n)
      case None => WellParented(defs, d)
    ensures WellParented(defs[d.id := d], d) <==> (Needed(d).Some? ==> d.id != d.parent)
  {
  }

  /** Storing d in a registry that meets its need keeps the invariant exactly when it is safe. */
  lemma StoredKeepsInvIff(defs: Defs, d: FrameDef)
    requires Inv(defs)
    requires match Needed(d)
      case Some(n) => d.parent in defs && Meets(defs[d.parent], n)
      case None => WellParented(defs, d)
    ensures Inv(defs[d.id := d]) <==>
      && d.id != ""
      && (Needed(d).Some? ==> d.id != d.parent)
      && Replaceable(defs, d)
  {
    hide Replaceable, WellParented;
    OwnFrameWellParented(defs, d);
    if Inv(defs[d.id := d]) {
      StoredAllowsOnlyReplaceable(defs, d);
      assert defs[d.id := d][d.id] == d;
    }
    if d.id != "" && (Needed(d).Some? ==> d.id != d.parent) && Replaceable(defs, d) {
      ReplaceableKeepsInv(defs, d);
    }
  }

  /** An accepted definition is exactly the argument with its GMAT name and its parent filled in. */
  lemma RegisteredResult(defs: Defs, d: FrameDef, g: Gmat)
    ensures var (after, r) := Registered(defs, d, g);
      r.Ok? ==>
        && r.value == d.(gmatName := r.value.gmatName, parent := r.value.parent)
        && d.id in after && after[d.id] == r.value
        && (d.parent == "" || d.parent == r.value.parent)
        && r.value.parent == (match Needed(d)
                              case Some(n) => ParentFor(defs, n)
                              case None =>
                                if d.axes.PlatformBody? && d.attitude.Some? then d.attitude.value.referenceFrame
                                else "")
  {
  }

  /** A refused registration leaves the definitions changed exactly when the definition passes its own checks,
      a frame is invented for it, and it names another parent; then the invented frame is all that stays. */
  lemma RefusalLeavesFrameIff(defs: Defs, d: FrameDef, g: Gmat)
    requires Registered(defs, d, g).1.Err?
    ensures Registered(defs, d, g).0 != defs <==>
      Checked(d, g).Ok? && Invents(defs, d, g) && d.parent != "" && d.parent != Canonical(Needed(d).value)
    ensures Registered(defs, d, g).0 != defs ==>
      var n := Needed(d).value;
      Registered(defs, d, g)
        == (defs[Canonical(n) := Invented(n)], Err(InconsistentParent(d.id, d.parent, Canonical(n))))
  {
  }

  /** An ENU frame that names the usual id of its parent before that parent exists: refused, and the invented
      parent stays. */
  lemma StationNamesItsParentTooEarly(g: Gmat)
    requires forall d :: g.builds(d)
    ensures
      var d := FrameDef("site", ENU, NoOrigin, "EarthBodyFixed", "", Some("Earth"), "", "", None);
      var n := Need(BodyFixed, "Earth");
      Registered(map[], d, g)
        == (map[Canonical(n) := Invented(n)], Err(InconsistentParent("site", "EarthBodyFixed", Canonical(n))))
  {
    var n := Need(BodyFixed, "Earth");
    FindIsLeast(map[], n);
    assert Canonical(n)[0] == 'g' && "EarthBodyFixed"[0] == 'E';
  }

  /** A parent can be had for d, and d names no other. */
  predicate ParentAgrees(defs: Defs, d: FrameDef, g: Gmat) {
    match Needed(d)
    case Some(n) =>
      (Find(defs, n).Some? || Inventable(defs, n, g)) && (d.parent == "" || d.parent == ParentFor(defs, n))
    case None =>
      d.parent == "" || (d.axes.PlatformBody? && d.attitude.Some? && d.parent == d.attitude.value.referenceFrame)
  }

  /** A registration succeeds exactly when the definition passes its own checks and its parent agrees. */
  lemma RegisteredOkIff(defs: Defs, d: FrameDef, g: Gmat)
    ensures Registered(defs, d, g).1.Ok? <==> Checked(d, g).Ok? && ParentAgrees(defs, d, g)
  {
  }

  /** Each refusal for the parent is true: the supplied parent is not the computed one, the canonical id is taken by a
      frame that does not meet the need, or GMAT does not build the frame to be invented. */
  lemma RefusedParentIsTrue(defs: Defs, d: FrameDef, g: Gmat)
    requires Checked(d, g).Ok? && Registered(defs, d, g).1.Err?
    ensures match Registered(defs, d, g).1.error
      case InconsistentParent(id, supplied, computed) =>
        && id == d.id && supplied == d.parent && supplied != "" && supplied != computed
        && (BodyAxes(d.axes) || d.axes.LocalCartesian? ==> computed == "")
        && (d.axes.PlatformBody? ==> d.attitude.Some? && computed == d.attitude.value.referenceFrame)
        && (Needed(d).Some? ==> computed == ParentFor(defs, Needed(d).value))
      case CanonicalTaken(id) =>
        && Needed(d).Some? && id == Canonical(Needed(d).value) && id in defs
        && forall x :: x in defs ==> !Meets(defs[x], Needed(d).value)
      case GmatRefused(id) =>
        && Needed(d).Some? && id == Canonical(Needed(d).value) && !g.builds(BodyFrame(id, Needed(d).value))
        && forall x :: x in defs ==> !Meets(defs[x], Needed(d).value)
      case _ => false
  {
    hide Canonical;
    if Needed(d).Some? {
      FindIsLeast(defs, Needed(d).value);
    }
  }

  /** A refused registration changes the registry, definitions or realizations, exactly when the definition passes
      its own checks and either was not realized just like that under its id or has a frame invented for it. */
  lemma RefusalChangesRegistryIff(natives: Natives, defs: Defs, d: FrameDef, g: Gmat)
    requires Registered(defs, d, g).1.Err?
    ensures Registered(defs, d, g).0 != defs || Realized(natives, defs, d, g) != natives <==>
      && Checked(d, g).Ok?
      && (|| d.id !in natives || natives[d.id] != NativeOf(d.(gmatName := Checked(d, g).value))
          || Invents(defs, d, g))
  {
    hide Checked, Canonical, NativeOf;
    if Checked(d, g).Ok? && !Invents(defs, d, g) && d.id in natives
      && natives[d.id] == NativeOf(d.(gmatName := Checked(d, g).value)) {
      assert Realized(natives, defs, d, g) == natives;
    } else if Checked(d, g).Ok? && !Invents(defs, d, g) {
      assert Realized(natives, defs, d, g)[d.id] == NativeOf(d.(gmatName := Checked(d, g).value));
    }
  }

  // ---------------------------------------------------------------- realizations and definitions

  /** Every registered frame is realized as its definition says. */
  ghost predicate Consistent(natives: Natives, defs: Defs) {
    forall id :: id in defs ==> id in natives && natives[id] == NativeOf(defs[id])
  }

  /** The registration leaves a registered id with another definition's realization: its parent is refused after the
      new one was written, or the frame invented for it takes its own id. */
  predicate Misrealizes(defs: Defs, d: FrameDef, g: Gmat) {
    Checked(d, g).Ok? &&
    if ParentAgrees(defs, d, g) then Invents(defs, d, g) && d.id == Canonical(Needed(d).value)
    else d.id in defs && NativeOf(defs[d.id]) != NativeOf(d.(gmatName := Checked(d, g).value))
  }

  lemma SafeNameIsNoShorter(s: string)
    ensures |SafeName(s)| >= |s|
  {
  }

  /** A relative frame is not realized like the frame invented for it. */
  lemma InventedIsRealizedOtherwise(d: FrameDef, g: Gmat)
    requires Checked(d, g).Ok? && Needed(d).Some?
    ensures NativeOf(d.(gmatName := Checked(d, g).value)) != NativeOf(Invented(Needed(d).value))
  {
    if ObjectReferenced(d.axes) {
      hide SafeName;
      SafeNameIsNoShorter(d.referenceBody);
      assert |Checked(d, g).value| > |d.referenceBody| + |AxesName(MJ2000Eq)|;
    }
  }

  /** What register does to the realizations, by id. */
  lemma RealizedAt(natives: Natives, defs: Defs, d: FrameDef, g: Gmat, id: string)
    requires Checked(d, g).Ok? && id in Realized(natives, defs, d, g)
    ensures var after := Realized(natives, defs, d, g);
      if Invents(defs, d, g) && id == Canonical(Needed(d).value) then after[id] == NativeOf(Invented(Needed(d).value))
      else if id == d.id then after[id] == NativeOf(d.(gmatName := Checked(d, g).value))
      else id in natives && after[id] == natives[id]
  {
    hide Checked, Canonical, NativeOf;
  }

  lemma RegisteredAt(defs: Defs, d: FrameDef, g: Gmat, id: string)
    requires Checked(d, g).Ok?
    ensures var after := Registered(defs, d, g).0;
      && (id in after <==>
            || id in defs || (Invents(defs, d, g) && id == Canonical(Needed(d).value))
            || (ParentAgrees(defs, d, g) && id == d.id))
      && (id in after ==>
            if ParentAgrees(defs, d, g) && id == d.id then
              NativeOf(after[id]) == NativeOf(d.(gmatName := Checked(d, g).value))
            else if Invents(defs, d, g) && id == Canonical(Needed(d).value) then
              after[id] == Invented(Needed(d).value)
            else id in defs && after[id] == defs[id])
  {
    hide Canonical;
  }

  lemma RealizedKeys(natives: Natives, defs: Defs, d: FrameDef, g: Gmat)
    requires Checked(d, g).Ok?
    ensures Realized(natives, defs, d, g).Keys ==
      natives.Keys + {d.id} + if Invents(defs, d, g) then {Canonical(Needed(d).value)} else {}
  {
    hide Checked, Canonical, NativeOf;
  }

  /** In a consistent registry a registration keeps every registered frame realized as defined exactly when it is
      not of those two kinds. */
  lemma StaysConsistentIff(natives: Natives, defs: Defs, d: FrameDef, g: Gmat)
    requires Consistent(natives, defs)
    ensures Consistent(Realized(natives, defs, d, g), Registered(defs, d, g).0) <==> !Misrealizes(defs, d, g)
  {
    hide Checked, Canonical, NativeOf, Registered, Realized, ParentAgrees, Invents;
    if Checked(d, g).Ok? {
      var after, more := Registered(defs, d, g).0, Realized(natives, defs, d, g);
      RealizedKeys(natives, defs, d, g);
      forall id | id in after ensures id in more {
        RegisteredAt(defs, d, g, id);
      }
      forall id | id in after && id != d.id ensures more[id] == NativeOf(after[id]) {
        RegisteredAt(defs, d, g, id);
        RealizedAt(natives, defs, d, g, id);
      }
      OwnIdConsistentIff(natives, defs, d, g);
    } else {
      NothingRegistered(natives, defs, d, g);
    }
  }

  lemma NothingRegistered(natives: Natives, defs: Defs, d: FrameDef, g: Gmat)
    requires Checked(d, g).Err?
    ensures Registered(defs, d, g).0 == defs && Realized(natives, defs, d, g) == natives
  {
  }

  lemma OwnIdConsistentIff(natives: Natives, defs: Defs, d: FrameDef, g: Gmat)
    requires Consistent(natives, defs) && Checked(d, g).Ok?
    ensures var after := Registered(defs, d, g).0;
      (d.id in after ==> Realized(natives, defs, d, g)[d.id] == NativeOf(after[d.id])) <==> !Misrealizes(defs, d, g)
  {
    hide Checked, Canonical, NativeOf, Registered, Realized, ParentAgrees;
    RealizedKeys(natives, defs, d, g);
    RegisteredAt(defs, d, g, d.id);
    RealizedAt(natives, defs, d, g, d.id);
    if Needed(d).Some? {
      InventedIsRealizedOtherwise(d, g);
    }
  }

  /** A NED definition with a wrong parent, refused under the id of an ENU station of the same body: no definition
      changes, and the station is realized as NED. */
  lemma RefusedNedTurnsStation(natives: Natives, defs: Defs, d: FrameDef, parent: string, g: Gmat)
    requires Consistent(natives, defs) && d.id in defs && defs[d.id] == d && d.axes.ENU? && d.geodetic.Some?
    requires d.gmatName == "gv_topo_" + SafeName(d.id) && d.geodetic.value != "" && forall c :: g.builds(c)
    requires Find(defs, Need(BodyFixed, d.geodetic.value)) == Some(d.parent) && parent != "" && parent != d.parent
    ensures var ned := d.(axes := NED, parent := parent);
      && Registered(defs, ned, g) == (defs, Err(InconsistentParent(d.id, parent, d.parent)))
      && natives[d.id].turn == EnuTurn
      && Realized(natives, defs, ned, g) == natives[d.id := natives[d.id].(turn := NedTurn)]
      && !Consistent(Realized(natives, defs, ned, g), defs)
  {
    var ned := d.(axes := NED, parent := parent);
    assert Checked(ned, g) == Ok(d.gmatName);
    assert Realized(natives, defs, ned, g)[d.id].turn == NedTurn && NativeOf(defs[d.id]).turn == EnuTurn;
  }

  /** Such a registry: "site" registered as a station on Earth. */
  lemma SiteIsTurned(g: Gmat)
    requires forall d :: g.builds(d)
    ensures
      var natives := Realized(map[], map[], Station("site", "Earth"), g);
      var (defs, r) := Registered(map[], Station("site", "Earth"), g);
      && r.Ok? && Consistent(natives, defs)
      && var ned := Station("site", "Earth").(axes := NED, parent := "nope");
         !Consistent(Realized(natives, defs, ned, g), Registered(defs, ned, g).0)
  {
    hide Canonical, Checked, NativeOf;
    var n, d := Need(BodyFixed, "Earth"), Station("site", "Earth");
    var ned := d.(axes := NED, parent := "nope");
    var (defs, r) := Registered(map[], d, g);
    CanonicalStart(n);
    FindIsLeast(map[], n);
    StationChecked("site", "Earth", g);
    RelativeAccepted(map[], d, g);
    assert ParentAgrees(map[], d, g);
    StaysConsistentIff(map[], map[], d, g);
    FindIsLeast(defs, n);
    assert Find(defs, n) == Some(Canonical(n));
    StaysConsistentIff(Realized(map[], map[], d, g), defs, ned, g);
    assert !ParentAgrees(defs, ned, g);
    StationTurns(d, ned, r.value, g);
  }

  /** The id a frame is invented under. */
  lemma CanonicalIs(body: string)
    ensures Canonical(Need(BodyFixed, body)) == "gv_auto_parent_" + SafeName(body) + "_BodyFixed"
    ensures Canonical(Need(MJ2000Eq, body)) == "gv_auto_parent_" + SafeName(body) + "_MJ2000Eq"
  {
    assert "_" + "BodyFixed" == "_BodyFixed" && "_" + "MJ2000Eq" == "_MJ2000Eq";
  }

  lemma CanonicalStart(n: Need)
    ensures Canonical(n) != "" && Canonical(n) != "site" && Canonical(n) != "nope"
  {
    assert Canonical(n)[0] == 'g';
  }

  lemma StationTurns(d: FrameDef, ned: FrameDef, stored: FrameDef, g: Gmat)
    requires Checked(d, g).Ok? && d.axes.ENU? && ned == d.(axes := NED, parent := ned.parent)
    requires stored.axes.ENU? && forall c :: g.builds(c)
    ensures Checked(ned, g).Ok? && NativeOf(stored) != NativeOf(ned.(gmatName := Checked(ned, g).value))
  {
  }

  lemma FailureKeepsInv(defs: Defs, d: FrameDef, g: Gmat)
    requires Inv(defs) && Registered(defs, d, g).1.Err?
    ensures Inv(Registered(defs, d, g).0)
  {
    RefusalLeavesFrameIff(defs, d, g);
    if Registered(defs, d, g).0 != defs {
      InventedKeepsInv(defs, Needed(d).value);
    }
  }

  lemma ReplaceableAfterInventing(defs: Defs, n: Need, d: FrameDef)
    requires Canonical(n) !in defs && BodyAxes(n.axes)
    ensures Replaceable(defs[Canonical(n) := Invented(n)], d) <==> Replaceable(defs, d)
  {
    var more := defs[Canonical(n) := Invented(n)];
    assert forall c :: c in more && Needed(more[c]).Some? ==> c in defs && more[c] == defs[c];
    assert forall c :: c in defs ==> c in more && more[c] == defs[c];
  }

  /** An accepted registration keeps the invariant exactly when it is safe. */
  lemma SuccessKeepsInvIff(defs: Defs, d: FrameDef, g: Gmat)
    requires Inv(defs) && Registered(defs, d, g).1.Ok?
    ensures Inv(Registered(defs, d, g).0) <==> Safe(defs, d)
  {
    var stored := Registered(defs, d, g).1.value;
    RegisteredResult(defs, d, g);
    assert Needed(stored) == Needed(d) && (Replaceable(defs, stored) <==> Replaceable(defs, d));
    match Needed(d)
    case None =>
      StoredKeepsInvIff(defs, stored);
    case Some(n) =>
      var more := Ensured(defs, n, g).0;
      EnsuredMeets(defs, n, g);
      if more != defs {
        InventedKeepsInv(defs, n);
        ReplaceableAfterInventing(defs, n, stored);
      }
      StoredKeepsInvIff(more, stored);
  }

  /** An id under which a frame may be invented. */
  ghost predicate IsCanonical(id: string) {
    exists n: Need :: (n.axes.BodyFixed? || n.axes.MJ2000Eq?) && Canonical(n) == id
  }

  /** A new, non-empty id that is nobody's canonical parent id is always safe. */
  lemma FreshIsSafe(defs: Defs, d: FrameDef)
    requires Inv(defs) && d.id !in defs && d.id != "" && !IsCanonical(d.id)
    ensures Safe(defs, d)
  {
    if Needed(d).Some? {
      FindIsLeast(defs, Needed(d).value);
    }
    forall c | c in defs && Needed(defs[c]).Some? ensures defs[c].parent != d.id {
      assert WellParented(defs, defs[c]);
    }
  }

  // ---------------------------------------------------------------- runs of registrations

  datatype Call = Call(def: FrameDef, gmat: Gmat)

  function Run(defs: Defs, calls: seq<Call>): Defs
    decreases calls
  {
    if calls == [] then defs else Run(Registered(defs, calls[0].def, calls[0].gmat).0, calls[1..])
  }

  /** Every call that succeeds is safe at its time. */
  ghost predicate SafeRun(defs: Defs, calls: seq<Call>)
    decreases calls
  {
    calls == [] ||
    var (after, r) := Registered(defs, calls[0].def, calls[0].gmat);
    (r.Ok? ==> Safe(defs, calls[0].def)) && SafeRun(after, calls[1..])
  }

  lemma {:induction false} RunKeepsInv(defs: Defs, calls: seq<Call>)
    requires Inv(defs) && SafeRun(defs, calls)
    ensures Inv(Run(defs, calls))
    decreases calls
  {
    if calls != [] {
      var d, g := calls[0].def, calls[0].gmat;
      if Registered(defs, d, g).1.Ok? {
        SuccessKeepsInvIff(defs, d, g);
      } else {
        FailureKeepsInv(defs, d, g);
      }
      RunKeepsInv(Registered(defs, d, g).0, calls[1..]);
    }
  }

  ghost predicate FreshIds(calls: seq<Call>) {
    && (forall i :: 0 <= i < |calls| ==> calls[i].def.id != "" && !IsCanonical(calls[i].def.id))
    && (forall i, j :: 0 <= i < j < |calls| ==> calls[i].def.id != calls[j].def.id)
  }

  lemma RegisteredKeys(defs: Defs, d: FrameDef, g: Gmat, id: string)
    requires id in Registered(defs, d, g).0 && id !in defs
    ensures id == d.id || IsCanonical(id)
  {
    if Needed(d).Some? {
      EnsuredMeets(defs, Needed(d).value, g);
    }
  }

  lemma {:induction false} FreshIdsRunSafely(defs: Defs, calls: seq<Call>)
    requires Inv(defs) && FreshIds(calls)
    requires forall i :: 0 <= i < |calls| ==> calls[i].def.id !in defs
    ensures SafeRun(defs, calls)
    decreases calls
  {
    if calls != [] {
      var d, g := calls[0].def, calls[0].gmat;
      var after := Registered(defs, d, g).0;
      FreshIsSafe(defs, d);
      if Registered(defs, d, g).1.Ok? {
        SuccessKeepsInvIff(defs, d, g);
      } else {
        FailureKeepsInv(defs, d, g);
      }
      forall i | 0 <= i < |calls[1..]| ensures calls[1..][i].def.id !in after {
        if calls[1..][i].def.id in after {
          RegisteredKeys(defs, d, g, calls[1..][i].def.id);
        }
      }
      FreshIdsRunSafely(after, calls[1..]);
    }
  }

  /** Any registrations, whatever GMAT answers, with distinct, non-empty, non-canonical ids leave a tree. */
  lemma FreshRunKeepsInv(calls: seq<Call>)
    requires FreshIds(calls)
    ensures Inv(Run(map[], calls))
  {
    FreshIdsRunSafely(map[], calls);
    RunKeepsInv(map[], calls);
  }

  function RealizedRun(natives: Natives, defs: Defs, calls: seq<Call>): Natives
    decreases calls
  {
    if calls == [] then natives
    else
      var d, g := calls[0].def, calls[0].gmat;
      RealizedRun(Realized(natives, defs, d, g), Registered(defs, d, g).0, calls[1..])
  }

  /** Consistent before, between and after the calls. */
  ghost predicate AlwaysConsistent(natives: Natives, defs: Defs, calls: seq<Call>)
    decreases calls
  {
    && Consistent(natives, defs)
    && (calls != [] ==>
          var d, g := calls[0].def, calls[0].gmat;
          AlwaysConsistent(Realized(natives, defs, d, g), Registered(defs, d, g).0, calls[1..]))
  }

  ghost predicate NeverMisrealizes(defs: Defs, calls: seq<Call>)
    decreases calls
  {
    calls == [] ||
    var d, g := calls[0].def, calls[0].gmat;
    !Misrealizes(defs, d, g) && NeverMisrealizes(Registered(defs, d, g).0, calls[1..])
  }

  /** Over every run, realizations agree with definitions all the time exactly when no call is of the two kinds. */
  lemma {:induction false} AlwaysConsistentIff(natives: Natives, defs: Defs, calls: seq<Call>)
    requires Consistent(natives, defs)
    ensures AlwaysConsistent(natives, defs, calls) <==> NeverMisrealizes(defs, calls)
    decreases calls
  {
    if calls != [] {
      hide Consistent, Misrealizes, Registered, Realized;
      var d, g := calls[0].def, calls[0].gmat;
      StaysConsistentIff(natives, defs, d, g);
      if !Misrealizes(defs, d, g) {
        AlwaysConsistentIff(Realized(natives, defs, d, g), Registered(defs, d, g).0, calls[1..]);
      } else {
        assert !Consistent(Realized(natives, defs, d, g), Registered(defs, d, g).0);
      }
    }
  }

  lemma {:induction false} AlwaysMeansAtTheEnd(natives: Natives, defs: Defs, calls: seq<Call>)
    requires AlwaysConsistent(natives, defs, calls)
    ensures Consistent(RealizedRun(natives, defs, calls), Run(defs, calls))
    decreases calls
  {
    if calls != [] {
      hide Consistent, Registered, Realized;
      var d, g := calls[0].def, calls[0].gmat;
      AlwaysMeansAtTheEnd(Realized(natives, defs, d, g), Registered(defs, d, g).0, calls[1..]);
    }
  }

  lemma {:induction false} FreshIdsNeverMisrealize(defs: Defs, calls: seq<Call>)
    requires FreshIds(calls) && forall i :: 0 <= i < |calls| ==> calls[i].def.id !in defs
    ensures NeverMisrealizes(defs, calls)
    decreases calls
  {
    if calls != [] {
      hide Registered, Canonical, NativeOf;
      var d, g := calls[0].def, calls[0].gmat;
      assert d.id != "" && !IsCanonical(d.id);
      forall i | 0 <= i < |calls[1..]| ensures calls[1..][i].def.id !in Registered(defs, d, g).0 {
        if calls[1..][i].def.id in Registered(defs, d, g).0 {
          RegisteredKeys(defs, d, g, calls[1..][i].def.id);
        }
      }
      FreshIdsNeverMisrealize(Registered(defs, d, g).0, calls[1..]);
    }
  }

  /** Any registrations with distinct, non-empty, non-canonical ids, refused ones included, leave every registered
      frame realized as its definition says. */
  lemma FreshRunIsConsistent(calls: seq<Call>)
    requires FreshIds(calls)
    ensures Consistent(RealizedRun(map[], map[], calls), Run(map[], calls))
  {
    FreshIdsNeverMisrealize(map[], calls);
    AlwaysConsistentIff(map[], map[], calls);
    AlwaysMeansAtTheEnd(map[], map[], calls);
  }

  // ---------------------------------------------------------------- walking to the root

  /** The id reached after k parents; None once the walk has ended. */
  function Ancestor(defs: Defs, id: string, k: nat): Option<string> {
    if k == 0 then Some(id)
    else match Ancestor(defs, id, k - 1)
      case Some(x) => if x != "" && x in defs then Some(defs[x].parent) else None
      case None => None
  }

  ghost predicate Reaches(defs: Defs, id: string) {
    exists k: nat :: Ancestor(defs, id, k) == Some("")
  }

  ghost predicate Leaves(defs: Defs, id: string) {
    exists k: nat ::
      Ancestor(defs, id, k).Some? && Ancestor(defs, id, k).value != "" && Ancestor(defs, id, k).value !in defs
  }

  ghost predicate Revisits(defs: Defs, id: string) {
    exists i: nat, j: nat :: i < j && Ancestor(defs, id, i).Some? && Ancestor(defs, id, i) == Ancestor(defs, id, j)
  }

  predicate Ends(defs: Defs, id: string, k: nat) {
    match Ancestor(defs, id, k)
    case Some(x) => x == "" || x !in defs
    case None => false
  }

  lemma {:induction false} NoneAfterEnd(defs: Defs, id: string, k: nat, m: nat)
    requires Ends(defs, id, k) && k < m
    ensures Ancestor(defs, id, m).None?
  {
    if m > k + 1 {
      NoneAfterEnd(defs, id, k, m - 1);
    }
  }

  lemma {:induction false} Shift(defs: Defs, id: string, i: nat, j: nat, m: nat)
    requires Ancestor(defs, id, i) == Ancestor(defs, id, j)
    ensures Ancestor(defs, id, i + m) == Ancestor(defs, id, j + m)
  {
    if m > 0 {
      Shift(defs, id, i, j, m - 1);
    }
  }

  lemma {:induction false} NoneStays(defs: Defs, id: string, k: nat, m: nat)
    requires Ancestor(defs, id, k).None? && k <= m
    ensures Ancestor(defs, id, m).None?
  {
    if k < m {
      NoneStays(defs, id, k, m - 1);
    }
  }

  /** A walk that returns to an id it has left never ends. */
  lemma {:induction false} RevisitingNeverEnds(defs: Defs, id: string, i: nat, j: nat, k: nat)
    requires i < j && Ancestor(defs, id, i).Some? && Ancestor(defs, id, i) == Ancestor(defs, id, j)
    ensures !Ends(defs, id, k)
    decreases if k < i then i - k else 0, k
  {
    if Ends(defs, id, k) {
      if k < i {
        NoneAfterEnd(defs, id, k, i);
      } else {
        Shift(defs, id, i, j, k - i);
        NoneAfterEnd(defs, id, k, j + (k - i));
      }
    }
  }

  lemma {:induction false} EndIsUnique(defs: Defs, id: string, k: nat, m: nat)
    requires Ends(defs, id, k) && Ends(defs, id, m)
    ensures k == m
  {
    if k < m {
      NoneAfterEnd(defs, id, k, m);
    } else if m < k {
      NoneAfterEnd(defs, id, m, k);
    }
  }

  lemma ReachesEnds(defs: Defs, id: string) returns (k: nat)
    requires Reaches(defs, id)
    ensures Ends(defs, id, k) && Ancestor(defs, id, k) == Some("")
  {
    k :| Ancestor(defs, id, k) == Some("");
  }

  lemma LeavesEnds(defs: Defs, id: string) returns (k: nat)
    requires Leaves(defs, id)
    ensures Ends(defs, id, k) && Ancestor(defs, id, k) != Some("")
  {
    k :| Ancestor(defs, id, k).Some? && Ancestor(defs, id, k).value != "" && Ancestor(defs, id, k).value !in defs;
  }

  /** The three fates of a walk exclude each other. */
  lemma FatesExclude(defs: Defs, id: string)
    ensures !(Reaches(defs, id) && Leaves(defs, id))
    ensures !(Revisits(defs, id) && (Reaches(defs, id) || Leaves(defs, id)))
  {
    if Reaches(defs, id) || Leaves(defs, id) {
      var k: nat;
      if Reaches(defs, id) {
        k := ReachesEnds(defs, id);
        if Leaves(defs, id) {
          var m := LeavesEnds(defs, id);
          EndIsUnique(defs, id, k, m);
        }
      } else {
        k := LeavesEnds(defs, id);
      }
      if Revisits(defs, id) {
        var i: nat, j: nat :| i < j && Ancestor(defs, id, i).Some? && Ancestor(defs, id, i) == Ancestor(defs, id, j);
        RevisitingNeverEnds(defs, id, i, j, k);
      }
    }
  }

  /** The list starts at id and each entry is the parent of the one before. */
  ghost predicate IsWalk(defs: Defs, id: string, path: seq<string>) {
    forall k :: 0 <= k < |path| ==> Ancestor(defs, id, k) == Some(path[k])
  }

  ghost predicate Repeats(path: seq<string>) {
    exists i, j :: 0 <= i < j < |path| && path[i] == path[j]
  }

  lemma WalkAt(defs: Defs, id: string, path: seq<string>, current: string)
    requires IsWalk(defs, id, path + [current])
    ensures Ancestor(defs, id, |path|) == Some(current) && IsWalk(defs, id, path)
  {
    assert (path + [current])[|path|] == current;
    forall k | 0 <= k < |path| ensures Ancestor(defs, id, k) == Some(path[k]) {
      assert (path + [current])[k] == path[k];
    }
  }

  lemma WalkOn(defs: Defs, id: string, path: seq<string>, current: string)
    requires IsWalk(defs, id, path + [current]) && current != "" && current in defs
    ensures IsWalk(defs, id, path + [current] + [defs[current].parent])
  {
    WalkAt(defs, id, path, current);
    assert Ancestor(defs, id, |path| + 1) == Some(defs[current].parent);
  }

  lemma WalkRevisits(defs: Defs, id: string, path: seq<string>, current: string)
    requires IsWalk(defs, id, path + [current]) && current in path
    ensures Revisits(defs, id)
  {
    WalkAt(defs, id, path, current);
    var i :| 0 <= i < |path| && path[i] == current;
    assert Ancestor(defs, id, i) == Ancestor(defs, id, |path|);
  }

  /** What `path_to_root` answers: the chain up to the root without repeats, the chain up to the first id it
      revisits, or the first id that is not registered. */
  ghost predicate WalkAnswer(defs: Defs, id: string, r: Result<seq<string>, FrameError>) {
    match r
    case Ok(path) => id in defs && IsWalk(defs, id, path + [""]) && !Repeats(path) && "" !in path
    case Err(NotRegistered(x)) => x == id && id !in defs
    case Err(Cycle(x, c)) =>
      x == id && id in defs && IsWalk(defs, id, c) && |c| > 0 && !Repeats(c[..|c| - 1]) && c[|c| - 1] in c[..|c| - 1]
    case Err(ParentMissing(x, missing)) =>
      && x == id && id in defs && missing != "" && missing !in defs
      && exists k: nat :: Ancestor(defs, id, k) == Some(missing)
    case _ => false
  }

  lemma NoRepeatYet(path: seq<string>, current: string)
    requires !Repeats(path) && current !in path
    ensures !Repeats(path + [current])
  {
  }

  lemma CycleAnswer(defs: Defs, id: string, path: seq<string>, current: string)
    requires id in defs && IsWalk(defs, id, path + [current]) && current in path && !Repeats(path)
    ensures WalkAnswer(defs, id, Err(Cycle(id, path + [current])))
  {
    var c := path + [current];
    assert c[..|c| - 1] == path && c[|c| - 1] == current;
  }

  lemma MissingAnswer(defs: Defs, id: string, path: seq<string>, current: string)
    requires id in defs && IsWalk(defs, id, path + [current]) && current !in defs && current != ""
    ensures WalkAnswer(defs, id, Err(ParentMissing(id, current)))
  {
    WalkAt(defs, id, path, current);
    assert Ancestor(defs, id, |path|) == Some(current);
  }

  /** Each answer is given exactly when the walk has the fate it reports. */
  lemma WalkAnswerIsExact(defs: Defs, id: string, r: Result<seq<string>, FrameError>)
    requires WalkAnswer(defs, id, r)
    ensures r == Err(NotRegistered(id)) <==> id !in defs
    ensures id in defs ==> (r.Ok? <==> Reaches(defs, id))
    ensures id in defs ==> (r.Err? && r.error.Cycle? <==> Revisits(defs, id))
    ensures id in defs ==> (r.Err? && r.error.ParentMissing? <==> Leaves(defs, id))
  {
    FatesExclude(defs, id);
    match r
    case Ok(path) => WalkAt(defs, id, path, "");
    case Err(Cycle(_, c)) =>
      assert c == c[..|c| - 1] + [c[|c| - 1]];
      WalkRevisits(defs, id, c[..|c| - 1], c[|c| - 1]);
    case Err(_) =>
  }

  lemma SameWalk(defs: Defs, id: string, p: seq<string>, q: seq<string>)
    requires IsWalk(defs, id, p) && IsWalk(defs, id, q) && |p| == |q|
    ensures p == q
  {
    forall k | 0 <= k < |p| ensures p[k] == q[k] {
      assert Ancestor(defs, id, k) == Some(p[k]) && Ancestor(defs, id, k) == Some(q[k]);
    }
  }

  lemma RepeatsInPrefix(c: seq<string>, p: seq<string>)
    requires 0 < |c| <= |p| && c == p[..|c|] && c[|c| - 1] in c[..|c| - 1]
    ensures Repeats(p)
  {
    var i :| 0 <= i < |c| - 1 && c[i] == c[|c| - 1];
    assert p[i] == p[|c| - 1];
  }

  lemma FirstRevisit(defs: Defs, id: string, c: seq<string>, other: seq<string>)
    requires IsWalk(defs, id, c) && IsWalk(defs, id, other) && |c| > 0 && |other| > 0
    requires c[|c| - 1] in c[..|c| - 1] && !Repeats(other[..|other| - 1])
    ensures |c| >= |other|
  {
    if |c| < |other| {
      SameWalk(defs, id, c, other[..|c|]);
      RepeatsInPrefix(c, other[..|other| - 1]);
    }
  }

  /** A registry has one answer to a walk. */
  lemma WalkAnswerIsUnique(defs: Defs, id: string, r: Result<seq<string>, FrameError>,
                           other: Result<seq<string>, FrameError>)
    requires WalkAnswer(defs, id, r) && WalkAnswer(defs, id, other)
    ensures r == other
  {
    WalkAnswerIsExact(defs, id, r);
    WalkAnswerIsExact(defs, id, other);
    match r
    case Ok(path) =>
      WalkAt(defs, id, path, "");
      WalkAt(defs, id, other.value, "");
      EndIsUnique(defs, id, |path|, |other.value|);
      SameWalk(defs, id, path, other.value);
    case Err(Cycle(_, c)) =>
      FirstRevisit(defs, id, c, other.error.cycle);
      FirstRevisit(defs, id, other.error.cycle, c);
      SameWalk(defs, id, c, other.error.cycle);
    case Err(ParentMissing(_, missing)) =>
      var k: nat :| Ancestor(defs, id, k) == Some(missing);
      var m: nat :| Ancestor(defs, id, m) == Some(other.error.missing);
      EndIsUnique(defs, id, k, m);
    case Err(_) =>
  }

  ghost predicate StrictlyAscending(ids: seq<string>) {
    forall i, j :: 0 <= i < j < |ids| ==> ids[i] != ids[j] && StringLeq(ids[i], ids[j])
  }

  class FrameRegistry {
    var defs: Defs
    var natives: Natives

    constructor ()
      ensures defs == map[] && natives == map[]
    {
      defs, natives := map[], map[];
    }

    method Register(d: FrameDef, g: Gmat) returns (r: Result<FrameDef, FrameError>)
      modifies this
      ensures (defs, r) == Registered(old(defs), d, g)
      ensures natives == Realized(old(natives), old(defs), d, g)
      decreases if Needed(d).Some? then 1 else 0, 1
    {
      var checked := Checked(d, g);
      if checked.Err? {
        return Err(checked.error);
      }
      var named := d.(gmatName := checked.value);
      natives := natives[d.id := NativeOf(named)];
      var computed := ComputedParent(named, g);
      if computed.Err? {
        return Err(computed.error);
      }
      if named.parent != "" && named.parent != computed.value {
        return Err(InconsistentParent(d.id, d.parent, computed.value));
      }
      named := named.(parent := computed.value);
      defs := defs[d.id := named];
      r := Ok(named);
    }

    method ComputedParent(d: FrameDef, g: Gmat) returns (r: Result<string, FrameError>)
      requires Topocentric(d.axes) ==> d.geodetic.Some?
      requires d.axes.PlatformBody? ==> d.attitude.Some?
      requires BodyAxes(d.axes) || d.axes.LocalCartesian? || Topocentric(d.axes) || ObjectReferenced(d.axes)
        || d.axes.PlatformBody?
      modifies this
      ensures Needed(d).None? ==>
        && defs == old(defs) && natives == old(natives)
        && r == Ok(if d.axes.PlatformBody? then d.attitude.value.referenceFrame else "")
      ensures Needed(d).Some? ==>
        var n := Needed(d).value;
        var (more, problem) := Ensured(old(defs), n, g);
        && defs == more && natives == WithInvented(old(natives), old(defs), n, g)
        && r == (if problem.Some? then Err(problem.value) else Ok(ParentFor(old(defs), n)))
      decreases if Needed(d).Some? then 1 else 0, 0
    {
      if BodyAxes(d.axes) || d.axes.LocalCartesian? {
        r := Ok("");
      } else if Topocentric(d.axes) {
        r := EnsureBodyAxesParent(Need(BodyFixed, d.geodetic.value), g);
      } else if ObjectReferenced(d.axes) {
        r := EnsureBodyAxesParent(Need(MJ2000Eq, d.referenceBody), g);
      } else {
        r := Ok(d.attitude.value.referenceFrame);
      }
    }

    method EnsureBodyAxesParent(n: Need, g: Gmat) returns (r: Result<string, FrameError>)
      requires n.axes.BodyFixed? || n.axes.MJ2000Eq?
      modifies this
      ensures natives == WithInvented(old(natives), old(defs), n, g)
      ensures var (more, problem) := Ensured(old(defs), n, g);
        defs == more && r == (if problem.Some? then Err(problem.value) else Ok(ParentFor(old(defs), n)))
      decreases 0, 2
    {
      var existing := Find(defs, n);
      if existing.Some? {
        return Ok(existing.value);
      }
      if Canonical(n) in defs {
        return Err(CanonicalTaken(Canonical(n)));
      }
      var registered := Register(BodyFrame(Canonical(n), n), g);
      if registered.Err? {
        return Err(registered.error);
      }
      r := Ok(Canonical(n));
    }

    /** The ids whose parent is id, ascending; "" asks for the roots. */
    method Children(id: string) returns (r: Result<seq<string>, FrameError>)
      ensures r.Err? <==> id != "" && id !in defs
      ensures r.Ok? ==> forall c :: c in r.value <==> c in defs && defs[c].parent == id
      ensures r.Ok? ==> StrictlyAscending(r.value)
    {
      if id != "" && id !in defs {
        return Err(NotRegistered(id));
      }
      r := Ok(Ascending(set c | c in defs && defs[c].parent == id));
    }

    /** The chain of parents up to the root; the walk ends on every registry. */
    method PathToRoot(id: string) returns (r: Result<seq<string>, FrameError>)
      ensures WalkAnswer(defs, id, r)
    {
      if id !in defs {
        return Err(NotRegistered(id));
      }
      var path: seq<string>, seen: set<string>, current := [], {}, id;
      while current != ""
        invariant IsWalk(defs, id, path + [current])
        invariant (forall x :: x in seen <==> x in path) && seen <= defs.Keys
        invariant "" !in path && !Repeats(path)
        decreases |defs.Keys - seen|
      {
        if current in seen {
          CycleAnswer(defs, id, path, current);
          return Err(Cycle(id, path + [current]));
        }
        if current !in defs {
          MissingAnswer(defs, id, path, current);
          return Err(ParentMissing(id, current));
        }
        WalkOn(defs, id, path, current);
        NoRepeatYet(path, current);
        SmallerSet(defs.Keys - (seen + {current}), defs.Keys - seen);
        path := path + [current];
        seen := seen + {current};
        current := defs[current].parent;
      }
      r := Ok(path);
    }
  }

  lemma SmallerSet<T>(a: set<T>, b: set<T>)
    requires a < b
    ensures |a| < |b|
  {
    assert b == a + (b - a) && b - a != {};
  }

  // ---------------------------------------------------------------- walks in a tree

  lemma ParentIsRoot(defs: Defs, id: string)
    requires Inv(defs) && id in defs && !defs[id].axes.PlatformBody? && defs[id].parent != ""
    ensures defs[id].parent in defs && defs[defs[id].parent].parent == ""
  {
    assert WellParented(defs, defs[id]);
    assert Needed(defs[id]).Some?;
    assert Meets(defs[defs[id].parent], Needed(defs[id]).value);
    assert WellParented(defs, defs[defs[id].parent]);
  }

  /** A frame that is not PLATFORM_BODY is a root, or hangs directly from one. */
  lemma ShortPath(defs: Defs, id: string)
    requires Inv(defs) && id in defs && !defs[id].axes.PlatformBody?
    ensures Ancestor(defs, id, 1) == Some("") || Ancestor(defs, id, 2) == Some("")
  {
    var p := defs[id].parent;
    assert Ancestor(defs, id, 0) == Some(id);
    assert Ancestor(defs, id, 1) == Some(p);
    if p != "" {
      ParentIsRoot(defs, id);
      assert Ancestor(defs, id, 2) == Some(defs[p].parent);
    }
  }

  /** Every registered frame on a walk that fails is a PLATFORM_BODY frame. */
  lemma FailingWalkIsPlatform(defs: Defs, id: string, k: nat)
    requires Inv(defs) && id in defs && !Reaches(defs, id)
    requires Ancestor(defs, id, k).Some? && Ancestor(defs, id, k).value in defs
    ensures defs[Ancestor(defs, id, k).value].axes.PlatformBody?
  {
    var x := Ancestor(defs, id, k).value;
    if !defs[x].axes.PlatformBody? {
      ShortPath(defs, x);
      Append(defs, id, k, 1);
      Append(defs, id, k, 2);
    }
  }

  lemma {:induction false} Append(defs: Defs, id: string, k: nat, m: nat)
    requires Ancestor(defs, id, k).Some?
    ensures Ancestor(defs, id, k + m) == Ancestor(defs, Ancestor(defs, id, k).value, m)
  {
    if m > 0 {
      Append(defs, id, k, m - 1);
    }
  }

  // ---------------------------------------------------------------- what unsafe registrations do

  /** A relative frame registered under the id of its own parent becomes its own parent. */
  lemma OwnParent(defs: Defs, d: FrameDef, g: Gmat)
    requires Registered(defs, d, g).1.Ok? && Needed(d).Some? && d.id == ParentFor(defs, Needed(d).value) != ""
    ensures var after := Registered(defs, d, g).0;
      after[d.id].parent == d.id && Revisits(after, d.id) && !Inv(after)
  {
    var after := Registered(defs, d, g).0;
    RegisteredResult(defs, d, g);
    assert after[d.id].axes == d.axes && after[d.id].parent == d.id;
    assert Ancestor(after, d.id, 0) == Some(d.id) && Ancestor(after, d.id, 1) == Some(d.id);
    assert Needed(after[d.id]) == Needed(d);
    assert !WellParented(after, after[d.id]);
  }

  function Station(id: string, body: string): FrameDef {
    FrameDef(id, ENU, NoOrigin, "", "", Some(body), "", "", None)
  }

  lemma StationChecked(id: string, body: string, g: Gmat)
    requires body != "" && forall d :: g.builds(d)
    ensures Checked(Station(id, body), g).Ok? && Needed(Station(id, body)) == Some(Need(BodyFixed, body))
  {
  }

  /** An acceptable definition that names no parent is accepted when its need is met or a frame is invented. */
  lemma RelativeAccepted(defs: Defs, d: FrameDef, g: Gmat)
    requires Checked(d, g).Ok? && Needed(d).Some? && d.parent == ""
    requires Find(defs, Needed(d).value).Some? || Invents(defs, d, g)
    ensures var (after, r) := Registered(defs, d, g);
      && r.Ok? && r.value.parent == ParentFor(defs, Needed(d).value)
      && after.Keys == defs.Keys + {d.id, r.value.parent}
  {
    hide Checked;
    FindIsLeast(defs, Needed(d).value);
  }

  lemma FirstBodyFrame(id: string, n: Need, g: Gmat)
    requires id != "" && n.body != "" && BodyAxes(n.axes) && g.builds(BodyFrame(id, n))
    ensures var (after, r) := Registered(map[], BodyFrame(id, n), g);
      r.Ok? && after == map[id := r.value] && r.value.id == id && Meets(r.value, n) && Inv(after)
  {
  }

  lemma OnlyMatch(d: FrameDef, n: Need)
    requires Meets(d, n)
    ensures Find(map[d.id := d], n) == Some(d.id)
  {
    FindIsLeast(map[d.id := d], n);
    assert Meets(map[d.id := d][d.id], n);
  }

  /** A BODY_FIXED id registered again as an ENU frame of the same body. */
  lemma BodyFixedReRegistered(id: string, body: string, g: Gmat)
    requires id != "" && body != "" && forall d :: g.builds(d)
    ensures
      var first := Registered(map[], BodyFrame(id, Need(BodyFixed, body)), g);
      var second := Registered(first.0, Station(id, body), g);
      Inv(first.0) && second.1.Ok? && second.0[id].parent == id && Revisits(second.0, id)
  {
    hide Registered, Checked, Inv, Ancestor, Matches;
    var n := Need(BodyFixed, body);
    assert g.builds(BodyFrame(id, n));
    FirstBodyFrame(id, n, g);
    var first := Registered(map[], BodyFrame(id, n), g);
    OnlyMatch(first.1.value, n);
    StationChecked(id, body, g);
    RelativeAccepted(first.0, Station(id, body), g);
    OwnParent(first.0, Station(id, body), g);
  }

  /** A first ENU frame whose id is the canonical id of the parent it needs. */
  lemma CanonicalIdAsStation(body: string, g: Gmat)
    requires body != "" && forall d :: g.builds(d)
    ensures
      var id := Canonical(Need(BodyFixed, body));
      var (after, r) := Registered(map[], Station(id, body), g);
      r.Ok? && after.Keys == {id} && after[id].parent == id && Revisits(after, id)
  {
    hide Registered, Checked, Inv, Ancestor, Matches, SafeName;
    var n := Need(BodyFixed, body);
    var id := Canonical(n);
    assert id[0] == 'g';
    FindIsLeast(map[], n);
    StationChecked(id, body, g);
    assert g.builds(BodyFrame(id, n));
    RelativeAccepted(map[], Station(id, body), g);
    OwnParent(map[], Station(id, body), g);
  }
}
