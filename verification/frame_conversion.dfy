/** `convert` of altavista/frames.py: GMAT's conversion between two native systems, with the fixed turns of stations
    applied before and after. */
module FrameConversion {
  import opened Base
  import opened Vectors
  import opened Rotation
  import opened Frames

  /** Position and velocity. */
  datatype State = State(pos: Vec, vel: Vec)

  /** GMAT's conversion at one epoch, from a named system to another, in km. */
  type Converter = (string, State, string) -> State

  datatype ConvertError = Unregistered(id: string) | Frameless(id: string) | NoAttitudeService(id: string) | NoSystem

  const SEZ_TO_ENU := Mat(Vec(0.0, 1.0, 0.0), Vec(-1.0, 0.0, 0.0), Vec(0.0, 0.0, 1.0))
  const SEZ_TO_NED := Mat(Vec(-1.0, 0.0, 0.0), Vec(0.0, 1.0, 0.0), Vec(0.0, 0.0, -1.0))

  function Transposed(m: Mat): Mat {
    Mat(Vec(m.r0.x, m.r1.x, m.r2.x), Vec(m.r0.y, m.r1.y, m.r2.y), Vec(m.r0.z, m.r1.z, m.r2.z))
  }

  /** `_to_native` */
  function ToNative(t: Turn): Option<Mat> {
    match t
    case NoTurn => None
    case EnuTurn => Some(Transposed(SEZ_TO_ENU))
    case NedTurn => Some(Transposed(SEZ_TO_NED))
  }

  function TurnedBy(m: Mat, s: State): State {
    State(Times(m, s.pos), Times(m, s.vel))
  }

  function Into(t: Turn, s: State): State {
    match ToNative(t)
    case None => s
    case Some(m) => TurnedBy(m, s)
  }

  function OutOf(t: Turn, s: State): State {
    match ToNative(t)
    case None => s
    case Some(m) => TurnedBy(Transposed(m), s)
  }

  function Scaled(k: real, s: State): State {
    State(Scale(k, s.pos), Scale(k, s.vel))
  }

  const KM_PER_M := 0.001
  const M_PER_KM := 1000.0

  /** A state in metres, through GMAT's kilometres. */
  function Through(a: Native, b: Native, gmat: Converter, s: State): State
    requires a.system.Some? && b.system.Some?
  {
    Scaled(M_PER_KM, OutOf(b.turn, gmat(a.system.value, Into(a.turn, Scaled(KM_PER_M, s)), b.system.value)))
  }

  function Convert(natives: Natives, defs: Defs, gmat: Converter, s: State, from: string, to: string)
    : Result<State, ConvertError>
  {
    if from !in defs then Err(Unregistered(from))
    else if to !in defs then Err(Unregistered(to))
    else if defs[from].axes.LocalCartesian? then Err(Frameless(from))
    else if defs[to].axes.LocalCartesian? then Err(Frameless(to))
    else if defs[from].axes.PlatformBody? then Err(NoAttitudeService(from))
    else if defs[to].axes.PlatformBody? then Err(NoAttitudeService(to))
    else if from !in natives || to !in natives || natives[from].system.None? || natives[to].system.None?
      then Err(NoSystem)
    else Ok(Through(natives[from], natives[to], gmat, s))
  }

  // ---------------------------------------------------------------- the turns

  /** The two fixed matrices are proper rotations. */
  lemma TurnsAreRotations()
    ensures IsRotation(SEZ_TO_ENU) && IsRotation(SEZ_TO_NED)
  {
    EnuIsRotation();
    NedIsRotation();
  }

  lemma EnuIsRotation()
    ensures IsRotation(SEZ_TO_ENU)
  {
    var x, y, z := Vec(0.0, 1.0, 0.0), Vec(-1.0, 0.0, 0.0), Vec(0.0, 0.0, 1.0);
    assert Cross(x, y) == z;
  }

  lemma NedIsRotation()
    ensures IsRotation(SEZ_TO_NED)
  {
    var x, y, z := Vec(-1.0, 0.0, 0.0), Vec(0.0, 1.0, 0.0), Vec(0.0, 0.0, -1.0);
    assert Cross(x, y) == z;
  }

  lemma TurnsUndoEachOther(t: Turn, s: State)
    ensures Into(t, OutOf(t, s)) == s == OutOf(t, Into(t, s))
  {
  }

  lemma ScalesUndoEachOther(s: State)
    ensures Scaled(KM_PER_M, Scaled(M_PER_KM, s)) == s == Scaled(M_PER_KM, Scaled(KM_PER_M, s))
  {
  }

  // ---------------------------------------------------------------- what the conversions promise

  /** A kind of frame that has a native GMAT system. */
  predicate Convertible(d: FrameDef) {
    BodyAxes(d.axes) || ObjectReferenced(d.axes) || Topocentric(d.axes)
  }

  /** Only definitions of a known kind are registered. */
  predicate KnownKinds(defs: Defs) {
    forall id :: id in defs ==> Convertible(defs[id]) || defs[id].axes.PlatformBody? || defs[id].axes.LocalCartesian?
  }

  lemma RegisteredKindsAreKnown(defs: Defs, d: FrameDef, g: Gmat)
    requires KnownKinds(defs)
    ensures KnownKinds(Registered(defs, d, g).0)
  {
    hide Canonical;
    RegisteredResult(defs, d, g);
    if Needed(d).Some? {
      EnsuredMeets(defs, Needed(d).value, g);
    }
  }

  lemma {:induction false} RunKindsAreKnown(defs: Defs, calls: seq<Call>)
    requires KnownKinds(defs)
    ensures KnownKinds(Run(defs, calls))
    decreases calls
  {
    if calls != [] {
      hide KnownKinds, Registered;
      RegisteredKindsAreKnown(defs, calls[0].def, calls[0].gmat);
      RunKindsAreKnown(Registered(defs, calls[0].def, calls[0].gmat).0, calls[1..]);
    }
  }

  /** What GMAT is handed of a vector of such a frame in metres: in km, and of a station (east, north, up) or
      (north, east, down) as (south, east, zenith). */
  function Handed(a: Axes, v: Vec): Vec {
    match a
    case ENU => Vec(-v.y / 1000.0, v.x / 1000.0, v.z / 1000.0)
    case NED => Vec(-v.x / 1000.0, v.y / 1000.0, -v.z / 1000.0)
    case _ => Vec(v.x / 1000.0, v.y / 1000.0, v.z / 1000.0)
  }

  /** What is made of the vector it answers. */
  function Taken(a: Axes, v: Vec): Vec {
    match a
    case ENU => Vec(v.y * 1000.0, -v.x * 1000.0, v.z * 1000.0)
    case NED => Vec(-v.x * 1000.0, v.y * 1000.0, -v.z * 1000.0)
    case _ => Vec(v.x * 1000.0, v.y * 1000.0, v.z * 1000.0)
  }

  /** The answer when every frame is realized as its definition says. */
  ghost predicate Answers(r: Result<State, ConvertError>, gmat: Converter, s: State, a: FrameDef, b: FrameDef) {
    var y := gmat(a.gmatName, State(Handed(a.axes, s.pos), Handed(a.axes, s.vel)), b.gmatName);
    r == Ok(State(Taken(b.axes, y.pos), Taken(b.axes, y.vel)))
  }

  lemma IntoSez(d: FrameDef, s: State)
    requires Convertible(d)
    ensures Into(NativeOf(d).turn, Scaled(KM_PER_M, s)) == State(Handed(d.axes, s.pos), Handed(d.axes, s.vel))
  {
  }

  lemma OutOfSez(d: FrameDef, y: State)
    requires Convertible(d)
    ensures Scaled(M_PER_KM, OutOf(NativeOf(d).turn, y)) == State(Taken(d.axes, y.pos), Taken(d.axes, y.vel))
  {
  }

  lemma ThroughAnswers(gmat: Converter, s: State, a: FrameDef, b: FrameDef)
    requires Convertible(a) && Convertible(b)
    ensures Answers(Ok(Through(NativeOf(a), NativeOf(b), gmat, s)), gmat, s, a, b)
  {
    hide Into, OutOf, Scaled, Handed, Taken;
    IntoSez(a, s);
    OutOfSez(b, gmat(a.gmatName, Into(NativeOf(a).turn, Scaled(KM_PER_M, s)), b.gmatName));
  }

  /** After any registrations with fresh ids, refused ones included, a conversion succeeds exactly between registered
      frames that are neither LOCAL_CARTESIAN nor PLATFORM_BODY.  Then GMAT converts between the two systems named in
      the definitions what it is handed, and the answer is what is taken of that. */
  lemma FreshRunConverts(calls: seq<Call>, gmat: Converter, s: State, from: string, to: string)
    requires FreshIds(calls)
    ensures var defs := Run(map[], calls);
      var r := Convert(RealizedRun(map[], map[], calls), defs, gmat, s, from, to);
      && (r.Ok? <==> from in defs && to in defs && Convertible(defs[from]) && Convertible(defs[to]))
      && (r.Ok? ==> Answers(r, gmat, s, defs[from], defs[to]))
  {
    hide Run, RealizedRun, FreshIds, Answers;
    FreshRunIsConsistent(calls);
    RunKindsAreKnown(map[], calls);
    ConsistentConverts(RealizedRun(map[], map[], calls), Run(map[], calls), gmat, s, from, to);
  }

  lemma ConsistentConverts(natives: Natives, defs: Defs, gmat: Converter, s: State, from: string, to: string)
    requires Consistent(natives, defs) && KnownKinds(defs)
    ensures var r := Convert(natives, defs, gmat, s, from, to);
      && (r.Ok? <==> from in defs && to in defs && Convertible(defs[from]) && Convertible(defs[to]))
      && (r.Ok? ==> Answers(r, gmat, s, defs[from], defs[to]))
  {
    hide Through, Answers;
    if Convert(natives, defs, gmat, s, from, to).Ok? {
      ThroughAnswers(gmat, s, defs[from], defs[to]);
    }
  }

  /** The refusals, in the order of the checks. */
  lemma ConvertRefuses(natives: Natives, defs: Defs, gmat: Converter, s: State, from: string, to: string)
    requires Consistent(natives, defs) && KnownKinds(defs) && Convert(natives, defs, gmat, s, from, to).Err?
    ensures match Convert(natives, defs, gmat, s, from, to).error
      case Unregistered(id) => id !in defs && (id == from || (id == to && from in defs))
      case Frameless(id) =>
        from in defs && to in defs && defs[id].axes.LocalCartesian?
        && (id == from || (id == to && !defs[from].axes.LocalCartesian?))
      case NoAttitudeService(id) =>
        from in defs && to in defs && defs[id].axes.PlatformBody?
        && !defs[from].axes.LocalCartesian? && !defs[to].axes.LocalCartesian?
        && (id == from || (id == to && !defs[from].axes.PlatformBody?))
      case NoSystem => false
  {
  }

  /** GMAT's conversions between two systems undo each other. */
  ghost predicate Inverse(gmat: Converter, a: string, b: string) {
    forall s: State :: gmat(b, gmat(a, s, b), a) == s
  }

  /** There and back is the identity, whatever turns the two frames have, if it is for GMAT. */
  lemma ThereAndBack(natives: Natives, defs: Defs, gmat: Converter, s: State, from: string, to: string)
    requires Convert(natives, defs, gmat, s, from, to).Ok?
    requires Inverse(gmat, natives[from].system.value, natives[to].system.value)
    ensures Convert(natives, defs, gmat, Convert(natives, defs, gmat, s, from, to).value, to, from) == Ok(s)
  {
    hide Into, OutOf, Scaled;
    var a, b := natives[from], natives[to];
    var x := Into(a.turn, Scaled(KM_PER_M, s));
    var y := gmat(a.system.value, x, b.system.value);
    ScalesUndoEachOther(OutOf(b.turn, y));
    TurnsUndoEachOther(b.turn, y);
    TurnsUndoEachOther(a.turn, Scaled(KM_PER_M, s));
    ScalesUndoEachOther(s);
  }

  /** GMAT's conversion through b is its direct one. */
  ghost predicate Composes(gmat: Converter, a: string, b: string, c: string) {
    forall s: State :: gmat(b, gmat(a, s, b), c) == gmat(a, s, c)
  }

  /** A conversion through a third frame is the direct one, if it is for GMAT. */
  lemma ThroughAThird(natives: Natives, defs: Defs, gmat: Converter, s: State, from: string, via: string, to: string)
    requires Convert(natives, defs, gmat, s, from, via).Ok? && Convert(natives, defs, gmat, s, from, to).Ok?
    requires Composes(gmat, natives[from].system.value, natives[via].system.value, natives[to].system.value)
    ensures Convert(natives, defs, gmat, Convert(natives, defs, gmat, s, from, via).value, via, to)
         == Convert(natives, defs, gmat, s, from, to)
  {
    hide Into, OutOf, Scaled;
    var a, b := natives[from], natives[via];
    var y := gmat(a.system.value, Into(a.turn, Scaled(KM_PER_M, s)), b.system.value);
    ScalesUndoEachOther(OutOf(b.turn, y));
    TurnsUndoEachOther(b.turn, y);
  }

  /** Between an ENU and a NED frame of one place, as GMAT sees it, (east, north, up) becomes (north, east, down). */
  lemma EnuToNed(natives: Natives, defs: Defs, gmat: Converter, s: State, from: string, to: string)
    requires Convert(natives, defs, gmat, s, from, to).Ok?
    requires natives[from].turn == EnuTurn && natives[to].turn == NedTurn
    requires forall x: State :: gmat(natives[from].system.value, x, natives[to].system.value) == x
    ensures Convert(natives, defs, gmat, s, from, to)
         == Ok(State(Vec(s.pos.y, s.pos.x, -s.pos.z), Vec(s.vel.y, s.vel.x, -s.vel.z)))
  {
  }

  // ---------------------------------------------------------------- a refused registration

  /** GMAT's conversion loses nothing. */
  ghost predicate LosesNothing(gmat: Converter, a: string, b: string) {
    forall s: State, s': State :: gmat(a, s, b) == gmat(a, s', b) ==> s == s'
  }

  /** East is north and there is no up: the states that ENU and NED read alike. */
  predicate ReadAlike(s: State) {
    s.pos.x == s.pos.y && s.pos.z == 0.0 && s.vel.x == s.vel.y && s.vel.z == 0.0
  }

  lemma TurnsAgreeIff(s: State)
    ensures Into(EnuTurn, Scaled(KM_PER_M, s)) == Into(NedTurn, Scaled(KM_PER_M, s)) <==> ReadAlike(s)
  {
  }

  lemma SameAnswer(t: Turn, s: State, s': State)
    ensures Scaled(M_PER_KM, OutOf(t, s)) == Scaled(M_PER_KM, OutOf(t, s')) <==> s == s'
  {
    hide Into, OutOf, Scaled;
    TurnsUndoEachOther(t, s);
    TurnsUndoEachOther(t, s');
    ScalesUndoEachOther(OutOf(t, s));
    ScalesUndoEachOther(OutOf(t, s'));
  }

  /** After a refused NED definition under a station's id every conversion from the station to another frame answers
      otherwise than before, except for the states that ENU and NED read alike. */
  lemma RefusedNedConverts(natives: Natives, defs: Defs, d: FrameDef, parent: string, g: Gmat, gmat: Converter,
                           s: State, to: string)
    requires Consistent(natives, defs) && d.id in defs && defs[d.id] == d && d.axes.ENU? && d.geodetic.Some?
    requires d.gmatName == "gv_topo_" + SafeName(d.id) && d.geodetic.value != "" && forall c :: g.builds(c)
    requires Find(defs, Need(BodyFixed, d.geodetic.value)) == Some(d.parent) && parent != "" && parent != d.parent
    requires Convert(natives, defs, gmat, s, d.id, to).Ok? && to != d.id
    requires LosesNothing(gmat, natives[d.id].system.value, natives[to].system.value)
    ensures var ned := d.(axes := NED, parent := parent);
      && Registered(defs, ned, g).1.Err?
      && (Convert(Realized(natives, defs, ned, g), Registered(defs, ned, g).0, gmat, s, d.id, to)
            == Convert(natives, defs, gmat, s, d.id, to)
          <==> ReadAlike(s))
  {
    hide Into, OutOf, Scaled, Registered, Realized, Find;
    RefusedNedTurnsStation(natives, defs, d, parent, g);
    var a, b := natives[d.id], natives[to];
    var x, y := Into(EnuTurn, Scaled(KM_PER_M, s)), Into(NedTurn, Scaled(KM_PER_M, s));
    TurnsAgreeIff(s);
    SameAnswer(b.turn, gmat(a.system.value, x, b.system.value), gmat(a.system.value, y, b.system.value));
  }
}
