/** `trajectory_to_cdm` and `cdm_trajectory_to_viewer_json` of altavista/cdm.py, over the reals. */
module TrajectoryCdm {
  import opened Base
  import opened Ordering
  import opened Epoch

  const M_PER_KM := 1000.0

  // ---------------------------------------------------------------- trajectories

  datatype Triple = Triple(x: real, y: real, z: real)

  datatype Quaternion = Quaternion(x: real, y: real, z: real, w: real)

  /** The viewer's trajectory: km, km/s, A1MJD. */
  datatype Track = Track(name: string, t: seq<real>, pos: seq<Triple>, vel: seq<Triple>, model: Option<string>,
                         attitude: seq<Quaternion>, cov: seq<seq<real>>, covDim: nat)

  datatype Interpolation = Unspecified | HermiteVelocity | OtherInterpolation

  /** The four ids with a declared state space, and all the others. */
  datatype SpaceId = CartesianPosVel6 | CartesianPosVel6Quat4 | GmatCartesian6 | ControllerScalar6
    | Undeclared(id: string)

  datatype Unit = Meter | MeterPerSecond | Dimensionless

  datatype Label = PosX | PosY | PosZ | VelX | VelY | VelZ | QX | QY | QZ | QW | StateOf(index: nat)

  datatype Component = Component(quantity: Label, unit: Unit)

  datatype Sample = Sample(tai: int, mean: seq<real>, cov: seq<real>)

  datatype Segment = Segment(start: int, end: int)

  /** The CDM trajectory: m, m/s, TAI ns. */
  datatype Cdm = Cdm(id: string, entityId: string, space: SpaceId, frameId: string, interpolation: Interpolation,
                     modelUri: string, samples: seq<Sample>, segment: Option<Segment>)

  datatype CdmError =
    | BadModel
    | AttitudeNotParallel
    | BadInterpolation
    | ShortMean(tai: int)
    | BadCovLength(tai: int)
    | CovNotSixBySix(tai: int)
    | CovDimChanged(tai: int)
    | PartialAttitude
    | PartialCov

  // ---------------------------------------------------------------- state spaces

  const POSITION_VELOCITY := [Component(PosX, Meter), Component(PosY, Meter), Component(PosZ, Meter),
                              Component(VelX, MeterPerSecond), Component(VelY, MeterPerSecond),
                              Component(VelZ, MeterPerSecond)]

  const ATTITUDE := [Component(QX, Dimensionless), Component(QY, Dimensionless), Component(QZ, Dimensionless),
                     Component(QW, Dimensionless)]

  const SCALARS := [Component(StateOf(1), Dimensionless), Component(StateOf(2), Dimensionless),
                    Component(StateOf(3), Dimensionless), Component(StateOf(4), Dimensionless),
                    Component(StateOf(5), Dimensionless), Component(StateOf(6), Dimensionless)]

  /** `state_space_for`; None is UnknownStateSpaceError. */
  function StateSpaceFor(id: SpaceId): Option<seq<Component>> {
    match id
    case CartesianPosVel6 => Some(POSITION_VELOCITY)
    case CartesianPosVel6Quat4 => Some(POSITION_VELOCITY + ATTITUDE)
    case GmatCartesian6 => Some(POSITION_VELOCITY)
    case ControllerScalar6 => Some(SCALARS)
    case Undeclared(_) => None
  }

  predicate HasPositionClass(space: seq<Component>) {
    |space| >= 6 && space[..6] == POSITION_VELOCITY
  }

  /** A declared space without positions: nothing to draw. */
  predicate NotDrawn(id: SpaceId) {
    StateSpaceFor(id).Some? && !HasPositionClass(StateSpaceFor(id).value)
  }

  lemma OnlyTheControllerIsNotDrawn(id: SpaceId)
    ensures NotDrawn(id) <==> id.ControllerScalar6?
  {
    assert POSITION_VELOCITY[..6] == POSITION_VELOCITY;
    assert (POSITION_VELOCITY + ATTITUDE)[..6] == POSITION_VELOCITY;
    assert SCALARS[..6][0].unit != POSITION_VELOCITY[0].unit;
  }

  /** check_model_ref on a string; `space` is str.strip's idea of white space. */
  predicate ModelOk(model: string, space: char -> bool) {
    exists i :: 0 <= i < |model| && !space(model[i])
  }

  /** Every character is white space. */
  predicate Blank(model: string, space: char -> bool) {
    forall i :: 0 <= i < |model| ==> space(model[i])
  }

  // ---------------------------------------------------------------- to the CDM

  datatype Row = Row(t: real, pos: Triple, vel: Triple, quat: Option<Quaternion>)

  function TimeOf(r: Row): real { r.t }

  predicate RealLeq(x: real, y: real) { x <= y }

  function Min(a: nat, b: nat): nat { if a <= b then a else b }

  predicate HasAttitude(tr: Track) {
    tr.attitude != [] && |tr.attitude| == |tr.t|
  }

  /** zip(t, pos, vel, attitude or Nones) */
  function Rows(tr: Track): seq<Row> {
    seq(Min(|tr.t|, Min(|tr.pos|, |tr.vel|)), i requires 0 <= i < Min(|tr.t|, Min(|tr.pos|, |tr.vel|)) =>
      Row(tr.t[i], tr.pos[i], tr.vel[i], if HasAttitude(tr) then Some(tr.attitude[i]) else None))
  }

  function SortedRows(tr: Track): seq<Row> {
    Sort(Rows(tr), TimeOf, RealLeq)
  }

  function SampleOf(r: Row): Sample {
    Sample(FromA1Mjd(r.t, Exactly),
           [r.pos.x * M_PER_KM, r.pos.y * M_PER_KM, r.pos.z * M_PER_KM,
            r.vel.x * M_PER_KM, r.vel.y * M_PER_KM, r.vel.z * M_PER_KM]
           + (if r.quat.Some? then [r.quat.value.x, r.quat.value.y, r.quat.value.z, r.quat.value.w] else []),
           [])
  }

  function SamplesOf(rows: seq<Row>): seq<Sample> {
    seq(|rows|, i requires 0 <= i < |rows| => SampleOf(rows[i]))
  }

  datatype Names = Names(trajectoryId: string, entityId: string, frameId: string, space: SpaceId)

  predicate Convertible(tr: Track, white: char -> bool) {
    (tr.model.Some? ==> ModelOk(tr.model.value, white)) && (tr.attitude == [] || |tr.attitude| == |tr.t|)
  }

  function Converted(tr: Track, n: Names): Cdm {
    var samples := SamplesOf(SortedRows(tr));
    Cdm(if n.trajectoryId != "" then n.trajectoryId else tr.name,
        n.entityId,
        if HasAttitude(tr) && n.space.CartesianPosVel6? then CartesianPosVel6Quat4 else n.space,
        n.frameId,
        HermiteVelocity,
        if tr.model.Some? then tr.model.value else "",
        samples,
        if samples == [] then None else Some(Segment(samples[0].tai, samples[|samples| - 1].tai)))
  }

  lemma BlankIff(model: string, space: char -> bool)
    ensures ModelOk(model, space) <==> !Blank(model, space)
  {
  }

  method TrajectoryToCdm(tr: Track, n: Names, white: char -> bool) returns (r: Result<Cdm, CdmError>)
    ensures r.Ok? <==> Convertible(tr, white)
    ensures r.Err? ==> r.error in {BadModel, AttitudeNotParallel}
    ensures r.Err? && r.error.BadModel? <==>
      tr.model.Some? && Blank(tr.model.value, white)
    ensures r.Ok? ==> r.value == Converted(tr, n)
  {
    hide FromA1Mjd, Sort, ModelOk, Blank;
    if tr.model.Some? {
      BlankIff(tr.model.value, white);
    }
    if tr.model.Some? && !ModelOk(tr.model.value, white) {
      return Err(BadModel);
    }
    var hasAttitude := tr.attitude != [] && |tr.attitude| == |tr.t|;
    if tr.attitude != [] && !hasAttitude {
      return Err(AttitudeNotParallel);
    }
    var space := if hasAttitude && n.space.CartesianPosVel6? then CartesianPosVel6Quat4 else n.space;
    var rows := SortedRows(tr);
    var samples: seq<Sample> := [];
    var i := 0;
    while i < |rows|
      invariant 0 <= i <= |rows| && |samples| == i
      invariant forall k :: 0 <= k < i ==> samples[k] == SampleOf(rows[k])
    {
      var row := rows[i];
      var mean := [row.pos.x * M_PER_KM, row.pos.y * M_PER_KM, row.pos.z * M_PER_KM,
                   row.vel.x * M_PER_KM, row.vel.y * M_PER_KM, row.vel.z * M_PER_KM];
      if row.quat.Some? {
        mean := mean + [row.quat.value.x, row.quat.value.y, row.quat.value.z, row.quat.value.w];
      }
      samples := samples + [Sample(FromA1Mjd(row.t, Exactly), mean, [])];
      i := i + 1;
    }
    assert samples == SamplesOf(rows);
    var segment := None;
    if rows != [] {
      segment := Some(Segment(samples[0].tai, samples[|samples| - 1].tai));
    }
    r := Ok(Cdm(if n.trajectoryId != "" then n.trajectoryId else tr.name, n.entityId, space, n.frameId, HermiteVelocity,
                if tr.model.Some? then tr.model.value else "", samples, segment));
  }

  // ---------------------------------------------------------------- to the viewer

  function TaiOf(s: Sample): int { s.tai }

  predicate IntLeq(x: int, y: int) { x <= y }

  function SortedSamples(c: Cdm): seq<Sample> {
    Sort(c.samples, TaiOf, IntLeq)
  }

  /** _COV_LEN_TO_N */
  function CovDim(length: nat): Option<nat> {
    if length == 36 then Some(6) else if length == 9 then Some(3) else None
  }

  function PosOf(s: Sample): Triple
    requires |s.mean| >= 6
  {
    Triple(s.mean[0] / M_PER_KM, s.mean[1] / M_PER_KM, s.mean[2] / M_PER_KM)
  }

  function VelOf(s: Sample): Triple
    requires |s.mean| >= 6
  {
    Triple(s.mean[3] / M_PER_KM, s.mean[4] / M_PER_KM, s.mean[5] / M_PER_KM)
  }

  function QuatOf(s: Sample): Quaternion
    requires |s.mean| >= 10
  {
    Quaternion(s.mean[6], s.mean[7], s.mean[8], s.mean[9])
  }

  function CovOf(s: Sample): seq<real> {
    seq(|s.cov|, i requires 0 <= i < |s.cov| => s.cov[i] / (M_PER_KM * M_PER_KM))
  }

  /** Positions everywhere. */
  ghost predicate MeansOk(ss: seq<Sample>) {
    forall s :: s in ss ==> |s.mean| >= 6
  }

  ghost predicate AllAttitude(ss: seq<Sample>) {
    forall i :: 0 <= i < |ss| ==> |ss[i].mean| >= 10
  }

  ghost predicate NoAttitude(ss: seq<Sample>) {
    forall i :: 0 <= i < |ss| ==> |ss[i].mean| < 10
  }

  ghost predicate AllCov(ss: seq<Sample>) {
    forall i :: 0 <= i < |ss| ==> ss[i].cov != []
  }

  ghost predicate NoCov(ss: seq<Sample>) {
    forall i :: 0 <= i < |ss| ==> ss[i].cov == []
  }

  /** Every covariance there is has one of the two sizes, the same everywhere, and 6x6 in a declared space. */
  ghost predicate CovsOk(ss: seq<Sample>, declared: bool) {
    && (forall i :: 0 <= i < |ss| && ss[i].cov != [] ==> |ss[i].cov| in {9, 36})
    && (forall i :: 0 <= i < |ss| && ss[i].cov != [] && declared ==> |ss[i].cov| == 36)
    && (forall i, j :: 0 <= i < j < |ss| && ss[i].cov != [] && ss[j].cov != [] ==> |ss[i].cov| == |ss[j].cov|)
  }

  /** What the viewer accepts. */
  ghost predicate SamplesOk(ss: seq<Sample>, declared: bool) {
    MeansOk(ss) && (AllAttitude(ss) || NoAttitude(ss)) && (AllCov(ss) || NoCov(ss)) && CovsOk(ss, declared)
  }

  ghost predicate Acceptable(c: Cdm, white: char -> bool) {
    && !c.interpolation.OtherInterpolation?
    && (NotDrawn(c.space) ||
        ((c.modelUri == "" || ModelOk(c.modelUri, white)) && SamplesOk(SortedSamples(c), StateSpaceFor(c.space).Some?)))
  }

  function NameFor(c: Cdm, name: string): string {
    if name != "" then name else if c.entityId != "" then c.entityId else if c.id != "" then c.id else "cdm_trajectory"
  }

  /** tr shows the samples, in their order. */
  ghost predicate Shows(tr: Track, ss: seq<Sample>)
    requires MeansOk(ss)
  {
    && |tr.t| == |tr.pos| == |tr.vel| == |ss|
    && (forall i :: 0 <= i < |ss| ==>
          tr.t[i] == ToA1Mjd(ss[i].tai, Exactly) && tr.pos[i] == PosOf(ss[i]) && tr.vel[i] == VelOf(ss[i]))
    && (if ss != [] && AllAttitude(ss) then
          |tr.attitude| == |ss| && forall i :: 0 <= i < |ss| ==> tr.attitude[i] == QuatOf(ss[i])
        else tr.attitude == [])
    && (if ss != [] && AllCov(ss) then
          |tr.cov| == |ss| && (forall i :: 0 <= i < |ss| ==>
            tr.cov[i] == CovOf(ss[i]) && |ss[i].cov| == tr.covDim * tr.covDim)
        else tr.cov == [] && tr.covDim == 0)
  }

  /** Attitude of the samples seen so far. */
  ghost predicate AttitudeSoFar(ss: seq<Sample>, i: nat, attitude: seq<Quaternion>)
    requires i <= |ss|
  {
    && |attitude| <= i
    && (|attitude| == i <==> AllAttitude(ss[..i])) && (attitude == [] <==> NoAttitude(ss[..i]))
    && (AllAttitude(ss[..i]) ==> forall k :: 0 <= k < i ==> |ss[k].mean| >= 10 && attitude[k] == QuatOf(ss[k]))
  }

  /** Covariances of the samples seen so far. */
  ghost predicate CovSoFar(ss: seq<Sample>, i: nat, declared: bool, cov: seq<seq<real>>, n: nat, dim: nat)
    requires i <= |ss|
  {
    && |cov| == i && n <= i
    && (forall k :: 0 <= k < i ==> cov[k] == CovOf(ss[k]))
    && (n == i <==> AllCov(ss[..i])) && (n == 0 <==> NoCov(ss[..i]))
    && (n == 0 <==> dim == 0)
    && (forall k :: 0 <= k < i && ss[k].cov != [] ==> |ss[k].cov| == dim * dim)
    && CovsOk(ss[..i], declared)
  }

  /** The samples' epochs, positions and velocities seen so far. */
  ghost predicate StatesSoFar(ss: seq<Sample>, i: nat, t: seq<real>, pos: seq<Triple>, vel: seq<Triple>)
    requires i <= |ss|
  {
    && |t| == |pos| == |vel| == i && MeansOk(ss[..i])
    && forall k :: 0 <= k < i ==>
         |ss[k].mean| >= 6 && t[k] == ToA1Mjd(ss[k].tai, Exactly) && pos[k] == PosOf(ss[k]) && vel[k] == VelOf(ss[k])
  }

  lemma StatesNext(ss: seq<Sample>, i: nat, t: seq<real>, pos: seq<Triple>, vel: seq<Triple>)
    requires i < |ss| && StatesSoFar(ss, i, t, pos, vel) && |ss[i].mean| >= 6
    ensures StatesSoFar(ss, i + 1, t + [ToA1Mjd(ss[i].tai, Exactly)], pos + [PosOf(ss[i])], vel + [VelOf(ss[i])])
  {
    assert ss[..i + 1] == ss[..i] + [ss[i]];
  }

  lemma AttitudeNext(ss: seq<Sample>, i: nat, attitude: seq<Quaternion>)
    requires i < |ss| && AttitudeSoFar(ss, i, attitude)
    ensures AttitudeSoFar(ss, i + 1, if |ss[i].mean| >= 10 then attitude + [QuatOf(ss[i])] else attitude)
  {
    assert ss[..i + 1] == ss[..i] + [ss[i]];
    assert AllAttitude(ss[..i + 1]) <==> AllAttitude(ss[..i]) && |ss[i].mean| >= 10;
    assert NoAttitude(ss[..i + 1]) <==> NoAttitude(ss[..i]) && |ss[i].mean| < 10;
  }

  lemma NoCovNext(ss: seq<Sample>, i: nat, declared: bool, cov: seq<seq<real>>, n: nat, dim: nat)
    requires i < |ss| && CovSoFar(ss, i, declared, cov, n, dim) && ss[i].cov == []
    ensures CovSoFar(ss, i + 1, declared, cov + [[]], n, dim)
  {
    assert ss[..i + 1] == ss[..i] + [ss[i]];
    assert AllCov(ss[..i + 1]) <==> AllCov(ss[..i]) && ss[i].cov != [];
    assert NoCov(ss[..i + 1]) <==> NoCov(ss[..i]) && ss[i].cov == [];
    assert CovOf(ss[i]) == [];
  }

  lemma SomeCovNext(ss: seq<Sample>, i: nat, declared: bool, cov: seq<seq<real>>, n: nat, dim: nat, d: nat)
    requires i < |ss| && CovSoFar(ss, i, declared, cov, n, dim) && ss[i].cov != []
    requires CovDim(|ss[i].cov|) == Some(d) && (dim == 0 || dim == d) && (declared ==> d == 6)
    ensures CovSoFar(ss, i + 1, declared, cov + [CovOf(ss[i])], n + 1, d)
  {
    assert ss[..i + 1] == ss[..i] + [ss[i]];
    assert AllCov(ss[..i + 1]) <==> AllCov(ss[..i]) && ss[i].cov != [];
    assert NoCov(ss[..i + 1]) <==> NoCov(ss[..i]) && ss[i].cov == [];
    assert d * d == |ss[i].cov|;
  }

  lemma DimChanged(ss: seq<Sample>, i: nat, declared: bool, cov: seq<seq<real>>, n: nat, dim: nat, d: nat)
    requires i < |ss| && CovSoFar(ss, i, declared, cov, n, dim) && ss[i].cov != []
    requires CovDim(|ss[i].cov|) == Some(d) && dim != 0 && dim != d
    ensures !CovsOk(ss, declared)
    ensures Reported(ss, declared, CovDimChanged(ss[i].tai))
  {
    assert !NoCov(ss[..i]);
    var k :| 0 <= k < i && ss[..i][k].cov != [];
    assert |ss[k].cov| == dim * dim && |ss[i].cov| == d * d;
    assert (dim == 3 || dim == 6) && (d == 3 || d == 6) by {
      assert CovDim(|ss[..i][k].cov|).Some?;
      DimOf(dim, |ss[k].cov|);
    }
  }

  lemma DimOf(dim: nat, length: nat)
    requires dim * dim == length && CovDim(length).Some?
    ensures dim == CovDim(length).value
  {
    assert dim <= 2 ==> dim * dim <= 4;
    assert dim >= 7 ==> dim * dim >= 49;
  }

  /** The error names something wrong with the samples. */
  ghost predicate Reported(ss: seq<Sample>, declared: bool, e: CdmError) {
    match e
    case ShortMean(tai) => exists s :: s in ss && s.tai == tai && |s.mean| < 6
    case BadCovLength(tai) => exists s :: s in ss && s.tai == tai && |s.cov| !in {0, 9, 36}
    case CovNotSixBySix(tai) => declared && exists s :: s in ss && s.tai == tai && |s.cov| == 9
    case CovDimChanged(tai) =>
      exists i, j ::
        0 <= i < j < |ss| && ss[j].tai == tai && ss[i].cov != [] && ss[j].cov != [] && |ss[i].cov| != |ss[j].cov|
    case PartialAttitude =>
      (exists s :: s in ss && |s.mean| >= 10) && exists s :: s in ss && |s.mean| < 10
    case PartialCov => (exists s :: s in ss && s.cov != []) && exists s :: s in ss && s.cov == []
    case _ => false
  }

  lemma ReportedAt(ss: seq<Sample>, declared: bool, i: nat)
    requires i < |ss|
    ensures |ss[i].mean| < 6 ==> Reported(ss, declared, ShortMean(ss[i].tai))
    ensures ss[i].cov != [] && CovDim(|ss[i].cov|).None? ==> Reported(ss, declared, BadCovLength(ss[i].tai))
    ensures declared && CovDim(|ss[i].cov|) == Some(3) ==> Reported(ss, declared, CovNotSixBySix(ss[i].tai))
  {
    assert ss[i] in ss;
  }

  lemma PartReported(ss: seq<Sample>, declared: bool)
    ensures !AllAttitude(ss) && !NoAttitude(ss) ==> Reported(ss, declared, PartialAttitude)
    ensures !AllCov(ss) && !NoCov(ss) ==> Reported(ss, declared, PartialCov)
  {
  }

  /** The pass over the sorted samples. */
  method ReadSamples(ss: seq<Sample>, declared: bool, name: string, model: Option<string>)
    returns (r: Result<Track, CdmError>)
    ensures r.Ok? <==> SamplesOk(ss, declared)
    ensures r.Err? ==> Reported(ss, declared, r.error)
    ensures r.Ok? ==> r.value.name == name && r.value.model == model && Shows(r.value, ss)
  {
    hide StatesSoFar, AttitudeSoFar, CovSoFar, CovsOk, Shows, Reported;
    var t: seq<real>, pos: seq<Triple>, vel: seq<Triple> := [], [], [];
    var attitude: seq<Quaternion>, cov: seq<seq<real>> := [], [];
    var withAttitude, withCov, covDim := 0, 0, 0;
    NothingSoFar(ss, declared);
    var i := 0;
    while i < |ss|
      invariant 0 <= i <= |ss| && 0 <= withAttitude && 0 <= withCov && 0 <= covDim
      invariant StatesSoFar(ss, i, t, pos, vel)
      invariant AttitudeSoFar(ss, i, attitude) && withAttitude == |attitude|
      invariant CovSoFar(ss, i, declared, cov, withCov, covDim)
    {
      var s := ss[i];
      ReportedAt(ss, declared, i);
      if |s.mean| < 6 {
        return Err(ShortMean(s.tai));
      }
      StatesNext(ss, i, t, pos, vel);
      AttitudeNext(ss, i, attitude);
      t, pos, vel := t + [ToA1Mjd(s.tai, Exactly)], pos + [PosOf(s)], vel + [VelOf(s)];
      if |s.mean| >= 10 {
        attitude := attitude + [QuatOf(s)];
        withAttitude := withAttitude + 1;
      }
      if |s.cov| > 0 {
        var n := CovDim(|s.cov|);
        if n.None? {
          BadCov(ss, i, declared);
          return Err(BadCovLength(s.tai));
        }
        if declared && n.value != 6 {
          BadCov(ss, i, declared);
          return Err(CovNotSixBySix(s.tai));
        }
        if covDim != 0 && covDim != n.value {
          DimChanged(ss, i, declared, cov, withCov, covDim, n.value);
          return Err(CovDimChanged(s.tai));
        }
        SomeCovNext(ss, i, declared, cov, withCov, covDim, n.value);
        covDim := n.value;
        cov := cov + [CovOf(s)];
        withCov := withCov + 1;
      } else {
        NoCovNext(ss, i, declared, cov, withCov, covDim);
        cov := cov + [[]];
      }
      i := i + 1;
    }
    AllRead(ss, declared, t, pos, vel, attitude, cov, withCov, covDim);
    PartReported(ss, declared);
    if withAttitude != 0 && withAttitude != |ss| {
      return Err(PartialAttitude);
    }
    if withCov != 0 && withCov != |ss| {
      return Err(PartialCov);
    }
    AllShown(ss, declared, t, pos, vel, attitude, cov, withCov, covDim);
    if withCov == 0 {
      cov := [];
    }
    r := Ok(Track(name, t, pos, vel, model, attitude, cov, covDim));
    SameShown(ss, r.value, Track("", t, pos, vel, None, attitude, cov, covDim));
  }

  lemma NothingSoFar(ss: seq<Sample>, declared: bool)
    ensures StatesSoFar(ss, 0, [], [], []) && AttitudeSoFar(ss, 0, []) && CovSoFar(ss, 0, declared, [], 0, 0)
  {
  }

  lemma BadCov(ss: seq<Sample>, i: nat, declared: bool)
    requires i < |ss| && ss[i].cov != []
    requires CovDim(|ss[i].cov|).None? || (declared && CovDim(|ss[i].cov|).value != 6)
    ensures !CovsOk(ss, declared)
  {
  }

  /** What the counts say once every sample was read. */
  lemma AllRead(ss: seq<Sample>, declared: bool, t: seq<real>, pos: seq<Triple>, vel: seq<Triple>,
                attitude: seq<Quaternion>, cov: seq<seq<real>>, n: nat, dim: nat)
    requires StatesSoFar(ss, |ss|, t, pos, vel) && AttitudeSoFar(ss, |ss|, attitude)
    requires CovSoFar(ss, |ss|, declared, cov, n, dim)
    ensures MeansOk(ss) && CovsOk(ss, declared)
    ensures (|attitude| == |ss| <==> AllAttitude(ss)) && (|attitude| == 0 <==> NoAttitude(ss))
    ensures (n == |ss| <==> AllCov(ss)) && (n == 0 <==> NoCov(ss))
  {
    assert ss[..|ss|] == ss;
  }

  lemma AllShown(ss: seq<Sample>, declared: bool, t: seq<real>, pos: seq<Triple>, vel: seq<Triple>,
                 attitude: seq<Quaternion>, cov: seq<seq<real>>, n: nat, dim: nat)
    requires StatesSoFar(ss, |ss|, t, pos, vel) && AttitudeSoFar(ss, |ss|, attitude)
    requires CovSoFar(ss, |ss|, declared, cov, n, dim)
    requires (attitude == [] || |attitude| == |ss|) && (n == 0 || n == |ss|) && MeansOk(ss)
    ensures Shows(Track("", t, pos, vel, None, attitude, if n == 0 then [] else cov, dim), ss)
  {
    assert ss[..|ss|] == ss;
  }

  lemma SameShown(ss: seq<Sample>, a: Track, b: Track)
    requires MeansOk(ss) && Shows(b, ss)
    requires a.t == b.t && a.pos == b.pos && a.vel == b.vel && a.attitude == b.attitude && a.cov == b.cov
      && a.covDim == b.covDim
    ensures Shows(a, ss)
  {
  }

  /** tr is what the viewer shows of c. */
  ghost predicate ViewOf(tr: Track, c: Cdm, name: string) {
    && tr.name == NameFor(c, name) && tr.model == (if c.modelUri == "" then None else Some(c.modelUri))
    && MeansOk(SortedSamples(c)) && Shows(tr, SortedSamples(c))
  }

  /** None is a trajectory with no positions to draw; `name` is "" when the caller gives none. */
  method CdmTrajectoryToViewer(c: Cdm, name: string, white: char -> bool) returns (r: Result<Option<Track>, CdmError>)
    ensures r.Ok? <==> Acceptable(c, white)
    ensures r.Err? && r.error.BadInterpolation? <==> c.interpolation.OtherInterpolation?
    ensures r.Err? && r.error.BadModel? ==> c.modelUri != "" && Blank(c.modelUri, white)
    ensures r.Err? && !r.error.BadInterpolation? && !r.error.BadModel? ==>
      Reported(SortedSamples(c), StateSpaceFor(c.space).Some?, r.error)
    ensures r.Ok? && r.value.None? <==> Acceptable(c, white) && NotDrawn(c.space)
    ensures r.Ok? && r.value.Some? ==> ViewOf(r.value.value, c, name)
  {
    hide Shows, CovsOk;
    if c.interpolation.OtherInterpolation? {
      return Err(BadInterpolation);
    }
    var space := StateSpaceFor(c.space);
    if space.Some? && !HasPositionClass(space.value) {
      return Ok(None);
    }
    var model := if c.modelUri == "" then None else Some(c.modelUri);
    if model.Some? && !ModelOk(model.value, white) {
      return Err(BadModel);
    }
    var read := ReadSamples(SortedSamples(c), space.Some?, NameFor(c, name), model);
    if read.Err? {
      return Err(read.error);
    }
    r := Ok(Some(read.value));
  }

  // ---------------------------------------------------------------- what the viewer may rely on

  ghost predicate InKm(p: Triple, x: real, y: real, z: real) {
    p.x * 1000.0 == x && p.y * 1000.0 == y && p.z * 1000.0 == z
  }

  /** What is shown of a CDM trajectory: sample for sample, in epoch order, positions in km and velocities in km/s of
      components 1 to 6, quaternions of components 7 to 10, and covariances in the squares of these units. */
  lemma ShownInUnits(tr: Track, c: Cdm, name: string)
    requires ViewOf(tr, c, name)
    ensures var ss := SortedSamples(c);
      && |tr.t| == |tr.pos| == |tr.vel| == |ss|
      && (forall i :: 0 <= i < |ss| ==>
            && |ss[i].mean| >= 6 && tr.t[i] == ToA1Mjd(ss[i].tai, Exactly)
            && InKm(tr.pos[i], ss[i].mean[0], ss[i].mean[1], ss[i].mean[2])
            && InKm(tr.vel[i], ss[i].mean[3], ss[i].mean[4], ss[i].mean[5]))
      && (forall i :: 0 <= i < |tr.attitude| ==>
            && i < |ss| && |ss[i].mean| >= 10
            && tr.attitude[i] == Quaternion(ss[i].mean[6], ss[i].mean[7], ss[i].mean[8], ss[i].mean[9]))
      && (forall i :: 0 <= i < |tr.cov| ==>
            && i < |ss| && |tr.cov[i]| == |ss[i].cov|
            && forall k :: 0 <= k < |ss[i].cov| ==> tr.cov[i][k] * 1000000.0 == ss[i].cov[k])
  {
    var ss := SortedSamples(c);
    forall i | 0 <= i < |ss|
      ensures InKm(tr.pos[i], ss[i].mean[0], ss[i].mean[1], ss[i].mean[2])
      ensures InKm(tr.vel[i], ss[i].mean[3], ss[i].mean[4], ss[i].mean[5])
    {
      assert tr.pos[i] == PosOf(ss[i]) && tr.vel[i] == VelOf(ss[i]);
    }
    forall i | 0 <= i < |tr.cov|
      ensures i < |ss| && |tr.cov[i]| == |ss[i].cov|
      ensures forall k :: 0 <= k < |ss[i].cov| ==> tr.cov[i][k] * 1000000.0 == ss[i].cov[k]
    {
      assert tr.cov[i] == CovOf(ss[i]);
    }
  }

  /** Component k of what is shown of a sample, in km and km/s. */
  function Shown(tr: Track, i: nat, k: nat): real
    requires i < |tr.pos| && i < |tr.vel| && k < 6
  {
    match k
    case 0 => tr.pos[i].x
    case 1 => tr.pos[i].y
    case 2 => tr.pos[i].z
    case 3 => tr.vel[i].x
    case 4 => tr.vel[i].y
    case _ => tr.vel[i].z
  }

  lemma ProductInKm(x: real, y: real, a: real, b: real, p: real, q: real)
    requires x * 1000.0 == a && y * 1000.0 == b && p * 1000000.0 == q && q == a * b
    ensures p == x * y
  {
    assert a * b == x * y * 1000000.0;
  }

  lemma ShownAt(tr: Track, c: Cdm, name: string, i: nat, k: nat)
    requires ViewOf(tr, c, name) && i < |SortedSamples(c)| && k < 6
    ensures |tr.pos| == |tr.vel| == |SortedSamples(c)| && |SortedSamples(c)[i].mean| >= 6
    ensures Shown(tr, i, k) * 1000.0 == SortedSamples(c)[i].mean[k]
  {
    hide ViewOf;
    ShownInUnits(tr, c, name);
  }

  lemma CovarianceSize(tr: Track, c: Cdm, name: string, i: nat)
    requires ViewOf(tr, c, name) && i < |tr.cov|
    ensures i < |SortedSamples(c)| && |SortedSamples(c)[i].cov| == tr.covDim * tr.covDim == |tr.cov[i]|
  {
    assert tr.cov[i] == CovOf(SortedSamples(c)[i]);
  }

  /** Covariances have the units of the states shown: an entry of a 6x6 covariance that is a product of two components
      is shown as the product of those shown. */
  lemma CovarianceFitsState(tr: Track, c: Cdm, name: string, i: nat, a: nat, b: nat)
    requires ViewOf(tr, c, name) && i < |tr.cov| && tr.covDim == 6 && a < 6 && b < 6
    ensures i < |SortedSamples(c)| && i < |tr.pos| && i < |tr.vel|
    ensures var s := SortedSamples(c)[i];
      |s.mean| >= 6 && |s.cov| == |tr.cov[i]| == 36
      && (s.cov[6 * a + b] == s.mean[a] * s.mean[b] ==> tr.cov[i][6 * a + b] == Shown(tr, i, a) * Shown(tr, i, b))
  {
    hide ViewOf, Shown, InKm, SortedSamples;
    CovarianceSize(tr, c, name, i);
    ShownInUnits(tr, c, name);
    ShownAt(tr, c, name, i, a);
    ShownAt(tr, c, name, i, b);
    var s := SortedSamples(c)[i];
    if s.cov[6 * a + b] == s.mean[a] * s.mean[b] {
      ProductInKm(Shown(tr, i, a), Shown(tr, i, b), s.mean[a], s.mean[b], tr.cov[i][6 * a + b], s.cov[6 * a + b]);
    }
  }

  /** The name shown is the caller's, or else the entity, or else the trajectory's id, or else a fixed one; the model is
      the declared one, if any. */
  lemma ShownAs(tr: Track, c: Cdm, name: string)
    requires ViewOf(tr, c, name)
    ensures tr.name != "" && tr.name in {name, c.entityId, c.id, "cdm_trajectory"}
    ensures name != "" ==> tr.name == name
    ensures name == "" && c.entityId != "" ==> tr.name == c.entityId
    ensures name == "" && c.entityId == "" && c.id != "" ==> tr.name == c.id
    ensures tr.model.None? <==> c.modelUri == ""
    ensures tr.model.Some? ==> tr.model.value == c.modelUri
  {
  }

  /** Whatever is accepted has attitude empty or one per sample, and covariances empty or one of 3x3 or 6x6
      entries per sample. */
  lemma ShownShapes(tr: Track, ss: seq<Sample>, declared: bool)
    requires SamplesOk(ss, declared) && Shows(tr, ss)
    ensures |tr.pos| == |tr.t| && |tr.vel| == |tr.t|
    ensures tr.attitude == [] || |tr.attitude| == |tr.t|
    ensures tr.cov == [] || (|tr.cov| == |tr.t| && (tr.covDim == 3 || tr.covDim == 6)
                             && forall i :: 0 <= i < |tr.cov| ==> |tr.cov[i]| == tr.covDim * tr.covDim)
    ensures tr.cov != [] && declared ==> tr.covDim == 6
  {
    if tr.cov != [] {
      DimOf(tr.covDim, |ss[0].cov|);
    }
  }

  // ---------------------------------------------------------------- the round trip

  lemma RealOrder()
    ensures TotalOrder(RealLeq)
  {
  }

  lemma IntOrder()
    ensures TotalOrder(IntLeq)
  {
  }

  lemma SampleBack(r: Row)
    ensures |SampleOf(r).mean| == (if r.quat.Some? then 10 else 6)
    ensures PosOf(SampleOf(r)) == r.pos && VelOf(SampleOf(r)) == r.vel
    ensures r.quat.Some? ==> QuatOf(SampleOf(r)) == r.quat.value
    ensures SampleOf(r).cov == []
  {
    assert (r.pos.x * M_PER_KM) / M_PER_KM == r.pos.x;
  }

  lemma TaiInOrder(rows: seq<Row>, i: nat, j: nat)
    requires Ordered(rows, TimeOf, RealLeq) && i <= j < |rows|
    ensures SamplesOf(rows)[i].tai <= SamplesOf(rows)[j].tai
  {
    hide FromA1Mjd;
    assert i == j || RealLeq(TimeOf(rows[i]), TimeOf(rows[j]));
    ExactIsRounding();
    FromA1MjdMonotone(rows[i].t, rows[j].t, Exactly);
  }

  /** Samples of rows in time order are in epoch order already. */
  lemma SamplesInOrder(rows: seq<Row>)
    requires Ordered(rows, TimeOf, RealLeq)
    ensures Sort(SamplesOf(rows), TaiOf, IntLeq) == SamplesOf(rows)
  {
    var ss := SamplesOf(rows);
    forall i, j | 0 <= i < j < |ss| ensures IntLeq(TaiOf(ss[i]), TaiOf(ss[j])) {
      TaiInOrder(rows, i, j);
    }
    IntOrder();
    SortIsStable(ss, TaiOf, IntLeq);
    OrderedStableUnique(Sort(ss, TaiOf, IntLeq), ss, TaiOf, IntLeq);
  }

  lemma ExactIsRounding()
    ensures Rounding(Exactly)
  {
  }

  /** a is b in the viewer's units after the trip: epochs within half a nanosecond, all else equal. */
  ghost predicate Recovered(tr: Track, rows: seq<Row>, attitude: bool) {
    && |tr.t| == |tr.pos| == |tr.vel| == |rows|
    && (forall i :: 0 <= i < |rows| ==> -0.5 <= (tr.t[i] - rows[i].t) * NS_PER_DAY <= 0.5)
    && (forall i :: 0 <= i < |rows| ==> tr.pos[i] == rows[i].pos && tr.vel[i] == rows[i].vel)
    && (if attitude then |tr.attitude| == |rows| && forall i :: 0 <= i < |rows| ==> rows[i].quat == Some(tr.attitude[i])
        else tr.attitude == [])
    && tr.cov == [] && tr.covDim == 0
  }

  lemma EpochBack(t: real)
    ensures -0.5 <= (ToA1Mjd(FromA1Mjd(t, Exactly), Exactly) - t) * NS_PER_DAY <= 0.5
  {
    ExactIsNearest(t);
  }

  /** Every row of a sorted zip has an attitude exactly when the trajectory does. */
  lemma RowsHaveAttitude(tr: Track, rows: seq<Row>)
    requires multiset(rows) == multiset(Rows(tr))
    ensures forall i :: 0 <= i < |rows| ==> rows[i].quat.Some? == HasAttitude(tr)
  {
    forall i | 0 <= i < |rows| ensures rows[i].quat.Some? == HasAttitude(tr) {
      assert rows[i] in multiset(Rows(tr));
      var k :| 0 <= k < |Rows(tr)| && Rows(tr)[k] == rows[i];
    }
  }

  lemma RowsAccepted(rows: seq<Row>, attitude: bool, declared: bool)
    requires forall i :: 0 <= i < |rows| ==> rows[i].quat.Some? == attitude
    ensures SamplesOk(SamplesOf(rows), declared) && NoCov(SamplesOf(rows))
    ensures if attitude then AllAttitude(SamplesOf(rows)) else NoAttitude(SamplesOf(rows))
  {
    var ss := SamplesOf(rows);
    forall i | 0 <= i < |ss| ensures |ss[i].mean| == (if attitude then 10 else 6) && ss[i].cov == [] {
      SampleBack(rows[i]);
    }
  }

  lemma RowsRecovered(tr: Track, rows: seq<Row>, attitude: bool)
    requires MeansOk(SamplesOf(rows)) && Shows(tr, SamplesOf(rows)) && NoCov(SamplesOf(rows))
    requires forall i :: 0 <= i < |rows| ==> rows[i].quat.Some? == attitude
    requires if attitude then AllAttitude(SamplesOf(rows)) else NoAttitude(SamplesOf(rows))
    ensures Recovered(tr, rows, attitude && rows != [])
  {
    var ss := SamplesOf(rows);
    forall i | 0 <= i < |rows|
      ensures -0.5 <= (tr.t[i] - rows[i].t) * NS_PER_DAY <= 0.5 && tr.pos[i] == rows[i].pos && tr.vel[i] == rows[i].vel
    {
      assert ss[i] == SampleOf(rows[i]);
      SampleBack(rows[i]);
      EpochBack(rows[i].t);
    }
    if rows != [] {
      SampleBack(rows[0]);
      assert ss[0].cov == [] && !AllCov(ss);
      assert ss[0] == SampleOf(rows[0]) && (AllAttitude(ss) <==> attitude);
    }
    if rows != [] && attitude {
      forall i | 0 <= i < |rows| ensures rows[i].quat == Some(tr.attitude[i]) {
        assert ss[i] == SampleOf(rows[i]);
        SampleBack(rows[i]);
      }
    }
  }

  /** The CDM of a trajectory is accepted by the viewer, and whatever the viewer shows of it is the stable time-sort
      of the same rows: equal epochs keep their order, positions, velocities, attitude and model are the same, and
      every epoch is within half a nanosecond. */
  lemma RoundTrip(tr: Track, n: Names, name: string, white: char -> bool, back: Track)
    requires Convertible(tr, white) && !NotDrawn(Converted(tr, n).space)
    ensures Acceptable(Converted(tr, n), white)
    ensures ViewOf(back, Converted(tr, n), name) ==>
      Recovered(back, SortedRows(tr), HasAttitude(tr) && SortedRows(tr) != []) && back.model == tr.model
    ensures Ordered(SortedRows(tr), TimeOf, RealLeq)
    ensures forall t :: WithKey(SortedRows(tr), TimeOf, t) == WithKey(Rows(tr), TimeOf, t)
  {
    hide Shows, Recovered, CovsOk;
    var rows := SortedRows(tr);
    RealOrder();
    SortIsStable(Rows(tr), TimeOf, RealLeq);
    RowsHaveAttitude(tr, rows);
    SamplesInOrder(rows);
    var declared := StateSpaceFor(Converted(tr, n).space).Some?;
    RowsAccepted(rows, HasAttitude(tr), declared);
    ModelBack(tr, white);
    if ViewOf(back, Converted(tr, n), name) {
      RowsRecovered(back, rows, HasAttitude(tr));
    }
  }

  /** To the CDM and back, through both conversions: a valid trajectory comes back unless its space has no
      positions, with its own name when it was converted under it. */
  method ThereAndBack(tr: Track, n: Names, white: char -> bool) returns (back: Option<Track>)
    requires Convertible(tr, white)
    ensures back.None? <==> NotDrawn(Converted(tr, n).space)
    ensures back.Some? ==>
      Recovered(back.value, SortedRows(tr), HasAttitude(tr) && SortedRows(tr) != []) && back.value.model == tr.model
    ensures back.Some? && n.entityId == tr.name != "" ==> back.value.name == tr.name
  {
    hide Convertible, Converted, Acceptable, Recovered, ViewOf, NotDrawn;
    var cdm := TrajectoryToCdm(tr, n, white);
    NotDrawnIsAcceptable(tr, n, white);
    if !NotDrawn(Converted(tr, n).space) {
      RoundTrip(tr, n, "", white, tr);
    }
    var view := CdmTrajectoryToViewer(cdm.value, "", white);
    back := view.value;
    if back.Some? {
      RoundTrip(tr, n, "", white, back.value);
      if n.entityId == tr.name != "" {
        ViewName(back.value, tr, n);
      }
    }
  }

  lemma NotDrawnIsAcceptable(tr: Track, n: Names, white: char -> bool)
    ensures NotDrawn(Converted(tr, n).space) ==> Acceptable(Converted(tr, n), white)
  {
  }

  lemma ViewName(back: Track, tr: Track, n: Names)
    requires ViewOf(back, Converted(tr, n), "") && n.entityId == tr.name != ""
    ensures back.name == tr.name
  {
    hide Shows, MeansOk;
  }

  lemma ModelBack(tr: Track, white: char -> bool)
    requires Convertible(tr, white)
    ensures var uri := if tr.model.Some? then tr.model.value else "";
      (uri == "" || ModelOk(uri, white)) && (if uri == "" then None else Some(uri)) == tr.model
  {
  }

  /** A trajectory already in time order comes back in its own order. */
  lemma InOrderAlready(tr: Track)
    requires Ordered(Rows(tr), TimeOf, RealLeq)
    ensures SortedRows(tr) == Rows(tr)
  {
    RealOrder();
    SortIsStable(Rows(tr), TimeOf, RealLeq);
    OrderedStableUnique(SortedRows(tr), Rows(tr), TimeOf, RealLeq);
  }

  /** The segment spans the samples, from the first's epoch to the last's. */
  lemma SegmentSpans(tr: Track, n: Names)
    ensures var c := Converted(tr, n);
      && (c.segment.None? <==> c.samples == [])
      && (forall s :: s in c.samples ==> c.segment.value.start <= s.tai <= c.segment.value.end)
      && (c.samples != [] ==>
            (exists s :: s in c.samples && s.tai == c.segment.value.start)
            && exists s :: s in c.samples && s.tai == c.segment.value.end)
  {
    hide FromA1Mjd;
    var rows := SortedRows(tr);
    var ss := SamplesOf(rows);
    RealOrder();
    SortIsStable(Rows(tr), TimeOf, RealLeq);
    forall s | s in ss ensures ss[0].tai <= s.tai <= ss[|ss| - 1].tai {
      var i :| 0 <= i < |ss| && ss[i] == s;
      TaiInOrder(rows, 0, i);
      TaiInOrder(rows, i, |ss| - 1);
    }
    if ss != [] {
      assert ss[0] in ss && ss[|ss| - 1] in ss;
    }
  }

  /** The quantity a component's label names, in SI units; None is a quantity the row does not have. */
  function Quantity(r: Row, name: Label): Option<real> {
    match name
    case PosX => Some(r.pos.x * 1000.0)
    case PosY => Some(r.pos.y * 1000.0)
    case PosZ => Some(r.pos.z * 1000.0)
    case VelX => Some(r.vel.x * 1000.0)
    case VelY => Some(r.vel.y * 1000.0)
    case VelZ => Some(r.vel.z * 1000.0)
    case QX => if r.quat.Some? then Some(r.quat.value.x) else None
    case QY => if r.quat.Some? then Some(r.quat.value.y) else None
    case QZ => if r.quat.Some? then Some(r.quat.value.z) else None
    case QW => if r.quat.Some? then Some(r.quat.value.w) else None
    case StateOf(_) => None
  }

  function UnitOf(name: Label): Unit {
    match name
    case PosX => Meter
    case PosY => Meter
    case PosZ => Meter
    case VelX => MeterPerSecond
    case VelY => MeterPerSecond
    case VelZ => MeterPerSecond
    case _ => Dimensionless
  }

  /** The sample holds the row's quantities that the space declares, in its order and its units. */
  ghost predicate Holds(s: Sample, r: Row, space: seq<Component>) {
    && |s.mean| == |space|
    && forall k :: 0 <= k < |space| ==>
         Some(s.mean[k]) == Quantity(r, space[k].quantity) && space[k].unit == UnitOf(space[k].quantity)
  }

  lemma SampleHolds(r: Row)
    ensures Holds(SampleOf(r), r, if r.quat.Some? then POSITION_VELOCITY + ATTITUDE else POSITION_VELOCITY)
  {
  }

  /** The CDM trajectory field by field: a segment's end, the space with attitude when there is attitude and the default
      space was asked for, and a sample for each row in time order, holding the row's quantities in SI units. */
  lemma CdmIs(tr: Track, n: Names)
    ensures var c := Converted(tr, n);
      && c.entityId == n.entityId && c.frameId == n.frameId && c.interpolation == HermiteVelocity
      && (n.trajectoryId != "" ==> c.id == n.trajectoryId) && (n.trajectoryId == "" ==> c.id == tr.name)
      && (c.modelUri == "" <==> tr.model in {None, Some("")}) && (c.modelUri != "" ==> tr.model == Some(c.modelUri))
      && (c.space == n.space || (c.space == CartesianPosVel6Quat4 && n.space == CartesianPosVel6))
      && (n.space == CartesianPosVel6 ==>
            (c.space == CartesianPosVel6 <==> tr.attitude == [] || |tr.attitude| != |tr.t|))
      && |c.samples| == |SortedRows(tr)|
      && forall i :: 0 <= i < |c.samples| ==>
           && c.samples[i].tai == FromA1Mjd(SortedRows(tr)[i].t, Exactly) && c.samples[i].cov == []
           && Holds(c.samples[i], SortedRows(tr)[i],
                    if SortedRows(tr)[i].quat.Some? then POSITION_VELOCITY + ATTITUDE else POSITION_VELOCITY)
  {
    hide FromA1Mjd, Holds, Sort;
    forall i | 0 <= i < |SortedRows(tr)|
      ensures Holds(Converted(tr, n).samples[i], SortedRows(tr)[i],
                    if SortedRows(tr)[i].quat.Some? then POSITION_VELOCITY + ATTITUDE else POSITION_VELOCITY)
    {
      SampleHolds(SortedRows(tr)[i]);
    }
  }

  /** The rows are the zip of the lists, cut to the shortest, with the attitudes if they are parallel. */
  lemma RowsAre(tr: Track)
    ensures |Rows(tr)| <= |tr.t| && |Rows(tr)| <= |tr.pos| && |Rows(tr)| <= |tr.vel|
    ensures |Rows(tr)| in {|tr.t|, |tr.pos|, |tr.vel|}
    ensures forall i :: 0 <= i < |Rows(tr)| ==>
      && Rows(tr)[i].t == tr.t[i] && Rows(tr)[i].pos == tr.pos[i] && Rows(tr)[i].vel == tr.vel[i]
      && (|tr.attitude| == |tr.t| ==> Rows(tr)[i].quat == Some(tr.attitude[i]))
      && (|tr.attitude| != |tr.t| ==> Rows(tr)[i].quat == None)
  {
    forall i | 0 <= i < |Rows(tr)|
      ensures Rows(tr)[i].t == tr.t[i] && Rows(tr)[i].pos == tr.pos[i] && Rows(tr)[i].vel == tr.vel[i]
      ensures |tr.attitude| == |tr.t| ==> Rows(tr)[i].quat == Some(tr.attitude[i])
      ensures |tr.attitude| != |tr.t| ==> Rows(tr)[i].quat == None
    {
      assert |tr.attitude| == |tr.t| <==> HasAttitude(tr);
    }
  }

  /** Converted under the default state space, every sample has one component for each its trajectory's space
      declares, and it is the quantity of that name. */
  lemma SamplesFitTheirSpace(tr: Track, n: Names)
    requires n.space.CartesianPosVel6?
    ensures var c := Converted(tr, n);
      && StateSpaceFor(c.space).Some? && |c.samples| == |SortedRows(tr)|
      && forall i :: 0 <= i < |c.samples| ==> Holds(c.samples[i], SortedRows(tr)[i], StateSpaceFor(c.space).value)
  {
    var rows := SortedRows(tr);
    RealOrder();
    SortIsStable(Rows(tr), TimeOf, RealLeq);
    RowsHaveAttitude(tr, rows);
    forall i | 0 <= i < |rows| ensures Holds(SamplesOf(rows)[i], rows[i], StateSpaceFor(Converted(tr, n).space).value) {
      SampleHolds(rows[i]);
    }
  }
}
