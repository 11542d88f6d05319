/** The registrations of `Scenario._build_frames` in altavista/scenario.py. */
module ScenarioFrames {
  import opened Base
  import opened Frames
  import opened FrameLists
  import opened Ordering

  /** A frame declared by frame_ric, frame_vnb or frame_vvlh. */
  datatype Decl = Decl(id: string, kind: Axes, entity: string, referenceBody: string)

  function DeclaredFrame(c: Decl): FrameDef {
    FrameDef(c.id, c.kind, Entity(c.entity), "", "", None, c.referenceBody, c.entity, None)
  }

  /** A body frame asked for under an id of its own. */
  datatype BodyRequest = BodyRequest(id: string, need: Need)

  function Equatorial(body: string): BodyRequest {
    BodyRequest(body + "MJ2000Eq", Need(MJ2000Eq, body))
  }

  function Fixed(body: string): BodyRequest {
    BodyRequest(body + "BodyFixed", Need(BodyFixed, body))
  }

  function Asked(q: BodyRequest): FrameDef {
    BodyFrame(q.id, q.need)
  }

  // ---------------------------------------------------------------- what is registered

  /** A body request is registered unless its axes and body were asked for before. */
  function IfNew(keys: set<Need>, q: BodyRequest): seq<FrameDef> {
    if q.need in keys then [] else [Asked(q)]
  }

  function DeclRequests(keys: set<Need>, decls: seq<Decl>): seq<FrameDef>
    decreases decls
  {
    if decls == [] then []
    else
      var q := Equatorial(decls[0].referenceBody);
      IfNew(keys, q) + [DeclaredFrame(decls[0])] + DeclRequests(keys + {q.need}, decls[1..])
  }

  /** The scenario's own frame, and its key. */
  function Own(scenario: Option<BodyRequest>): seq<FrameDef> {
    if scenario.Some? then [Asked(scenario.value)] else []
  }

  function OwnKeys(scenario: Option<BodyRequest>): set<Need> {
    if scenario.Some? then {scenario.value.need} else {}
  }

  function CentralRequests(scenario: Option<BodyRequest>, central: string): seq<FrameDef> {
    var eq, fixed := Equatorial(central), Fixed(central);
    Own(scenario) + IfNew(OwnKeys(scenario), eq) + IfNew(OwnKeys(scenario) + {eq.need}, fixed)
  }

  function CentralKeys(scenario: Option<BodyRequest>, central: string): set<Need> {
    OwnKeys(scenario) + {Equatorial(central).need, Fixed(central).need}
  }

  /** The definitions registered in turn when none is refused: they depend on the arguments only. */
  function Requests(scenario: Option<BodyRequest>, central: string, decls: seq<Decl>): seq<FrameDef> {
    CentralRequests(scenario, central) + DeclRequests(CentralKeys(scenario, central), decls)
  }

  // ---------------------------------------------------------------- the code

  lemma RegisterAllOneMore(done: seq<FrameDef>, d: FrameDef, g: Gmat, p: Progress)
    requires RegisterAll(done, g) == Ok(p)
    ensures RegisterAll(done + [d], g) == Next(p, d, g)
  {
    assert (done + [d])[..|done|] == done;
  }

  lemma RefusedStays(done: seq<FrameDef>, rest: seq<FrameDef>, g: Gmat)
    requires RegisterAll(done, g).Err?
    ensures RegisterAll(done + rest, g) == RegisterAll(done, g)
  {
    assert (done + rest)[..|done|] == done;
    RegisterAllFails(done + rest, |done|, g);
  }

  /** register_body_axes: nothing new for a known key, or a registration. */
  method RegisterBodyAxes(registry: FrameRegistry, out: seq<FrameDef>, byKey: map<Need, string>, q: BodyRequest,
                          g: Gmat, ghost done: seq<FrameDef>)
    returns (out': seq<FrameDef>, byKey': map<Need, string>, error: Option<FrameError>)
    requires RegisterAll(done, g) == Ok(Progress(registry.defs, out))
    modifies registry
    ensures error.None? ==> RegisterAll(done + IfNew(byKey.Keys, q), g) == Ok(Progress(registry.defs, out'))
    ensures error.None? ==> byKey'.Keys == byKey.Keys + {q.need}
    ensures error.Some? ==> RegisterAll(done + IfNew(byKey.Keys, q), g) == Err(Refusal(q.id, error.value))
  {
    hide RegisterAll, Registered;
    out', byKey', error := out, byKey, None;
    if q.need in byKey {
      assert done + IfNew(byKey.Keys, q) == done;
      return;
    }
    RegisterAllOneMore(done, Asked(q), g, Progress(registry.defs, out));
    var fd := registry.Register(Asked(q), g);
    if fd.Err? {
      error := Some(fd.error);
      return;
    }
    out', byKey' := out + [fd.value], byKey[q.need := fd.value.id];
  }

  method RegisterOwn(registry: FrameRegistry, scenario: Option<BodyRequest>, g: Gmat)
    returns (out: seq<FrameDef>, byKey: map<Need, string>, error: Option<Refusal>)
    requires registry.defs == map[]
    modifies registry
    ensures error.None? ==>
      RegisterAll(Own(scenario), g) == Ok(Progress(registry.defs, out)) && byKey.Keys == OwnKeys(scenario)
    ensures error.Some? ==> RegisterAll(Own(scenario), g) == Err(error.value)
  {
    out, byKey, error := [], map[], None;
    assert RegisterAll([], g) == Ok(Progress(map[], []));
    if scenario.Some? {
      hide RegisterAll, Asked;
      var problem: Option<FrameError>;
      out, byKey, problem := RegisterBodyAxes(registry, out, byKey, scenario.value, g, []);
      assert [] + IfNew({}, scenario.value) == Own(scenario);
      if problem.Some? {
        error := Some(Refusal(scenario.value.id, problem.value));
      }
    }
  }

  /** The scenario's own frame and the two frames of the central body. */
  method RegisterCentral(registry: FrameRegistry, scenario: Option<BodyRequest>, central: string, g: Gmat)
    returns (out: seq<FrameDef>, byKey: map<Need, string>, error: Option<Refusal>)
    requires registry.defs == map[]
    modifies registry
    ensures error.None? ==> RegisterAll(CentralRequests(scenario, central), g) == Ok(Progress(registry.defs, out))
    ensures error.None? ==> byKey.Keys == CentralKeys(scenario, central)
    ensures error.Some? ==> RegisterAll(CentralRequests(scenario, central), g) == Err(error.value)
  {
    hide RegisterAll, Asked, IfNew, Own, OwnKeys, Equatorial, Fixed;
    var eq, fixed := Equatorial(central), Fixed(central);
    ghost var own, keys := Own(scenario), OwnKeys(scenario);
    ghost var two, three := IfNew(keys, eq), IfNew(keys + {eq.need}, fixed);
    var problem: Option<FrameError>;
    out, byKey, error := RegisterOwn(registry, scenario, g);
    if error.Some? {
      RefusedStays(own, two, g);
      RefusedStays(own + two, three, g);
      return;
    }
    out, byKey, problem := RegisterBodyAxes(registry, out, byKey, eq, g, own);
    if problem.Some? {
      RefusedStays(own + two, three, g);
      return out, byKey, Some(Refusal(eq.id, problem.value));
    }
    out, byKey, problem := RegisterBodyAxes(registry, out, byKey, fixed, g, own + two);
    if problem.Some? {
      return out, byKey, Some(Refusal(fixed.id, problem.value));
    }
    assert keys + {eq.need} + {fixed.need} == CentralKeys(scenario, central);
  }

  lemma OneDecl(keys: set<Need>, decls: seq<Decl>, k: nat)
    requires k < |decls|
    ensures var q := Equatorial(decls[k].referenceBody);
      DeclRequests(keys, decls[k..])
      == IfNew(keys, q) + [DeclaredFrame(decls[k])] + DeclRequests(keys + {q.need}, decls[k + 1..])
  {
    assert decls[k..][0] == decls[k] && decls[k..][1..] == decls[k + 1..];
  }

  /** One pass of the loop over the declared frames. */
  method RegisterDecl(registry: FrameRegistry, out: seq<FrameDef>, byKey: map<Need, string>, c: Decl, g: Gmat,
                      ghost done: seq<FrameDef>)
    returns (out': seq<FrameDef>, byKey': map<Need, string>, error: Option<Refusal>)
    requires RegisterAll(done, g) == Ok(Progress(registry.defs, out))
    modifies registry
    ensures var q := Equatorial(c.referenceBody);
      var more := done + IfNew(byKey.Keys, q) + [DeclaredFrame(c)];
      && (error.None? ==>
            RegisterAll(more, g) == Ok(Progress(registry.defs, out')) && byKey'.Keys == byKey.Keys + {q.need})
      && (error.Some? ==> RegisterAll(more, g) == Err(error.value))
  {
    hide RegisterAll, Registered;
    ghost var body := done + IfNew(byKey.Keys, Equatorial(c.referenceBody));
    var problem: Option<FrameError>;
    out', byKey', problem := RegisterBodyAxes(registry, out, byKey, Equatorial(c.referenceBody), g, done);
    if problem.Some? {
      RefusedStays(body, [DeclaredFrame(c)], g);
      return out', byKey', Some(Refusal(Equatorial(c.referenceBody).id, problem.value));
    }
    RegisterAllOneMore(body, DeclaredFrame(c), g, Progress(registry.defs, out'));
    var fd := registry.Register(DeclaredFrame(c), g);
    if fd.Err? {
      return out', byKey', Some(Refusal(c.id, fd.error));
    }
    out', error := out' + [fd.value], None;
  }

  /** The frames emitted are those of the requests, registered in turn up to the first refusal. */
  method BuildFrames(scenario: Option<BodyRequest>, central: string, decls: seq<Decl>, g: Gmat)
    returns (r: Result<seq<FrameDef>, Refusal>)
    ensures r == match RegisterAll(Requests(scenario, central, decls), g)
      case Ok(p) => Ok(p.out)
      case Err(e) => Err(e)
  {
    hide RegisterAll, CentralRequests, CentralKeys, DeclRequests, Equatorial;
    var registry := new FrameRegistry();
    var out, byKey, error := RegisterCentral(registry, scenario, central, g);
    ghost var all := Requests(scenario, central, decls);
    ghost var done, rest := CentralRequests(scenario, central), DeclRequests(CentralKeys(scenario, central), decls);
    if error.Some? {
      RefusedStays(done, rest, g);
      return Err(error.value);
    }
    var k := 0;
    assert decls[0..] == decls;
    while k < |decls|
      invariant 0 <= k <= |decls| && fresh(registry)
      invariant RegisterAll(done, g) == Ok(Progress(registry.defs, out))
      invariant rest == DeclRequests(byKey.Keys, decls[k..]) && all == done + rest
    {
      OneDecl(byKey.Keys, decls, k);
      ghost var keys := byKey.Keys;
      ghost var q := Equatorial(decls[k].referenceBody);
      out, byKey, error := RegisterDecl(registry, out, byKey, decls[k], g, done);
      done := done + IfNew(keys, q) + [DeclaredFrame(decls[k])];
      rest := DeclRequests(keys + {q.need}, decls[k + 1..]);
      assert all == done + rest;
      if error.Some? {
        RefusedStays(done, rest, g);
        return Err(error.value);
      }
      k := k + 1;
    }
    NoMoreDecls(byKey.Keys, decls);
    assert all == done;
    r := Ok(out);
  }

  lemma NoMoreDecls(keys: set<Need>, decls: seq<Decl>)
    ensures DeclRequests(keys, decls[|decls|..]) == []
  {
  }

  // ---------------------------------------------------------------- the shape of the requests

  predicate Has(reqs: seq<FrameDef>, n: Need) {
    exists b :: 0 <= b < |reqs| && Meets(reqs[b], n)
  }

  /** d is a body frame nobody asked for before, or a relative frame whose body frame was asked for before. */
  predicate Fits(before: seq<FrameDef>, d: FrameDef) {
    && d.parent == ""
    && (if DeclaresBody(d) then !Has(before, Need(d.axes, d.origin.body))
        else ObjectReferenced(d.axes) && Has(before, Need(MJ2000Eq, d.referenceBody)))
  }

  ghost predicate Laid(reqs: seq<FrameDef>) {
    forall k :: 0 <= k < |reqs| ==> Fits(reqs[..k], reqs[k])
  }

  ghost predicate KeysAre(reqs: seq<FrameDef>, keys: set<Need>) {
    forall n :: n in keys <==> Has(reqs, n)
  }

  lemma HasMore(reqs: seq<FrameDef>, d: FrameDef, n: Need)
    ensures Has(reqs + [d], n) <==> Has(reqs, n) || Meets(d, n)
  {
    if Has(reqs, n) {
      var b :| 0 <= b < |reqs| && Meets(reqs[b], n);
      assert (reqs + [d])[b] == reqs[b];
    }
    assert (reqs + [d])[|reqs|] == d;
  }

  lemma LaidMore(reqs: seq<FrameDef>, d: FrameDef)
    requires Laid(reqs) && Fits(reqs, d)
    ensures Laid(reqs + [d])
  {
    forall k | 0 <= k < |reqs + [d]| ensures Fits((reqs + [d])[..k], (reqs + [d])[k]) {
      assert (reqs + [d])[..k] == reqs[..k];
      assert reqs[..|reqs|] == reqs;
    }
  }

  lemma LaidIfNew(reqs: seq<FrameDef>, keys: set<Need>, q: BodyRequest)
    requires Laid(reqs) && KeysAre(reqs, keys) && BodyAxes(q.need.axes)
    ensures Laid(reqs + IfNew(keys, q)) && KeysAre(reqs + IfNew(keys, q), keys + {q.need})
  {
    if q.need in keys {
      assert reqs + IfNew(keys, q) == reqs;
    } else {
      LaidMore(reqs, Asked(q));
      forall n ensures n in keys + {q.need} <==> Has(reqs + [Asked(q)], n) {
        HasMore(reqs, Asked(q), n);
      }
    }
  }

  lemma {:induction false} LaidDecls(reqs: seq<FrameDef>, keys: set<Need>, decls: seq<Decl>)
    requires Laid(reqs) && KeysAre(reqs, keys) && forall c :: c in decls ==> ObjectReferenced(c.kind)
    ensures Laid(reqs + DeclRequests(keys, decls))
    decreases decls
  {
    if decls == [] {
      assert reqs + DeclRequests(keys, decls) == reqs;
    } else {
      hide Laid, KeysAre, Fits, DeclaredFrame, Equatorial, IfNew;
      var q := Equatorial(decls[0].referenceBody);
      var body, more := reqs + IfNew(keys, q), keys + {q.need};
      LaidOneDecl(reqs, keys, decls[0]);
      LaidDecls(body + [DeclaredFrame(decls[0])], more, decls[1..]);
      Regrouped(reqs, IfNew(keys, q), [DeclaredFrame(decls[0])], DeclRequests(more, decls[1..]));
    }
  }

  lemma Regrouped<T>(a: seq<T>, b: seq<T>, c: seq<T>, d: seq<T>)
    ensures a + b + c + d == a + (b + c + d)
  {
  }

  lemma LaidOneDecl(reqs: seq<FrameDef>, keys: set<Need>, c: Decl)
    requires Laid(reqs) && KeysAre(reqs, keys) && ObjectReferenced(c.kind)
    ensures var q := Equatorial(c.referenceBody);
      var more := reqs + IfNew(keys, q) + [DeclaredFrame(c)];
      Laid(more) && KeysAre(more, keys + {q.need})
  {
    hide Laid, KeysAre, Fits, IfNew;
    var q := Equatorial(c.referenceBody);
    var body := reqs + IfNew(keys, q);
    LaidIfNew(reqs, keys, q);
    DeclFits(body, keys + {q.need}, c);
    LaidMore(body, DeclaredFrame(c));
    KeysStay(body, keys + {q.need}, DeclaredFrame(c));
  }

  lemma DeclFits(reqs: seq<FrameDef>, keys: set<Need>, c: Decl)
    requires KeysAre(reqs, keys) && Need(MJ2000Eq, c.referenceBody) in keys && ObjectReferenced(c.kind)
    ensures Fits(reqs, DeclaredFrame(c))
  {
  }

  lemma KeysStay(reqs: seq<FrameDef>, keys: set<Need>, d: FrameDef)
    requires KeysAre(reqs, keys) && ObjectReferenced(d.axes) && !d.origin.Body?
    ensures KeysAre(reqs + [d], keys)
  {
    forall n ensures n in keys <==> Has(reqs + [d], n) {
      HasMore(reqs, d, n);
    }
  }

  /** The callers' arguments: a scenario frame with body axes, if it has a CDM counterpart, and RIC, VNB or VVLH
      declarations. */
  predicate Proper(scenario: Option<BodyRequest>, decls: seq<Decl>) {
    (scenario.Some? ==> BodyAxes(scenario.value.need.axes)) && forall c :: c in decls ==> ObjectReferenced(c.kind)
  }

  lemma NothingAsked()
    ensures Laid([]) && KeysAre([], {})
  {
  }

  /** What is asked for the scenario itself. */
  lemma OwnIsLaid(scenario: Option<BodyRequest>)
    requires scenario.Some? ==> BodyAxes(scenario.value.need.axes)
    ensures Laid(Own(scenario)) && KeysAre(Own(scenario), OwnKeys(scenario))
  {
    hide Laid, KeysAre, Asked;
    NothingAsked();
    if scenario.Some? {
      LaidIfNew([], {}, scenario.value);
      assert [] + IfNew({}, scenario.value) == Own(scenario);
      assert {} + {scenario.value.need} == OwnKeys(scenario);
    }
  }

  lemma CentralIsLaid(scenario: Option<BodyRequest>, central: string)
    requires scenario.Some? ==> BodyAxes(scenario.value.need.axes)
    ensures Laid(CentralRequests(scenario, central))
      && KeysAre(CentralRequests(scenario, central), CentralKeys(scenario, central))
  {
    hide Laid, KeysAre, Asked, IfNew, Own, OwnKeys;
    var eq, fixed := Equatorial(central), Fixed(central);
    var own, keys := Own(scenario), OwnKeys(scenario);
    OwnIsLaid(scenario);
    LaidIfNew(own, keys, eq);
    LaidIfNew(own + IfNew(keys, eq), keys + {eq.need}, fixed);
    assert keys + {eq.need} + {fixed.need} == CentralKeys(scenario, central);
  }

  /** Each body frame is asked for once, and before every frame declared about its body. */
  lemma RequestsAreLaid(scenario: Option<BodyRequest>, central: string, decls: seq<Decl>)
    requires Proper(scenario, decls)
    ensures Laid(Requests(scenario, central, decls))
  {
    CentralIsLaid(scenario, central);
    LaidDecls(CentralRequests(scenario, central), CentralKeys(scenario, central), decls);
  }

  // ---------------------------------------------------------------- which frame a need finds

  /** Which request is the body frame for a need; Lost once a later request took its id. */
  datatype Standing = Absent | Stands(at: nat) | Lost(at: nat)

  function StandingOf(reqs: seq<FrameDef>, n: Need): (s: Standing)
    ensures s.Absent? || s.at < |reqs|
  {
    if reqs == [] then Absent
    else
      var k := |reqs| - 1;
      var before := StandingOf(reqs[..k], n);
      if Meets(reqs[k], n) then Stands(k)
      else if before.Stands? && reqs[before.at].id == reqs[k].id then Lost(before.at)
      else before
  }

  lemma StandingMore(reqs: seq<FrameDef>, d: FrameDef, n: Need)
    ensures var before := StandingOf(reqs, n);
      StandingOf(reqs + [d], n) ==
      if Meets(d, n) then Stands(|reqs|)
      else if before.Stands? && reqs[before.at].id == d.id then Lost(before.at)
      else before
  {
    assert (reqs + [d])[..|reqs|] == reqs;
  }

  /** What the registry offers for a need after these requests. */
  ghost predicate OffersStanding(defs: Defs, reqs: seq<FrameDef>, n: Need) {
    match StandingOf(reqs, n)
    case Absent => Matches(defs, n) == {}
    case Stands(b) => Matches(defs, n) == {reqs[b].id}
    case Lost(b) =>
      && Matches(defs, n) <= {Canonical(n)} && reqs[b].id in defs
      && (reqs[b].id == Canonical(n) ==> Matches(defs, n) == {})
  }

  ghost predicate Registry(defs: Defs, reqs: seq<FrameDef>) {
    && (forall n: Need :: BodyAxes(n.axes) ==> OffersStanding(defs, reqs, n))
    && (forall d :: d in reqs ==> d.id in defs)
  }

  /** What the three standings mean. */
  lemma {:induction false} StandingMeans(reqs: seq<FrameDef>, n: Need)
    ensures var s := StandingOf(reqs, n);
      && (s.Absent? <==> !Has(reqs, n))
      && (!s.Absent? ==> Meets(reqs[s.at], n))
      && (s.Stands? ==> forall m :: s.at < m < |reqs| ==> reqs[m].id != reqs[s.at].id)
      && (s.Lost? ==> exists m :: s.at < m < |reqs| && reqs[m].id == reqs[s.at].id)
  {
    if reqs != [] {
      var k := |reqs| - 1;
      var front := reqs[..k];
      StandingMeans(front, n);
      assert reqs == front + [reqs[k]];
      HasMore(front, reqs[k], n);
      assert forall m :: 0 <= m < k ==> front[m] == reqs[m];
    }
  }

  lemma BodyStored(defs: Defs, d: FrameDef, g: Gmat)
    requires DeclaresBody(d) && Registered(defs, d, g).1.Ok?
    ensures var (after, r) := Registered(defs, d, g);
      after == defs[d.id := r.value] && r.value.id == d.id && r.value.axes == d.axes && r.value.origin == d.origin
  {
    RegisteredResult(defs, d, g);
  }

  lemma BodyMatches(defs: Defs, o: FrameDef, n: Need)
    requires Meets(o, n)
    ensures Matches(defs[o.id := o], n) == Matches(defs, n) + {o.id}
  {
  }

  /** A body frame for n was not asked for before. */
  lemma FirstForItsNeed(reqs: seq<FrameDef>, d: FrameDef, n: Need)
    requires DeclaresBody(d) && Fits(reqs, d) && Meets(d, n)
    ensures StandingOf(reqs, n).Absent?
  {
    assert n == Need(d.axes, d.origin.body);
    StandingMeans(reqs, n);
  }

  lemma BodyKeepsStanding(defs: Defs, reqs: seq<FrameDef>, d: FrameDef, g: Gmat, n: Need)
    requires OffersStanding(defs, reqs, n) && BodyAxes(n.axes) && DeclaresBody(d) && Fits(reqs, d)
    requires Registered(defs, d, g).1.Ok?
    ensures OffersStanding(Registered(defs, d, g).0, reqs + [d], n)
  {
    hide Registered, StandingOf, Fits, Matches;
    BodyStored(defs, d, g);
    var o := Registered(defs, d, g).1.value;
    StandingMore(reqs, d, n);
    if Meets(d, n) {
      FirstForItsNeed(reqs, d, n);
      BodyMatches(defs, o, n);
    } else {
      StoredMatches(defs, o, n);
    }
  }

  lemma EnsuredKeepsStanding(defs: Defs, reqs: seq<FrameDef>, m: Need, g: Gmat, n: Need)
    requires OffersStanding(defs, reqs, n) && Has(reqs, m) && BodyAxes(n.axes)
    ensures OffersStanding(Ensured(defs, m, g).0, reqs, n)
  {
    var more := Ensured(defs, m, g).0;
    StandingMeans(reqs, n);
    if more != defs {
      InventedMatches(defs, m, n);
      FindIsLeast(defs, m);
      assert Matches(defs, m) == {};
    }
  }

  lemma StoredKeepsStanding(defs: Defs, reqs: seq<FrameDef>, o: FrameDef, d: FrameDef, n: Need)
    requires OffersStanding(defs, reqs, n) && BodyAxes(n.axes) && !BodyAxes(d.axes) && o.id == d.id && o.axes == d.axes
    ensures OffersStanding(defs[o.id := o], reqs + [d], n)
  {
    StandingMore(reqs, d, n);
    StoredMatches(defs, o, n);
  }

  lemma RelativeKeepsStanding(defs: Defs, reqs: seq<FrameDef>, d: FrameDef, g: Gmat, n: Need)
    requires OffersStanding(defs, reqs, n) && BodyAxes(n.axes) && !DeclaresBody(d) && Fits(reqs, d)
    requires Registered(defs, d, g).1.Ok?
    ensures OffersStanding(Registered(defs, d, g).0, reqs + [d], n)
  {
    hide OffersStanding, Ensured;
    RegisteredResult(defs, d, g);
    var o, m := Registered(defs, d, g).1.value, Needed(d).value;
    EnsuredKeepsStanding(defs, reqs, m, g, n);
    StoredKeepsStanding(Ensured(defs, m, g).0, reqs, o, d, n);
    assert Registered(defs, d, g).0 == Ensured(defs, m, g).0[o.id := o];
  }

  lemma RegistryMore(defs: Defs, reqs: seq<FrameDef>, d: FrameDef, g: Gmat)
    requires Registry(defs, reqs) && Fits(reqs, d) && Registered(defs, d, g).1.Ok?
    ensures Registry(Registered(defs, d, g).0, reqs + [d])
  {
    hide OffersStanding, Fits;
    var after := Registered(defs, d, g).0;
    forall n: Need | BodyAxes(n.axes) ensures OffersStanding(after, reqs + [d], n) {
      if DeclaresBody(d) {
        BodyKeepsStanding(defs, reqs, d, g, n);
      } else {
        RelativeKeepsStanding(defs, reqs, d, g, n);
      }
    }
    RegisteredKeeps(defs, d, g);
  }

  lemma RegisteredKeeps(defs: Defs, d: FrameDef, g: Gmat)
    requires Registered(defs, d, g).1.Ok?
    ensures defs.Keys + {d.id} <= Registered(defs, d, g).0.Keys
  {
    RegisteredResult(defs, d, g);
    if Needed(d).Some? {
      EnsuredMeets(defs, Needed(d).value, g);
    }
  }

  /** The parent d is given after these requests. */
  function ParentAfter(reqs: seq<FrameDef>, d: FrameDef): string {
    if Needed(d).None? then ""
    else match StandingOf(reqs, Needed(d).value)
      case Stands(b) => reqs[b].id
      case _ => Canonical(Needed(d).value)
  }

  /** The need's frame stands, or was lost under an id that is not the canonical one. */
  ghost predicate Findable(reqs: seq<FrameDef>, n: Need) {
    var s := StandingOf(reqs, n);
    s.Stands? || (s.Lost? && reqs[s.at].id != Canonical(n))
  }

  lemma ParentIsAsStanding(defs: Defs, reqs: seq<FrameDef>, d: FrameDef, g: Gmat)
    requires Registry(defs, reqs) && Fits(reqs, d) && Registered(defs, d, g).1.Ok?
    ensures Registered(defs, d, g).1.value.parent == ParentAfter(reqs, d)
    ensures Needed(d).Some? ==> Findable(reqs, Needed(d).value)
  {
    RegisteredResult(defs, d, g);
    if Needed(d).Some? {
      var n := Needed(d).value;
      assert OffersStanding(defs, reqs, n);
      StandingMeans(reqs, n);
    }
  }

  /** Frame k comes out as asked for, under the parent that stands at its turn. */
  ghost predicate BuiltAs(out: seq<FrameDef>, reqs: seq<FrameDef>, k: nat)
    requires k < |reqs| == |out|
  {
    && SameFrame(out[k], reqs[k]) && out[k].parent == ParentAfter(reqs[..k], reqs[k])
    && (Needed(reqs[k]).Some? ==> Findable(reqs[..k], Needed(reqs[k]).value))
  }

  lemma {:induction false} BuiltInTurn(reqs: seq<FrameDef>, g: Gmat)
    requires Laid(reqs) && RegisterAll(reqs, g).Ok?
    ensures Registry(RegisterAll(reqs, g).value.defs, reqs)
    ensures |RegisterAll(reqs, g).value.out| == |reqs|
    ensures forall k :: 0 <= k < |reqs| ==> BuiltAs(RegisterAll(reqs, g).value.out, reqs, k)
  {
    if reqs != [] {
      hide Registry, Fits, Registered, BuiltAs;
      var front, d := reqs[..|reqs| - 1], reqs[|reqs| - 1];
      assert reqs == front + [d];
      FrontIsLaid(reqs);
      BuiltInTurn(front, g);
      var p := RegisterAll(front, g).value;
      RegistryMore(p.defs, front, d, g);
      BuiltNext(p, front, d, g);
    }
  }

  lemma FrontIsLaid(reqs: seq<FrameDef>)
    requires Laid(reqs) && reqs != []
    ensures Laid(reqs[..|reqs| - 1]) && Fits(reqs[..|reqs| - 1], reqs[|reqs| - 1])
  {
    var front := reqs[..|reqs| - 1];
    forall k | 0 <= k < |front| ensures Fits(front[..k], front[k]) {
      assert front[..k] == reqs[..k];
    }
  }

  lemma BuiltNext(p: Progress, front: seq<FrameDef>, d: FrameDef, g: Gmat)
    requires Registry(p.defs, front) && Fits(front, d) && Registered(p.defs, d, g).1.Ok? && |p.out| == |front|
    requires forall k :: 0 <= k < |front| ==> BuiltAs(p.out, front, k)
    ensures var out := p.out + [Registered(p.defs, d, g).1.value];
      forall k :: 0 <= k < |out| ==> BuiltAs(out, front + [d], k)
  {
    hide Registry, Fits, Registered, ParentAfter, Findable;
    var out, reqs := p.out + [Registered(p.defs, d, g).1.value], front + [d];
    forall k | 0 <= k < |out| ensures BuiltAs(out, reqs, k) {
      if k < |front| {
        assert BuiltAs(p.out, front, k) && out[k] == p.out[k] && reqs[k] == front[k] && reqs[..k] == front[..k];
      } else {
        assert reqs[..k] == front;
        ParentIsAsStanding(p.defs, front, d, g);
        RegisteredResult(p.defs, d, g);
      }
    }
  }

  // ---------------------------------------------------------------- when the list is well formed

  /** The body frame that request k needs was asked for, and no request since took its id. */
  ghost predicate KeepsItsFrame(reqs: seq<FrameDef>, k: nat)
    requires k < |reqs|
  {
    Needed(reqs[k]).Some? ==>
      exists b ::
        && 0 <= b < k && Meets(reqs[b], Needed(reqs[k]).value)
        && forall m :: b < m < k ==> reqs[m].id != reqs[b].id
  }

  /** A need is asked for at one place only. */
  lemma OneBodyFrame(reqs: seq<FrameDef>, n: Need, b: nat, c: nat)
    requires Laid(reqs) && b < |reqs| && c < |reqs| && Meets(reqs[b], n) && Meets(reqs[c], n) && BodyAxes(n.axes)
    ensures b == c
  {
    if b < c {
      AskedBefore(reqs, n, b, c);
    } else if c < b {
      AskedBefore(reqs, n, c, b);
    }
  }

  lemma AskedBefore(reqs: seq<FrameDef>, n: Need, i: nat, j: nat)
    requires Laid(reqs) && i < j < |reqs| && Meets(reqs[i], n) && BodyAxes(n.axes)
    ensures !Meets(reqs[j], n)
  {
    assert Fits(reqs[..j], reqs[j]);
    assert reqs[..j][i] == reqs[i];
  }

  lemma KeepsIff(reqs: seq<FrameDef>, k: nat)
    requires Laid(reqs) && k < |reqs| && Needed(reqs[k]).Some?
    ensures KeepsItsFrame(reqs, k) <==> StandingOf(reqs[..k], Needed(reqs[k]).value).Stands?
  {
    hide Laid, StandingOf;
    var n := Needed(reqs[k]).value;
    var before := reqs[..k];
    StandingMeans(before, n);
    assert forall b :: 0 <= b < k ==> before[b] == reqs[b];
    if KeepsItsFrame(reqs, k) {
      var b :| 0 <= b < k && Meets(reqs[b], n) && forall m :: b < m < k ==> reqs[m].id != reqs[b].id;
      assert Has(before, n) by { assert Meets(before[b], n); }
      OneBodyFrame(reqs, n, b, StandingOf(before, n).at);
    }
  }

  lemma PrefixIsLaid(reqs: seq<FrameDef>, k: nat)
    requires Laid(reqs) && k <= |reqs|
    ensures Laid(reqs[..k])
  {
    forall i | 0 <= i < k ensures Fits(reqs[..k][..i], reqs[..k][i]) {
      assert reqs[..k][..i] == reqs[..i];
    }
  }

  /** The parent of frame k was emitted before it, with the axes and the body it needs. */
  ghost predicate ParentBefore(out: seq<FrameDef>, k: nat)
    requires k < |out|
  {
    if Needed(out[k]).Some? then
      exists j :: 0 <= j < k && out[j].id == out[k].parent && Meets(out[j], Needed(out[k]).value)
    else out[k].parent == ""
  }

  lemma ParentBeforeIff(reqs: seq<FrameDef>, g: Gmat, k: nat)
    requires Laid(reqs) && RegisterAll(reqs, g).Ok? && k < |reqs| == |RegisterAll(reqs, g).value.out|
    ensures ParentBefore(RegisterAll(reqs, g).value.out, k) <==> KeepsItsFrame(reqs, k)
  {
    hide Laid, RegisterAll, ParentAfter, StandingOf, BuiltAs;
    var out := RegisterAll(reqs, g).value.out;
    BuiltInTurn(reqs, g);
    SameShape(out, reqs);
    if Needed(reqs[k]).Some? {
      KeepsIff(reqs, k);
      ParentAt(out, reqs, k);
    } else {
      RootAt(out, reqs, k);
    }
  }

  lemma RootAt(out: seq<FrameDef>, reqs: seq<FrameDef>, k: nat)
    requires |out| == |reqs| && k < |reqs| && BuiltAs(out, reqs, k) && Needed(reqs[k]).None?
    ensures out[k].parent == ""
  {
  }

  /** Frame by frame the same id, need and axes and body. */
  ghost predicate Alike(out: seq<FrameDef>, reqs: seq<FrameDef>) {
    |out| == |reqs| && forall k :: 0 <= k < |reqs| ==>
      out[k].id == reqs[k].id && Needed(out[k]) == Needed(reqs[k])
      && out[k].axes == reqs[k].axes && out[k].origin == reqs[k].origin
  }

  lemma SameShape(out: seq<FrameDef>, reqs: seq<FrameDef>)
    requires |out| == |reqs| && forall k :: 0 <= k < |reqs| ==> BuiltAs(out, reqs, k)
    ensures Alike(out, reqs)
  {
    hide ParentAfter, Findable;
    forall k | 0 <= k < |reqs|
      ensures out[k].id == reqs[k].id && Needed(out[k]) == Needed(reqs[k])
      ensures out[k].axes == reqs[k].axes && out[k].origin == reqs[k].origin
    {
      assert BuiltAs(out, reqs, k);
    }
  }

  lemma ParentAt(out: seq<FrameDef>, reqs: seq<FrameDef>, k: nat)
    requires Laid(reqs) && Alike(out, reqs) && k < |reqs| && BuiltAs(out, reqs, k) && Needed(reqs[k]).Some?
    ensures ParentBefore(out, k) <==> StandingOf(reqs[..k], Needed(reqs[k]).value).Stands?
  {
    hide Laid, StandingOf;
    var n := Needed(reqs[k]).value;
    var before := reqs[..k];
    var s := StandingOf(before, n);
    StandingMeans(before, n);
    assert before[s.at] == reqs[s.at] && Meets(out[s.at], n);
    if !s.Stands? && ParentBefore(out, k) {
      var j :| 0 <= j < k && out[j].id == out[k].parent && Meets(out[j], n);
      OneBodyFrame(reqs, n, s.at, j);
    }
  }

  /** The emitted list has every parent before its children, with the axes and body they need, exactly when every
      declared frame's body frame keeps its id until the frame's turn. */
  lemma ParentsFirstIff(scenario: Option<BodyRequest>, central: string, decls: seq<Decl>, g: Gmat)
    requires Proper(scenario, decls) && RegisterAll(Requests(scenario, central, decls), g).Ok?
    ensures var reqs := Requests(scenario, central, decls);
      var out := RegisterAll(reqs, g).value.out;
      |out| == |reqs| &&
      ((forall k :: 0 <= k < |out| ==> ParentBefore(out, k)) <==>
        forall k :: 0 <= k < |reqs| ==> KeepsItsFrame(reqs, k))
  {
    hide Requests, Laid, KeepsItsFrame, ParentBefore;
    var reqs := Requests(scenario, central, decls);
    RequestsAreLaid(scenario, central, decls);
    BuiltInTurn(reqs, g);
    forall k | 0 <= k < |reqs| ensures ParentBefore(RegisterAll(reqs, g).value.out, k) <==> KeepsItsFrame(reqs, k) {
      ParentBeforeIff(reqs, g, k);
    }
  }

  /** Frame k's body frame keeps its id until k's turn, or the canonical id of the need is asked for too. */
  ghost predicate ParentAsked(reqs: seq<FrameDef>, k: nat)
    requires k < |reqs|
  {
    KeepsItsFrame(reqs, k) || (Needed(reqs[k]).Some? && Canonical(Needed(reqs[k]).value) in Ids(reqs))
  }

  /** Every parent named is emitted exactly when each declared frame's body frame keeps its id until the frame's
      turn, or the canonical id of its need is emitted for something else. */
  lemma ClosedIffFramesKept(scenario: Option<BodyRequest>, central: string, decls: seq<Decl>, g: Gmat)
    requires Proper(scenario, decls) && RegisterAll(Requests(scenario, central, decls), g).Ok?
    ensures var reqs := Requests(scenario, central, decls);
      ParentClosed(RegisterAll(reqs, g).value.out) <==> forall k :: 0 <= k < |reqs| ==> ParentAsked(reqs, k)
  {
    hide Requests, Laid, ParentAsked, BuiltAs, RegisterAll;
    var reqs := Requests(scenario, central, decls);
    var out := RegisterAll(reqs, g).value.out;
    RequestsAreLaid(scenario, central, decls);
    BuiltInTurn(reqs, g);
    SameShape(out, reqs);
    SameIdsInPlace(out, reqs);
    forall k | 0 <= k < |reqs| ensures (out[k].parent == "" || out[k].parent in Ids(reqs)) <==> ParentAsked(reqs, k) {
      ParentInIdsIff(out, reqs, k);
    }
    assert forall k :: 0 <= k < |reqs| ==> out[k] in out;
  }

  lemma SameIdsInPlace(out: seq<FrameDef>, reqs: seq<FrameDef>)
    requires Alike(out, reqs)
    ensures Ids(out) == Ids(reqs)
  {
    forall d | d in out ensures d.id in Ids(reqs) {
      var k :| 0 <= k < |out| && out[k] == d;
      assert reqs[k] in reqs;
    }
    forall d | d in reqs ensures d.id in Ids(out) {
      var k :| 0 <= k < |reqs| && reqs[k] == d;
      assert out[k] in out;
    }
  }

  lemma ParentInIdsIff(out: seq<FrameDef>, reqs: seq<FrameDef>, k: nat)
    requires Laid(reqs) && |out| == |reqs| && k < |reqs| && BuiltAs(out, reqs, k)
    ensures (out[k].parent == "" || out[k].parent in Ids(reqs)) <==> ParentAsked(reqs, k)
  {
    hide Laid, StandingOf;
    if Needed(reqs[k]).Some? {
      var n := Needed(reqs[k]).value;
      KeepsIff(reqs, k);
      assert Canonical(n)[0] == 'g';
      if StandingOf(reqs[..k], n).Stands? {
        assert reqs[StandingOf(reqs[..k], n).at] in reqs;
      }
    }
  }

  // ---------------------------------------------------------------- what is emitted

  ghost predicate BodiesOnce(out: seq<FrameDef>) {
    forall i, j :: 0 <= i < j < |out| && DeclaresBody(out[i]) && DeclaresBody(out[j]) ==>
      out[i].axes != out[j].axes || out[i].origin != out[j].origin
  }

  lemma LaidBodiesOnce(reqs: seq<FrameDef>, out: seq<FrameDef>)
    requires Laid(reqs) && Alike(out, reqs)
    ensures BodiesOnce(out)
  {
    hide Laid;
    forall i, j | 0 <= i < j < |out| && DeclaresBody(out[i]) && DeclaresBody(out[j])
      ensures out[i].axes != out[j].axes || out[i].origin != out[j].origin
    {
      AskedBefore(reqs, Need(out[i].axes, out[i].origin.body), i, j);
    }
  }

  ghost predicate Emits(out: seq<FrameDef>, d: FrameDef) {
    exists o :: o in out && SameFrame(o, d)
  }

  lemma EmitsAll(out: seq<FrameDef>, reqs: seq<FrameDef>)
    requires |out| == |reqs| && forall k :: 0 <= k < |reqs| ==> BuiltAs(out, reqs, k)
    ensures forall d :: d in reqs ==> Emits(out, d)
  {
    hide ParentAfter, Findable;
    forall d | d in reqs ensures Emits(out, d) {
      var k :| 0 <= k < |reqs| && reqs[k] == d;
      assert BuiltAs(out, reqs, k);
      assert out[k] in out;
    }
  }

  lemma {:induction false} DeclsRequested(keys: set<Need>, decls: seq<Decl>)
    ensures forall c :: c in decls ==> DeclaredFrame(c) in DeclRequests(keys, decls)
    decreases decls
  {
    if decls != [] {
      var q := Equatorial(decls[0].referenceBody);
      DeclsRequested(keys + {q.need}, decls[1..]);
    }
  }

  ghost predicate HasNeed(out: seq<FrameDef>, n: Need) {
    exists o :: o in out && Meets(o, n)
  }

  lemma NeedsEmitted(out: seq<FrameDef>, reqs: seq<FrameDef>, n: Need)
    requires Alike(out, reqs) && Has(reqs, n)
    ensures HasNeed(out, n)
  {
    var b :| 0 <= b < |reqs| && Meets(reqs[b], n);
    assert out[b] in out && Meets(out[b], n);
  }

  lemma CentralNeedsRequested(scenario: Option<BodyRequest>, central: string, decls: seq<Decl>, n: Need)
    requires Proper(scenario, decls) && n in CentralKeys(scenario, central)
    ensures Has(Requests(scenario, central, decls), n)
  {
    CentralIsLaid(scenario, central);
    var first := CentralRequests(scenario, central);
    var b :| 0 <= b < |first| && Meets(first[b], n);
    assert Requests(scenario, central, decls)[b] == first[b];
  }

  /** Whatever is built holds the scenario's and the central body's frames and every declared frame, each body
      frame once, and its ids are distinct exactly when those asked for are. */
  lemma EmittedAsAsked(scenario: Option<BodyRequest>, central: string, decls: seq<Decl>, g: Gmat)
    requires Proper(scenario, decls) && RegisterAll(Requests(scenario, central, decls), g).Ok?
    ensures var reqs := Requests(scenario, central, decls);
      var out := RegisterAll(reqs, g).value.out;
      && BodiesOnce(out) && (DistinctKeys(out, IdOf) <==> DistinctKeys(reqs, IdOf))
      && (forall n :: n in CentralKeys(scenario, central) ==> HasNeed(out, n))
      && (forall c :: c in decls ==> Emits(out, DeclaredFrame(c)))
  {
    hide Requests, Laid, RegisterAll, BuiltAs, CentralKeys;
    var reqs := Requests(scenario, central, decls);
    var out := RegisterAll(reqs, g).value.out;
    RequestsAreLaid(scenario, central, decls);
    BuiltInTurn(reqs, g);
    SameShape(out, reqs);
    LaidBodiesOnce(reqs, out);
    EmitsAll(out, reqs);
    forall n | n in CentralKeys(scenario, central) ensures HasNeed(out, n) {
      CentralNeedsRequested(scenario, central, decls, n);
      NeedsEmitted(out, reqs, n);
    }
    AllDeclsRequested(scenario, central, decls);
  }

  lemma AllDeclsRequested(scenario: Option<BodyRequest>, central: string, decls: seq<Decl>)
    ensures forall c :: c in decls ==> DeclaredFrame(c) in Requests(scenario, central, decls)
  {
    DeclsRequested(CentralKeys(scenario, central), decls);
  }

  // ---------------------------------------------------------------- what is emitted, field by field

  /** The frames that are not of body axes. */
  function Relative(frames: seq<FrameDef>): seq<FrameDef> {
    if frames == [] then []
    else (if BodyAxes(frames[0].axes) then [] else [frames[0]]) + Relative(frames[1..])
  }

  /** o is the frame a declaration asks for. */
  predicate IsDeclared(o: FrameDef, c: Decl) {
    && o.id == c.id && o.axes == c.kind && o.origin == Entity(c.entity) && o.referenceEntity == c.entity
    && o.referenceBody == c.referenceBody
  }

  ghost predicate AreDeclared(frames: seq<FrameDef>, decls: seq<Decl>) {
    |frames| == |decls| && forall i :: 0 <= i < |decls| ==> IsDeclared(frames[i], decls[i])
  }

  /** o is a body's MJ2000_EQ or BODY_FIXED frame, under the id made of the body and the axes. */
  predicate IsBodyFrame(o: FrameDef) {
    o.origin.Body? &&
    (|| (o.axes.MJ2000Eq? && o.id == o.origin.body + "MJ2000Eq")
     || (o.axes.BodyFixed? && o.id == o.origin.body + "BodyFixed"))
  }

  /** Emitted frames have the ids, axes, origins and references asked for. */
  ghost predicate SameFields(out: seq<FrameDef>, reqs: seq<FrameDef>) {
    |out| == |reqs| && forall k :: 0 <= k < |reqs| ==>
      && out[k].id == reqs[k].id && out[k].axes == reqs[k].axes && out[k].origin == reqs[k].origin
      && out[k].referenceEntity == reqs[k].referenceEntity && out[k].referenceBody == reqs[k].referenceBody
  }

  lemma BuiltHasFields(out: seq<FrameDef>, reqs: seq<FrameDef>)
    requires |out| == |reqs| && forall k :: 0 <= k < |reqs| ==> BuiltAs(out, reqs, k)
    ensures SameFields(out, reqs)
  {
    hide ParentAfter, Findable;
    forall k | 0 <= k < |reqs|
      ensures out[k].id == reqs[k].id && out[k].axes == reqs[k].axes && out[k].origin == reqs[k].origin
      ensures out[k].referenceEntity == reqs[k].referenceEntity && out[k].referenceBody == reqs[k].referenceBody
    {
      assert BuiltAs(out, reqs, k);
    }
  }

  lemma {:induction false} RelativeConcat(a: seq<FrameDef>, b: seq<FrameDef>)
    ensures Relative(a + b) == Relative(a) + Relative(b)
  {
    if a == [] {
      assert a + b == b;
    } else {
      assert (a + b)[1..] == a[1..] + b;
      RelativeConcat(a[1..], b);
    }
  }

  lemma {:induction false} BodyFramesOnly(frames: seq<FrameDef>)
    requires forall d :: d in frames ==> BodyAxes(d.axes)
    ensures Relative(frames) == []
  {
    if frames != [] {
      BodyFramesOnly(frames[1..]);
    }
  }

  lemma {:induction false} RelativeSame(out: seq<FrameDef>, reqs: seq<FrameDef>)
    requires SameFields(out, reqs)
    ensures SameFields(Relative(out), Relative(reqs))
  {
    if reqs != [] {
      RelativeSame(out[1..], reqs[1..]);
    }
  }

  lemma {:induction false} RelativeRequests(keys: set<Need>, decls: seq<Decl>)
    requires forall c :: c in decls ==> ObjectReferenced(c.kind)
    ensures AreDeclared(Relative(DeclRequests(keys, decls)), decls)
    decreases decls
  {
    if decls != [] {
      var q, c := Equatorial(decls[0].referenceBody), decls[0];
      var rest := DeclRequests(keys + {q.need}, decls[1..]);
      RelativeRequests(keys + {q.need}, decls[1..]);
      RelativeConcat(IfNew(keys, q) + [DeclaredFrame(c)], rest);
      RelativeConcat(IfNew(keys, q), [DeclaredFrame(c)]);
      BodyFramesOnly(IfNew(keys, q));
      assert Relative([DeclaredFrame(c)]) == [DeclaredFrame(c)] by { assert [DeclaredFrame(c)][1..] == []; }
      assert Relative(DeclRequests(keys, decls)) == [DeclaredFrame(c)] + Relative(rest);
    }
  }

  lemma CentralIs(scenario: Option<BodyRequest>, central: string)
    requires scenario.Some? ==> BodyAxes(scenario.value.need.axes)
    ensures var reqs := CentralRequests(scenario, central);
      && (scenario.Some? ==> reqs != [] && reqs[0] == Asked(scenario.value))
      && (forall k :: 0 <= k < |reqs| ==> BodyAxes(reqs[k].axes))
      && forall k :: 0 <= k < |reqs| && (scenario.Some? ==> k > 0) ==> IsBodyFrame(reqs[k])
  {
  }

  lemma {:induction false} RequestedBodies(keys: set<Need>, decls: seq<Decl>)
    ensures forall d :: d in DeclRequests(keys, decls) && BodyAxes(d.axes) ==>
      IsBodyFrame(d) || exists c :: c in decls && IsDeclared(d, c)
    decreases decls
  {
    if decls != [] {
      var q := Equatorial(decls[0].referenceBody);
      RequestedBodies(keys + {q.need}, decls[1..]);
      assert IsDeclared(DeclaredFrame(decls[0]), decls[0]);
    }
  }

  /** The frames that are not of body axes are, in the order of the declarations, one for each with its id, axes, entity
      and body.  The scenario's own frame comes first, if it has one; every other frame is some body's MJ2000Eq or
      BodyFixed frame, under that id. */
  lemma EmittedFieldByField(scenario: Option<BodyRequest>, central: string, decls: seq<Decl>, g: Gmat)
    requires Proper(scenario, decls) && RegisterAll(Requests(scenario, central, decls), g).Ok?
    ensures var out := RegisterAll(Requests(scenario, central, decls), g).value.out;
      && AreDeclared(Relative(out), decls)
      && (scenario.Some? ==>
            out != [] && out[0].id == scenario.value.id && out[0].axes == scenario.value.need.axes
            && out[0].origin == Body(scenario.value.need.body))
      && forall k :: 0 <= k < |out| && BodyAxes(out[k].axes) && (scenario.Some? ==> k > 0) ==> IsBodyFrame(out[k])
  {
    hide Laid, RegisterAll, BuiltAs, DeclRequests, CentralRequests, CentralKeys, Relative;
    var reqs := Requests(scenario, central, decls);
    var out := RegisterAll(reqs, g).value.out;
    RequestsAreLaid(scenario, central, decls);
    BuiltInTurn(reqs, g);
    BuiltHasFields(out, reqs);
    RelativeSame(out, reqs);
    var first, rest := CentralRequests(scenario, central), DeclRequests(CentralKeys(scenario, central), decls);
    CentralIs(scenario, central);
    BodyFramesOnly(first);
    RelativeConcat(first, rest);
    RelativeRequests(CentralKeys(scenario, central), decls);
    assert Relative(reqs) == Relative(rest);
    BodiesInPlace(first, rest, out, CentralKeys(scenario, central), decls, scenario);
  }

  lemma BodiesInPlace(first: seq<FrameDef>, rest: seq<FrameDef>, out: seq<FrameDef>, keys: set<Need>, decls: seq<Decl>,
                      scenario: Option<BodyRequest>)
    requires SameFields(out, first + rest) && rest == DeclRequests(keys, decls)
    requires forall c :: c in decls ==> ObjectReferenced(c.kind)
    requires forall k :: 0 <= k < |first| && (scenario.Some? ==> k > 0) ==> IsBodyFrame(first[k])
    ensures forall k :: 0 <= k < |out| && BodyAxes(out[k].axes) && (scenario.Some? && k == 0 ==> first == []) ==>
      IsBodyFrame(out[k])
  {
    hide DeclRequests;
    RequestedBodies(keys, decls);
    var reqs := first + rest;
    forall k | 0 <= k < |out| && BodyAxes(out[k].axes) && (scenario.Some? && k == 0 ==> first == [])
      ensures IsBodyFrame(out[k])
    {
      assert out[k].axes == reqs[k].axes && out[k].origin == reqs[k].origin && out[k].id == reqs[k].id;
      if k < |first| {
        assert reqs[k] == first[k];
      } else {
        assert reqs[k] == rest[k - |first|];
      }
    }
  }

  /** Distinct ids among the requests are enough: every frame keeps its body frame. */
  lemma DistinctIdsKeepFrames(reqs: seq<FrameDef>, k: nat)
    requires Laid(reqs) && DistinctKeys(reqs, IdOf) && k < |reqs|
    ensures KeepsItsFrame(reqs, k)
  {
    if Needed(reqs[k]).Some? {
      var n := Needed(reqs[k]).value;
      assert Fits(reqs[..k], reqs[k]);
      var b :| 0 <= b < k && Meets(reqs[..k][b], n);
      assert reqs[b] == reqs[..k][b];
      assert forall m :: b < m < k ==> IdOf(reqs[b]) != IdOf(reqs[m]);
    }
  }

  // ---------------------------------------------------------------- when the list is built

  /** What an id stands for after some requests: nothing, a frame asked for under it, or one invented for a need. */
  datatype Holder = Free | Taken(at: nat) | InventedFor(n: Need)

  function HolderOf(reqs: seq<FrameDef>, id: string): (h: Holder)
    ensures h.Taken? ==> h.at < |reqs|
  {
    if reqs == [] then Free
    else
      var k := |reqs| - 1;
      var before := HolderOf(reqs[..k], id);
      if reqs[k].id == id then Taken(k)
      else if before.Free? && Lacks(reqs[..k], reqs[k], id) then InventedFor(Needed(reqs[k]).value)
      else before
  }

  /** The body frame d needs was lost, and id is the canonical id of that need. */
  predicate Lacks(before: seq<FrameDef>, d: FrameDef, id: string) {
    Needed(d).Some? && Canonical(Needed(d).value) == id && StandingOf(before, Needed(d).value).Lost?
  }

  /** A parent can be had for the need: its frame stands, or was lost and has a frame invented for it, or can have. */
  predicate Available(before: seq<FrameDef>, n: Need, g: Gmat) {
    match StandingOf(before, n)
    case Stands(_) => true
    case Absent => false
    case Lost(_) =>
      match HolderOf(before, Canonical(n))
      case Free => n.body != "" && g.builds(BodyFrame(Canonical(n), n))
      case InventedFor(m) => m == n
      case Taken(_) => false
  }

  ghost predicate AllAvailable(reqs: seq<FrameDef>, g: Gmat) {
    forall k :: 0 <= k < |reqs| && Needed(reqs[k]).Some? ==> Available(reqs[..k], Needed(reqs[k]).value, g)
  }

  ghost predicate AllChecked(reqs: seq<FrameDef>, g: Gmat) {
    forall d :: d in reqs ==> Checked(d, g).Ok?
  }

  /** What the registry holds under an id. */
  ghost predicate IsHeld(defs: Defs, reqs: seq<FrameDef>, id: string) {
    match HolderOf(reqs, id)
    case Free => id !in defs
    case Taken(j) => id in defs && defs[id].axes == reqs[j].axes && defs[id].origin == reqs[j].origin
    case InventedFor(n) => id in defs && id == Canonical(n) && defs[id] == Invented(n)
  }

  ghost predicate AllHeld(defs: Defs, reqs: seq<FrameDef>) {
    forall id: string :: IsHeld(defs, reqs, id)
  }

  lemma HolderMore(reqs: seq<FrameDef>, d: FrameDef, id: string)
    ensures var before := HolderOf(reqs, id);
      HolderOf(reqs + [d], id) ==
      if d.id == id then Taken(|reqs|)
      else if before.Free? && Lacks(reqs, d, id) then InventedFor(Needed(d).value)
      else before
  {
    assert (reqs + [d])[..|reqs|] == reqs;
  }

  lemma {:induction false} TakenIsLast(reqs: seq<FrameDef>, id: string)
    requires HolderOf(reqs, id).Taken?
    ensures reqs[HolderOf(reqs, id).at].id == id
    ensures forall m :: HolderOf(reqs, id).at < m < |reqs| ==> reqs[m].id != id
  {
    var k := |reqs| - 1;
    if reqs[k].id != id {
      TakenIsLast(reqs[..k], id);
      assert forall m :: 0 <= m < k ==> reqs[..k][m] == reqs[m];
    }
  }

  /** A relative request finds no match exactly when its frame was lost and none is invented for the need. */
  lemma MatchIffHeld(defs: Defs, reqs: seq<FrameDef>, n: Need)
    requires Laid(reqs) && OffersStanding(defs, reqs, n) && IsHeld(defs, reqs, Canonical(n)) && BodyAxes(n.axes)
    requires StandingOf(reqs, n).Lost?
    ensures Find(defs, n).Some? <==> HolderOf(reqs, Canonical(n)) == InventedFor(n)
  {
    hide Laid, Canonical, HolderOf;
    FindIsLeast(defs, n);
    var id := Canonical(n);
    assert Find(defs, n).Some? ==> Meets(defs[id], n) && id in defs;
    assert id in defs && Meets(defs[id], n) ==> Find(defs, n).Some?;
    assert forall m :: Meets(Invented(m), n) <==> m == n;
    if HolderOf(reqs, id).Taken? && Find(defs, n).Some? {
      var j := HolderOf(reqs, Canonical(n)).at;
      StandingMeans(reqs, n);
      TakenIsLast(reqs, Canonical(n));
      OneBodyFrame(reqs, n, StandingOf(reqs, n).at, j);
    }
  }

  lemma RelativeFinds(defs: Defs, reqs: seq<FrameDef>, n: Need, g: Gmat)
    requires Laid(reqs) && OffersStanding(defs, reqs, n) && IsHeld(defs, reqs, Canonical(n)) && BodyAxes(n.axes)
    requires !StandingOf(reqs, n).Absent?
    ensures Find(defs, n).Some? || Inventable(defs, n, g) <==> Available(reqs, n, g)
    ensures Inventable(defs, n, g) ==> StandingOf(reqs, n).Lost? && HolderOf(reqs, Canonical(n)).Free?
    ensures StandingOf(reqs, n).Lost? && HolderOf(reqs, Canonical(n)).Free? ==> Find(defs, n).None?
  {
    hide Laid, Canonical;
    FindIsLeast(defs, n);
    if StandingOf(reqs, n).Lost? {
      MatchIffHeld(defs, reqs, n);
    }
  }

  lemma BodyStaysHeld(defs: Defs, reqs: seq<FrameDef>, d: FrameDef, g: Gmat, id: string)
    requires IsHeld(defs, reqs, id) && DeclaresBody(d) && Registered(defs, d, g).1.Ok?
    ensures IsHeld(Registered(defs, d, g).0, reqs + [d], id)
  {
    hide Registered, Canonical;
    BodyStored(defs, d, g);
    HolderMore(reqs, d, id);
  }

  lemma RelativeStaysHeld(defs: Defs, reqs: seq<FrameDef>, d: FrameDef, g: Gmat, id: string)
    requires Laid(reqs) && Registry(defs, reqs) && AllHeld(defs, reqs) && Fits(reqs, d) && !DeclaresBody(d)
    requires Registered(defs, d, g).1.Ok?
    ensures IsHeld(Registered(defs, d, g).0, reqs + [d], id)
  {
    hide Laid, Registered, Canonical, OffersStanding, HolderOf, StandingOf;
    var n := Needed(d).value;
    assert OffersStanding(defs, reqs, n) && IsHeld(defs, reqs, Canonical(n)) && IsHeld(defs, reqs, id);
    StandingMeans(reqs, n);
    RelativeFinds(defs, reqs, n, g);
    HolderMore(reqs, d, id);
    RelativeStored(defs, d, g);
  }

  lemma RelativeStored(defs: Defs, d: FrameDef, g: Gmat)
    requires !BodyAxes(d.axes) && Needed(d).Some? && Registered(defs, d, g).1.Ok?
    ensures var n := Needed(d).value;
      var more := if Inventable(defs, n, g) then defs[Canonical(n) := Invented(n)] else defs;
      var (after, r) := Registered(defs, d, g);
      && after == more[d.id := r.value] && r.value.axes == d.axes && r.value.origin == d.origin
      && (Find(defs, n).Some? || Inventable(defs, n, g))
  {
    RegisteredResult(defs, d, g);
    RegisteredOkIff(defs, d, g);
  }

  lemma AllHeldMore(defs: Defs, reqs: seq<FrameDef>, d: FrameDef, g: Gmat)
    requires Laid(reqs) && Registry(defs, reqs) && AllHeld(defs, reqs) && Fits(reqs, d) && Registered(defs, d, g).1.Ok?
    ensures AllHeld(Registered(defs, d, g).0, reqs + [d])
  {
    hide Laid, Registry, Fits, Registered, IsHeld;
    forall id: string ensures IsHeld(Registered(defs, d, g).0, reqs + [d], id) {
      assert IsHeld(defs, reqs, id);
      if DeclaresBody(d) {
        BodyStaysHeld(defs, reqs, d, g, id);
      } else {
        RelativeStaysHeld(defs, reqs, d, g, id);
      }
    }
  }

  lemma NothingHeld()
    ensures AllHeld(map[], [])
  {
  }

  lemma FrontIsBuilt(reqs: seq<FrameDef>, g: Gmat)
    requires reqs != [] && RegisterAll(reqs, g).Ok?
    ensures RegisterAll(reqs[..|reqs| - 1], g).Ok?
    ensures var p, d := RegisterAll(reqs[..|reqs| - 1], g).value, reqs[|reqs| - 1];
      Registered(p.defs, d, g).1.Ok? && RegisterAll(reqs, g).value.defs == Registered(p.defs, d, g).0
  {
    hide Registered;
  }

  lemma RegistryHolds(reqs: seq<FrameDef>, g: Gmat)
    requires Laid(reqs) && RegisterAll(reqs, g).Ok?
    ensures Registry(RegisterAll(reqs, g).value.defs, reqs)
  {
    BuiltInTurn(reqs, g);
  }

  lemma AllHeldNext(reqs: seq<FrameDef>, g: Gmat)
    requires reqs != [] && Laid(reqs) && RegisterAll(reqs, g).Ok?
    ensures var front := reqs[..|reqs| - 1];
      && Laid(front) && RegisterAll(front, g).Ok?
      && (AllHeld(RegisterAll(front, g).value.defs, front) ==> AllHeld(RegisterAll(reqs, g).value.defs, reqs))
  {
    hide *;
    var front, d := reqs[..|reqs| - 1], reqs[|reqs| - 1];
    assert reqs == front + [d];
    FrontIsLaid(reqs);
    FrontIsBuilt(reqs, g);
    RegistryHolds(front, g);
    if AllHeld(RegisterAll(front, g).value.defs, front) {
      AllHeldMore(RegisterAll(front, g).value.defs, front, d, g);
    }
  }

  lemma {:induction false} BuiltHolds(reqs: seq<FrameDef>, g: Gmat)
    requires Laid(reqs) && RegisterAll(reqs, g).Ok?
    ensures AllHeld(RegisterAll(reqs, g).value.defs, reqs)
  {
    if reqs == [] {
      NothingHeld();
    } else {
      hide *;
      AllHeldNext(reqs, g);
      BuiltHolds(reqs[..|reqs| - 1], g);
    }
  }

  /** The next request is registered exactly when it passes its own checks and a parent can be had for its need. */
  lemma NextBuiltIff(front: seq<FrameDef>, d: FrameDef, g: Gmat)
    requires Laid(front) && Fits(front, d) && RegisterAll(front, g).Ok?
    ensures RegisterAll(front + [d], g).Ok? <==>
      Checked(d, g).Ok? && (Needed(d).Some? ==> Available(front, Needed(d).value, g))
  {
    hide Laid, Registered, Checked, RegisterAll, Canonical, Available, OffersStanding, IsHeld;
    var p := RegisterAll(front, g).value;
    RegisterAllOneMore(front, d, g, p);
    RegisteredOkIff(p.defs, d, g);
    if Needed(d).Some? {
      var n := Needed(d).value;
      BuiltInTurn(front, g);
      BuiltHolds(front, g);
      assert OffersStanding(p.defs, front, n) && IsHeld(p.defs, front, Canonical(n));
      StandingMeans(front, n);
      RelativeFinds(p.defs, front, n, g);
    }
  }

  lemma AllMore(front: seq<FrameDef>, d: FrameDef, g: Gmat)
    ensures AllChecked(front + [d], g) <==> AllChecked(front, g) && Checked(d, g).Ok?
    ensures AllAvailable(front + [d], g) <==>
      AllAvailable(front, g) && (Needed(d).Some? ==> Available(front, Needed(d).value, g))
  {
    hide Checked, Available;
    var reqs := front + [d];
    assert reqs[..|front|] == front && reqs[|front|] == d;
    assert forall k :: 0 <= k < |front| ==> reqs[..k] == front[..k] && reqs[k] == front[k];
  }

  lemma NothingBuilt(g: Gmat)
    ensures RegisterAll([], g).Ok? && AllChecked([], g) && AllAvailable([], g)
  {
    hide Checked, Available;
  }

  lemma {:induction false} BuiltIff(reqs: seq<FrameDef>, g: Gmat)
    requires Laid(reqs)
    ensures RegisterAll(reqs, g).Ok? <==> AllChecked(reqs, g) && AllAvailable(reqs, g)
  {
    hide Laid, Fits, AllChecked, AllAvailable, Checked, Available, RegisterAll, Needed;
    if reqs == [] {
      NothingBuilt(g);
    } else {
      var front, d := reqs[..|reqs| - 1], reqs[|reqs| - 1];
      assert reqs == front + [d];
      FrontIsLaid(reqs);
      BuiltIff(front, g);
      AllMore(front, d, g);
      if RegisterAll(front, g).Ok? {
        NextBuiltIff(front, d, g);
      } else {
        RegisterAllFails(reqs, |front|, g);
      }
    }
  }

  /** The list is built exactly when every definition passes its own checks and every declared frame, at its turn,
      finds its body frame, or that frame was lost and another is, or can be, invented under the canonical id. */
  lemma FramesBuiltIff(scenario: Option<BodyRequest>, central: string, decls: seq<Decl>, g: Gmat)
    requires Proper(scenario, decls)
    ensures var reqs := Requests(scenario, central, decls);
      RegisterAll(reqs, g).Ok? <==> AllChecked(reqs, g) && AllAvailable(reqs, g)
  {
    hide Requests, Laid;
    RequestsAreLaid(scenario, central, decls);
    BuiltIff(Requests(scenario, central, decls), g);
  }

  ghost predicate AllKept(reqs: seq<FrameDef>) {
    forall k :: 0 <= k < |reqs| ==> KeepsItsFrame(reqs, k)
  }

  lemma KeptIsAvailable(reqs: seq<FrameDef>, g: Gmat)
    requires Laid(reqs) && AllKept(reqs)
    ensures AllAvailable(reqs, g)
  {
    hide Laid, KeepsItsFrame, StandingOf, HolderOf;
    forall k | 0 <= k < |reqs| && Needed(reqs[k]).Some? ensures Available(reqs[..k], Needed(reqs[k]).value, g) {
      assert KeepsItsFrame(reqs, k);
      KeepsIff(reqs, k);
    }
  }

  /** So when every declared frame's body frame keeps its id no registration fails for its parent. */
  lemma BuiltIffChecked(scenario: Option<BodyRequest>, central: string, decls: seq<Decl>, g: Gmat)
    requires Proper(scenario, decls) && AllKept(Requests(scenario, central, decls))
    ensures RegisterAll(Requests(scenario, central, decls), g).Ok? <==>
      AllChecked(Requests(scenario, central, decls), g)
  {
    hide Requests, Laid, AllKept, AllChecked, AllAvailable;
    RequestsAreLaid(scenario, central, decls);
    FramesBuiltIff(scenario, central, decls, g);
    KeptIsAvailable(Requests(scenario, central, decls), g);
  }

  // ---------------------------------------------------------------- a declared frame under a body frame's id

  function EarthRequests(decls: seq<Decl>): seq<FrameDef> {
    Requests(None, "Earth", decls)
  }

  lemma TwoAboutEarth(c: Decl, d: Decl)
    requires c.referenceBody == d.referenceBody == "Earth"
    ensures EarthRequests([c, d])
      == [Asked(Equatorial("Earth")), Asked(Fixed("Earth")), DeclaredFrame(c), DeclaredFrame(d)]
  {
    var keys := CentralKeys(None, "Earth");
    assert Equatorial("Earth").need in keys;
    assert keys + {Equatorial("Earth").need} == keys;
    assert [c, d][1..] == [d] && [d][1..] == [];
    assert DeclRequests(keys, [d]) == [DeclaredFrame(d)];
    assert DeclRequests(keys, [c, d]) == [DeclaredFrame(c), DeclaredFrame(d)];
  }

  /** A RIC frame declared under "EarthMJ2000Eq" and a second RIC frame about Earth: both are accepted, the first
      is its own parent, and the second hangs from an invented frame that is not emitted. */
  lemma FrameUnderBodyFramesId(g: Gmat)
    requires (forall d :: g.builds(d)) && forall e :: g.spacecraft(e)
    ensures var reqs := EarthRequests([Decl("EarthMJ2000Eq", RIC, "sat", "Earth"), Decl("relay", RIC, "sat", "Earth")]);
      RegisterAll(reqs, g).Ok? &&
      var out := RegisterAll(reqs, g).value.out;
      && |out| == 4 && out[2].parent == out[2].id
      && out[3].parent == Canonical(Need(MJ2000Eq, "Earth")) && !ParentClosed(out)
  {
    hide RegisterAll, Laid, Available, AllChecked;
    var c, d := Decl("EarthMJ2000Eq", RIC, "sat", "Earth"), Decl("relay", RIC, "sat", "Earth");
    var reqs := EarthRequests([c, d]);
    TwoAboutEarth(c, d);
    RequestsAreLaid(None, "Earth", [c, d]);
    FourAreChecked(reqs, g);
    FourAreAvailable(reqs, g);
    BuiltIff(reqs, g);
    FourthIsLost(reqs, g);
  }

  lemma EarthNames()
    ensures Canonical(Need(MJ2000Eq, "Earth")) !in {"EarthMJ2000Eq", "EarthBodyFixed", "relay"}
    ensures Equatorial("Earth").id == "EarthMJ2000Eq" && Fixed("Earth").id == "EarthBodyFixed"
    ensures "EarthMJ2000Eq" != "EarthBodyFixed"
  {
    assert Canonical(Need(MJ2000Eq, "Earth"))[0] == 'g';
    assert "EarthMJ2000Eq"[0] == 'E' && "EarthBodyFixed"[0] == 'E' && "relay"[0] == 'r';
    assert "EarthMJ2000Eq"[5] == 'M' && "EarthBodyFixed"[5] == 'B';
  }

  ghost predicate EarthFour(reqs: seq<FrameDef>) {
    reqs == [Asked(Equatorial("Earth")), Asked(Fixed("Earth")),
             DeclaredFrame(Decl("EarthMJ2000Eq", RIC, "sat", "Earth")),
             DeclaredFrame(Decl("relay", RIC, "sat", "Earth"))]
  }

  lemma FourAreChecked(reqs: seq<FrameDef>, g: Gmat)
    requires EarthFour(reqs) && (forall d :: g.builds(d)) && forall e :: g.spacecraft(e)
    ensures AllChecked(reqs, g)
  {
    assert forall d :: d in reqs ==> d == reqs[0] || d == reqs[1] || d == reqs[2] || d == reqs[3];
  }

  /** The first RIC frame finds its body frame; the second has lost it, and the canonical id is free. */
  lemma FourAreAvailable(reqs: seq<FrameDef>, g: Gmat)
    requires EarthFour(reqs) && forall d :: g.builds(d)
    ensures AllAvailable(reqs, g)
  {
    hide StandingOf, HolderOf, Canonical;
    var n := Need(MJ2000Eq, "Earth");
    LostAfterThree(reqs);
    FreeAfterThree(reqs);
    forall k | 0 <= k < |reqs| && Needed(reqs[k]).Some? ensures Available(reqs[..k], Needed(reqs[k]).value, g) {
      assert k == 2 || k == 3;
    }
  }

  lemma FreeAfterThree(reqs: seq<FrameDef>)
    requires EarthFour(reqs)
    ensures HolderOf(reqs[..3], Canonical(Need(MJ2000Eq, "Earth"))).Free?
  {
    hide StandingOf, Canonical;
    EarthNames();
    LostAfterThree(reqs);
    var id := Canonical(Need(MJ2000Eq, "Earth"));
    HolderMore([], reqs[0], id);
    HolderMore([reqs[0]], reqs[1], id);
    HolderMore([reqs[0], reqs[1]], reqs[2], id);
    assert [] + [reqs[0]] == [reqs[0]];
    assert reqs[..2] == [reqs[0]] + [reqs[1]] == [reqs[0], reqs[1]];
    assert reqs[..3] == [reqs[0], reqs[1]] + [reqs[2]];
  }

  lemma LostAfterThree(reqs: seq<FrameDef>)
    requires EarthFour(reqs)
    ensures StandingOf(reqs[..2], Need(MJ2000Eq, "Earth")) == Stands(0)
    ensures StandingOf(reqs[..3], Need(MJ2000Eq, "Earth")) == Lost(0)
  {
    EarthNames();
    var n := Need(MJ2000Eq, "Earth");
    StandingMore([], reqs[0], n);
    StandingMore([reqs[0]], reqs[1], n);
    StandingMore([reqs[0], reqs[1]], reqs[2], n);
    assert [] + [reqs[0]] == [reqs[0]];
    assert reqs[..2] == [reqs[0]] + [reqs[1]] == [reqs[0], reqs[1]];
    assert reqs[..3] == [reqs[0], reqs[1]] + [reqs[2]];
  }

  lemma FourthIsLost(reqs: seq<FrameDef>, g: Gmat)
    requires EarthFour(reqs) && Laid(reqs) && RegisterAll(reqs, g).Ok?
    ensures var out := RegisterAll(reqs, g).value.out;
      |out| == 4 && out[2].parent == out[2].id && out[3].parent == Canonical(Need(MJ2000Eq, "Earth"))
        && !ParentClosed(out)
  {
    hide Laid, RegisterAll, BuiltAs, Ids, ParentClosed;
    BuiltInTurn(reqs, g);
    var out := RegisterAll(reqs, g).value.out;
    SameShape(out, reqs);
    SameIdsInPlace(out, reqs);
    ParentsOfFour(out, reqs);
    EarthIds(reqs);
    NotClosed(out, 3);
  }

  lemma NotClosed(out: seq<FrameDef>, k: nat)
    requires k < |out| && out[k].parent != "" && out[k].parent !in Ids(out)
    ensures !ParentClosed(out)
  {
    assert out[k] in out;
  }

  lemma EarthIds(reqs: seq<FrameDef>)
    requires EarthFour(reqs)
    ensures Canonical(Need(MJ2000Eq, "Earth")) !in Ids(reqs) && Canonical(Need(MJ2000Eq, "Earth")) != ""
  {
    EarthNames();
    assert Canonical(Need(MJ2000Eq, "Earth"))[0] == 'g';
  }

  lemma ParentsOfFour(out: seq<FrameDef>, reqs: seq<FrameDef>)
    requires EarthFour(reqs) && Alike(out, reqs) && BuiltAs(out, reqs, 2) && BuiltAs(out, reqs, 3)
    ensures out[2].parent == out[2].id && out[3].parent == Canonical(Need(MJ2000Eq, "Earth"))
  {
    hide StandingOf, SameFrame, Findable;
    EarthNames();
    LostAfterThree(reqs);
    assert reqs[..2][0] == reqs[0];
  }
}
