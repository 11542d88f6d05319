/** The two builders of a frame list: `frames_to_viewer_json` of altavista/cdm.py and the registrations of
    `Scenario._build_frames` of altavista/scenario.py. */
module FrameLists {
  import opened Base
  import opened Ordering
  import opened Frames

  function IdOf(d: FrameDef): string { d.id }

  /** o is d with its GMAT name and its parent filled in. */
  predicate SameFrame(o: FrameDef, d: FrameDef) {
    o == d.(gmatName := o.gmatName, parent := o.parent)
  }

  // ---------------------------------------------------------------- the code

  datatype Refusal = Refusal(id: string, reason: FrameError)

  predicate DeclaresBody(d: FrameDef) {
    d.origin.Body? && BodyAxes(d.axes)
  }

  function BodyFrames(ds: seq<FrameDef>): seq<FrameDef> {
    if ds == [] then [] else (if DeclaresBody(ds[0]) then [ds[0]] else []) + BodyFrames(ds[1..])
  }

  function Except(ds: seq<FrameDef>, ids: set<string>): seq<FrameDef> {
    if ds == [] then [] else (if ds[0].id in ids then [] else [ds[0]]) + Except(ds[1..], ids)
  }

  function Ids(ds: seq<FrameDef>): set<string> {
    set d | d in ds :: d.id
  }

  function Bodies(ds: seq<FrameDef>): seq<FrameDef> {
    BodyFrames(Sort(ds, IdOf, StringLeq))
  }

  function Others(ds: seq<FrameDef>): seq<FrameDef> {
    Except(Sort(ds, IdOf, StringLeq), Ids(Bodies(ds)))
  }

  datatype Progress = Progress(defs: Defs, out: seq<FrameDef>)

  /** Registering ds in turn in a new registry, up to the first refusal. */
  function RegisterAll(ds: seq<FrameDef>, g: Gmat): Result<Progress, Refusal> {
    if ds == [] then Ok(Progress(map[], []))
    else
      match RegisterAll(ds[..|ds| - 1], g)
      case Err(e) => Err(e)
      case Ok(p) => Next(p, ds[|ds| - 1], g)
  }

  function Next(p: Progress, d: FrameDef, g: Gmat): Result<Progress, Refusal> {
    var (after, r) := Registered(p.defs, d, g);
    match r
    case Err(e) => Err(Refusal(d.id, e))
    case Ok(o) => Ok(Progress(after, p.out + [o]))
  }

  lemma NextSame(p: Progress, d: FrameDef, g: Gmat)
    requires Next(p, d, g).Ok?
    ensures var q := Next(p, d, g).value;
      |q.out| == |p.out| + 1 && q.out[..|p.out|] == p.out && SameFrame(q.out[|p.out|], d)
  {
    RegisteredResult(p.defs, d, g);
  }

  lemma RegisterAllNext(ds: seq<FrameDef>, k: nat, g: Gmat, p: Progress)
    requires k < |ds| && RegisterAll(ds[..k], g) == Ok(p)
    ensures RegisterAll(ds[..k + 1], g) == Next(p, ds[k], g)
  {
    assert ds[..k + 1][..k] == ds[..k];
  }

  function ViewerFrames(ds: seq<FrameDef>, g: Gmat): Result<seq<FrameDef>, Refusal> {
    match RegisterAll(Bodies(ds) + Others(ds), g)
    case Err(e) => Err(e)
    case Ok(p) => Ok(Sort(p.out, IdOf, StringLeq))
  }

  lemma {:induction false} RegisterAllFails(ds: seq<FrameDef>, k: nat, g: Gmat)
    requires k <= |ds| && RegisterAll(ds[..k], g).Err?
    ensures RegisterAll(ds, g) == RegisterAll(ds[..k], g)
  {
    if k == |ds| {
      assert ds[..k] == ds;
    } else {
      assert ds[..|ds| - 1][..k] == ds[..k];
      RegisterAllFails(ds[..|ds| - 1], k, g);
    }
  }

  method FramesToViewerJson(ds: seq<FrameDef>, g: Gmat) returns (r: Result<seq<FrameDef>, Refusal>)
    ensures r == ViewerFrames(ds, g)
  {
    hide Registered, Sort, BodyFrames, Except;
    var registry := new FrameRegistry();
    var todo := Bodies(ds) + Others(ds);
    var registered: seq<FrameDef> := [];
    var i := 0;
    while i < |todo|
      invariant 0 <= i <= |todo| && fresh(registry)
      invariant RegisterAll(todo[..i], g) == Ok(Progress(registry.defs, registered))
    {
      RegisterAllNext(todo, i, g, Progress(registry.defs, registered));
      var one := registry.Register(todo[i], g);
      if one.Err? {
        RegisterAllFails(todo, i + 1, g);
        return Err(Refusal(todo[i].id, one.error));
      }
      registered := registered + [one.value];
      i := i + 1;
    }
    assert todo[..i] == todo;
    r := Ok(Sort(registered, IdOf, StringLeq));
  }

  // ---------------------------------------------------------------- the list and its order

  /** When no id stands for two definitions the frame list does not depend on their order. */
  lemma OrderDoesNotMatter(a: seq<FrameDef>, b: seq<FrameDef>, g: Gmat)
    requires multiset(a) == multiset(b) && KeyDetermines(a, IdOf)
    ensures ViewerFrames(a, g) == ViewerFrames(b, g)
  {
    StringOrder();
    SortOfSameElements(a, b, IdOf, StringLeq);
  }

  lemma DistinctCons(ds: seq<FrameDef>, sub: seq<FrameDef>)
    requires ds != [] && DistinctKeys(ds, IdOf) && DistinctKeys(sub, IdOf) && forall d :: d in sub ==> d in ds[1..]
    ensures DistinctKeys([ds[0]] + sub, IdOf)
  {
    forall d | d in sub ensures d.id != ds[0].id {
      var i :| 0 <= i < |ds[1..]| && ds[1..][i] == d;
      assert ds[i + 1] == d;
    }
  }

  lemma {:induction false} BodyFramesAre(ds: seq<FrameDef>)
    ensures forall d :: d in BodyFrames(ds) <==> d in ds && DeclaresBody(d)
    ensures DistinctKeys(ds, IdOf) ==> DistinctKeys(BodyFrames(ds), IdOf)
  {
    if ds != [] {
      BodyFramesAre(ds[1..]);
      if DistinctKeys(ds, IdOf) {
        DistinctCons(ds, BodyFrames(ds[1..]));
      }
    }
  }

  lemma {:induction false} ExceptIs(ds: seq<FrameDef>, ids: set<string>)
    ensures forall d :: d in Except(ds, ids) <==> d in ds && d.id !in ids
  {
    if ds != [] {
      ExceptIs(ds[1..], ids);
    }
  }

  lemma SortedElements(ds: seq<FrameDef>)
    ensures forall d :: d in Sort(ds, IdOf, StringLeq) <==> d in ds
    ensures |Sort(ds, IdOf, StringLeq)| == |ds| && Ordered(Sort(ds, IdOf, StringLeq), IdOf, StringLeq)
    ensures DistinctKeys(ds, IdOf) ==> DistinctKeys(Sort(ds, IdOf, StringLeq), IdOf)
  {
    StringOrder();
    SortIsStable(ds, IdOf, StringLeq);
    forall d ensures d in Sort(ds, IdOf, StringLeq) <==> d in ds {
      assert d in multiset(Sort(ds, IdOf, StringLeq)) <==> d in multiset(ds);
    }
    if DistinctKeys(ds, IdOf) {
      DistinctKeysOfMultiset(ds, Sort(ds, IdOf, StringLeq), IdOf);
    }
  }

  /** With distinct ids the frames are split into the body frames and the rest, each id once. */
  lemma Split(ds: seq<FrameDef>)
    requires DistinctKeys(ds, IdOf)
    ensures forall d :: d in Bodies(ds) <==> d in ds && DeclaresBody(d)
    ensures forall d :: d in Others(ds) <==> d in ds && !DeclaresBody(d)
    ensures DistinctKeys(Bodies(ds), IdOf)
    ensures Ids(Bodies(ds)) !! Ids(Others(ds))
  {
    var s := Sort(ds, IdOf, StringLeq);
    SortedElements(ds);
    BodyFramesAre(s);
    ExceptIs(s, Ids(Bodies(ds)));
    forall d | d in ds && d.id in Ids(Bodies(ds)) ensures DeclaresBody(d) {
      var b :| b in Bodies(ds) && b.id == d.id;
      var i :| 0 <= i < |ds| && ds[i] == b;
      var j :| 0 <= j < |ds| && ds[j] == d;
      assert i == j;
    }
  }

  lemma {:induction false} PartsOrdered(ds: seq<FrameDef>, ids: set<string>)
    requires Ordered(ds, IdOf, StringLeq)
    ensures Ordered(BodyFrames(ds), IdOf, StringLeq) && Ordered(Except(ds, ids), IdOf, StringLeq)
  {
    if ds != [] {
      assert ds == [ds[0]] + ds[1..];
      PartsOrdered(ds[1..], ids);
      BodyFramesAre(ds[1..]);
      ExceptIs(ds[1..], ids);
      forall d | d in ds[1..] ensures StringLeq(IdOf(ds[0]), IdOf(d)) {
        var i :| 0 <= i < |ds[1..]| && ds[1..][i] == d;
        assert ds[i + 1] == d;
      }
      OrderedCons(ds[0], BodyFrames(ds[1..]));
      OrderedCons(ds[0], Except(ds[1..], ids));
    }
  }

  lemma OrderedCons(d: FrameDef, rest: seq<FrameDef>)
    requires Ordered(rest, IdOf, StringLeq) && forall o :: o in rest ==> StringLeq(IdOf(d), IdOf(o))
    ensures Ordered([d] + rest, IdOf, StringLeq)
  {
  }

  /** The frames are taken in two runs, each by id: those of body axes about a body, and those under no id of these. */
  lemma TurnsAre(ds: seq<FrameDef>)
    ensures forall d :: d in Bodies(ds) <==>
      d in ds && d.origin.Body? && d.axes in {ICRF, MJ2000Eq, MJ2000Ec, BodyFixed}
    ensures forall d :: d in Others(ds) <==> d in ds && forall b :: b in Bodies(ds) ==> b.id != d.id
    ensures Ordered(Bodies(ds), IdOf, StringLeq) && Ordered(Others(ds), IdOf, StringLeq)
  {
    var s := Sort(ds, IdOf, StringLeq);
    SortedElements(ds);
    BodyFramesAre(s);
    ExceptIs(s, Ids(Bodies(ds)));
    PartsOrdered(s, Ids(Bodies(ds)));
  }

  /** A refusal names the first frame refused, with the reason of its registration after all the frames before it. */
  lemma {:induction false} RefusedIsFirst(ds: seq<FrameDef>, g: Gmat) returns (k: nat)
    requires RegisterAll(ds, g).Err?
    ensures k < |ds| && RegisterAll(ds[..k], g).Ok? && RegisterAll(ds, g).error.id == ds[k].id
    ensures Registered(RegisterAll(ds[..k], g).value.defs, ds[k], g).1 == Err(RegisterAll(ds, g).error.reason)
  {
    hide Registered;
    var front := ds[..|ds| - 1];
    if RegisterAll(front, g).Err? {
      k := RefusedIsFirst(front, g);
      assert front[..k] == ds[..k];
    } else {
      k := |ds| - 1;
    }
  }

  // ---------------------------------------------------------------- parents

  /** The ids of the declared frames that meet a need. */
  function Declared(ds: seq<FrameDef>, n: Need): set<string> {
    set d | d in ds && Meets(d, n) :: d.id
  }

  /** The smallest declared id that meets the need, or the canonical id. */
  function RuleParent(ds: seq<FrameDef>, n: Need): string {
    if Declared(ds, n) != {} then Least(Declared(ds, n)) else Canonical(n)
  }

  /** The parent the rule gives a registered frame. */
  ghost predicate HasRuleParent(ds: seq<FrameDef>, o: FrameDef) {
    match Needed(o)
    case Some(n) => o.parent == RuleParent(ds, n)
    case None =>
      if o.axes.PlatformBody? then o.attitude.Some? && o.parent == o.attitude.value.referenceFrame != ""
      else o.parent == ""
  }

  ghost predicate AllSame(out: seq<FrameDef>, ds: seq<FrameDef>) {
    |out| == |ds| && forall i :: 0 <= i < |ds| ==> SameFrame(out[i], ds[i])
  }

  lemma {:induction false} RegisterAllSame(ds: seq<FrameDef>, g: Gmat)
    requires RegisterAll(ds, g).Ok?
    ensures AllSame(RegisterAll(ds, g).value.out, ds)
  {
    hide Next, SameFrame;
    if ds != [] {
      var front, last := ds[..|ds| - 1], ds[|ds| - 1];
      RegisterAllSame(front, g);
      NextSame(RegisterAll(front, g).value, last, g);
    }
  }

  lemma BodyFrameAdds(defs: Defs, d: FrameDef, g: Gmat, n: Need)
    requires DeclaresBody(d) && d.id !in defs && Registered(defs, d, g).1.Ok?
    ensures Matches(Registered(defs, d, g).0, n) == Matches(defs, n) + (if Meets(d, n) then {d.id} else {})
    ensures Registered(defs, d, g).0.Keys == defs.Keys + {d.id}
  {
    RegisteredResult(defs, d, g);
    var o := Registered(defs, d, g).1.value;
    assert Registered(defs, d, g).0 == defs[d.id := o] && Meets(o, n) == Meets(d, n);
  }

  /** Registering body frames with distinct ids makes exactly them available. */
  lemma {:induction false} BodiesAdd(ds: seq<FrameDef>, g: Gmat, n: Need)
    requires forall d :: d in ds ==> DeclaresBody(d)
    requires DistinctKeys(ds, IdOf) && RegisterAll(ds, g).Ok?
    ensures Matches(RegisterAll(ds, g).value.defs, n) == Declared(ds, n)
    ensures RegisterAll(ds, g).value.defs.Keys == Ids(ds)
  {
    if ds != [] {
      var front, last := ds[..|ds| - 1], ds[|ds| - 1];
      BodiesAdd(front, g, n);
      assert last.id !in Ids(front);
      BodyFrameAdds(RegisterAll(front, g).value.defs, last, g, n);
      assert ds == front + [last];
      DeclaredLast(front, last, n);
    }
  }

  lemma DeclaredLast(front: seq<FrameDef>, last: FrameDef, n: Need)
    ensures Declared(front + [last], n) == Declared(front, n) + (if Meets(last, n) then {last.id} else {})
    ensures Ids(front + [last]) == Ids(front) + {last.id}
  {
    assert forall d :: d in front + [last] <==> d in front || d == last;
  }

  /** What the registry offers for a need: the declared frames, or else at most the canonical one. */
  ghost predicate Offers(defs: Defs, bodies: seq<FrameDef>, n: Need) {
    if Declared(bodies, n) != {} then Matches(defs, n) == Declared(bodies, n) else Matches(defs, n) <= {Canonical(n)}
  }

  lemma OfferedParent(defs: Defs, bodies: seq<FrameDef>, n: Need)
    requires Offers(defs, bodies, n)
    ensures ParentFor(defs, n) == RuleParent(bodies, n)
  {
  }

  lemma InventedMatches(defs: Defs, m: Need, n: Need)
    requires Canonical(m) !in defs
    ensures Matches(defs[Canonical(m) := Invented(m)], n) == Matches(defs, n) + (if m == n then {Canonical(m)} else {})
  {
    assert Meets(Invented(m), n) <==> m == n;
  }

  lemma StoredMatches(defs: Defs, o: FrameDef, n: Need)
    requires !Meets(o, n)
    ensures Matches(defs[o.id := o], n) == Matches(defs, n) - {o.id}
  {
  }

  lemma OtherFrameOffers(defs: Defs, d: FrameDef, g: Gmat, bodies: seq<FrameDef>, n: Need)
    requires Registered(defs, d, g).1.Ok? && !BodyAxes(d.axes) && BodyAxes(n.axes) && d.id !in Ids(bodies)
    requires Offers(defs, bodies, n)
    ensures Offers(Registered(defs, d, g).0, bodies, n)
  {
    var o := Registered(defs, d, g).1.value;
    RegisteredResult(defs, d, g);
    var more := if Needed(d).Some? then Ensured(defs, Needed(d).value, g).0 else defs;
    assert Registered(defs, d, g).0 == more[o.id := o];
    if more != defs {
      InventedMatches(defs, Needed(d).value, n);
      assert Find(defs, Needed(d).value).None?;
    }
    StoredMatches(more, o, n);
    assert d.id !in Declared(bodies, n);
  }

  lemma OtherFrameParent(defs: Defs, d: FrameDef, g: Gmat, bodies: seq<FrameDef>)
    requires Registered(defs, d, g).1.Ok? && !BodyAxes(d.axes)
    requires Needed(d).Some? ==> Offers(defs, bodies, Needed(d).value)
    ensures HasRuleParent(bodies, Registered(defs, d, g).1.value)
  {
    RegisteredResult(defs, d, g);
    assert Needed(Registered(defs, d, g).1.value) == Needed(d);
    if Needed(d).Some? {
      OfferedParent(defs, bodies, Needed(d).value);
    }
  }

  /** The body frames stay on offer, and what was registered has the parent of the rule. */
  ghost predicate RuleKept(p: Progress, bodies: seq<FrameDef>) {
    && (forall n: Need :: BodyAxes(n.axes) ==> Offers(p.defs, bodies, n))
    && (forall o :: o in p.out ==> HasRuleParent(bodies, o))
  }

  lemma OtherKeepsRule(p: Progress, d: FrameDef, g: Gmat, bodies: seq<FrameDef>)
    requires RuleKept(p, bodies) && Next(p, d, g).Ok? && !DeclaresBody(d) && d.id !in Ids(bodies)
    ensures RuleKept(Next(p, d, g).value, bodies)
  {
    assert !BodyAxes(d.axes);
    OtherFrameParent(p.defs, d, g, bodies);
    forall n: Need | BodyAxes(n.axes) ensures Offers(Next(p, d, g).value.defs, bodies, n) {
      OtherFrameOffers(p.defs, d, g, bodies, n);
    }
  }

  lemma BodiesKeepRule(bodies: seq<FrameDef>, g: Gmat)
    requires forall d :: d in bodies ==> DeclaresBody(d)
    requires DistinctKeys(bodies, IdOf) && RegisterAll(bodies, g).Ok?
    ensures RuleKept(RegisterAll(bodies, g).value, bodies)
  {
    forall n: Need ensures Offers(RegisterAll(bodies, g).value.defs, bodies, n) {
      BodiesAdd(bodies, g, n);
    }
    BodiesHaveRuleParents(bodies, g, bodies);
  }

  /** Frames registered after the body frames leave them on offer and get the parent of the rule. */
  lemma {:induction false} OthersGetRuleParents(bodies: seq<FrameDef>, others: seq<FrameDef>, g: Gmat)
    requires forall d :: d in bodies ==> DeclaresBody(d)
    requires forall d :: d in others ==> !DeclaresBody(d) && d.id !in Ids(bodies)
    requires DistinctKeys(bodies, IdOf) && RegisterAll(bodies + others, g).Ok?
    ensures RuleKept(RegisterAll(bodies + others, g).value, bodies)
    decreases |others|
  {
    hide RuleKept, Next;
    if others == [] {
      assert bodies + others == bodies;
      BodiesKeepRule(bodies, g);
    } else {
      var front, d := others[..|others| - 1], others[|others| - 1];
      assert (bodies + others)[..|bodies + others| - 1] == bodies + front;
      OthersGetRuleParents(bodies, front, g);
      OtherKeepsRule(RegisterAll(bodies + front, g).value, d, g, bodies);
    }
  }

  lemma BodyIsRoot(defs: Defs, d: FrameDef, g: Gmat, bodies: seq<FrameDef>)
    requires DeclaresBody(d) && Registered(defs, d, g).1.Ok?
    ensures HasRuleParent(bodies, Registered(defs, d, g).1.value)
  {
    RegisteredResult(defs, d, g);
  }

  lemma {:induction false} BodiesHaveRuleParents(ds: seq<FrameDef>, g: Gmat, bodies: seq<FrameDef>)
    requires forall d :: d in ds ==> DeclaresBody(d)
    requires RegisterAll(ds, g).Ok?
    ensures forall o :: o in RegisterAll(ds, g).value.out ==> HasRuleParent(bodies, o)
  {
    if ds != [] {
      var front, last := ds[..|ds| - 1], ds[|ds| - 1];
      BodiesHaveRuleParents(front, g, bodies);
      var defs := RegisterAll(front, g).value.defs;
      BodyIsRoot(defs, last, g, bodies);
      assert RegisterAll(ds, g).value.out == RegisterAll(front, g).value.out + [Registered(defs, last, g).1.value];
    }
  }

  lemma DeclaredInBodies(ds: seq<FrameDef>, n: Need)
    requires DistinctKeys(ds, IdOf) && BodyAxes(n.axes)
    ensures Declared(Bodies(ds), n) == Declared(ds, n)
  {
    Split(ds);
    assert forall d :: Meets(d, n) ==> DeclaresBody(d);
  }

  ghost predicate Among(d: FrameDef, out: seq<FrameDef>) {
    exists o :: o in out && SameFrame(o, d)
  }

  ghost predicate From(o: FrameDef, ds: seq<FrameDef>) {
    exists d :: d in ds && SameFrame(o, d)
  }

  /** The frames of out are those of ds, with GMAT names and parents filled in. */
  ghost predicate Corresponds(out: seq<FrameDef>, ds: seq<FrameDef>) {
    && (forall d {:trigger Among(d, out)} :: d in ds ==> Among(d, out))
    && (forall o {:trigger From(o, ds)} :: o in out ==> From(o, ds))
  }

  /** The frames come out ascending by id, each one the declared frame of that id with its parent filled in. */
  lemma ViewerFramesAreDeclared(ds: seq<FrameDef>, g: Gmat)
    requires DistinctKeys(ds, IdOf) && ViewerFrames(ds, g).Ok?
    ensures Ordered(ViewerFrames(ds, g).value, IdOf, StringLeq)
    ensures Corresponds(ViewerFrames(ds, g).value, ds)
  {
    hide RegisterAll, SameFrame, Sort, Bodies, Others;
    var todo := Bodies(ds) + Others(ds);
    var registered := RegisterAll(todo, g).value.out;
    Split(ds);
    RegisterAllSame(todo, g);
    SortedElements(registered);
    forall d | d in ds ensures Among(d, ViewerFrames(ds, g).value) {
      assert d in todo;
      var i :| 0 <= i < |todo| && todo[i] == d;
      assert registered[i] in ViewerFrames(ds, g).value && SameFrame(registered[i], d);
    }
    forall o | o in ViewerFrames(ds, g).value ensures From(o, ds) {
      var i :| 0 <= i < |registered| && registered[i] == o;
      assert todo[i] in todo && SameFrame(o, todo[i]);
    }
  }

  /** With distinct ids, each relative frame gets the smallest declared id that meets its need whenever there is
      one, and the canonical id otherwise. */
  lemma ParentsFollowTheRule(ds: seq<FrameDef>, g: Gmat)
    requires DistinctKeys(ds, IdOf) && ViewerFrames(ds, g).Ok?
    ensures forall o :: o in ViewerFrames(ds, g).value ==> HasRuleParent(ds, o)
  {
    var registered := RegisterAll(Bodies(ds) + Others(ds), g).value.out;
    Split(ds);
    forall d | d in Others(ds) ensures d.id !in Ids(Bodies(ds)) {
      assert d.id in Ids(Others(ds));
    }
    OthersGetRuleParents(Bodies(ds), Others(ds), g);
    SortedElements(registered);
    forall o | o in registered ensures HasRuleParent(ds, o) {
      if Needed(o).Some? {
        DeclaredInBodies(ds, Needed(o).value);
      }
    }
  }

  ghost predicate ParentClosed(out: seq<FrameDef>) {
    forall o :: o in out && o.parent != "" ==> o.parent in Ids(out)
  }

  /** The frame a definition hangs from is itself declared: a body frame that meets its need, or else one whose
      id is the canonical id of that need. */
  predicate ParentDeclared(ds: seq<FrameDef>, d: FrameDef) {
    && (Needed(d).Some? ==> Declared(ds, Needed(d).value) != {} || Canonical(Needed(d).value) in Ids(ds))
    && (d.axes.PlatformBody? && d.attitude.Some? ==> d.attitude.value.referenceFrame in Ids(ds))
  }

  lemma SameIds(ds: seq<FrameDef>, out: seq<FrameDef>)
    requires Corresponds(out, ds)
    ensures Ids(out) == Ids(ds)
  {
    forall d | d in ds ensures d.id in Ids(out) {
      assert Among(d, out);
      var o :| o in out && SameFrame(o, d);
      assert o.id == d.id;
    }
    forall o | o in out ensures o.id in Ids(ds) {
      assert From(o, ds);
      var d :| d in ds && SameFrame(o, d);
      assert o.id == d.id;
    }
  }

  lemma ParentInIff(ds: seq<FrameDef>, o: FrameDef)
    requires HasRuleParent(ds, o)
    ensures o.parent == "" || o.parent in Ids(ds) <==> ParentDeclared(ds, o)
  {
    if Needed(o).Some? {
      var n := Needed(o).value;
      assert Canonical(n)[0] == 'g';
      if Declared(ds, n) != {} {
        assert Least(Declared(ds, n)) in Declared(ds, n);
      }
    }
  }

  lemma SameNeeds(ds: seq<FrameDef>, o: FrameDef, d: FrameDef)
    requires SameFrame(o, d)
    ensures ParentDeclared(ds, o) == ParentDeclared(ds, d)
  {
  }

  lemma ClosedIff(ds: seq<FrameDef>, out: seq<FrameDef>)
    requires Corresponds(out, ds) && forall o :: o in out ==> HasRuleParent(ds, o)
    ensures ParentClosed(out) <==> forall d :: d in ds ==> ParentDeclared(ds, d)
  {
    SameIds(ds, out);
    forall o | o in out ensures o.parent == "" || o.parent in Ids(ds) <==> ParentDeclared(ds, o) {
      ParentInIff(ds, o);
    }
    if ParentClosed(out) {
      forall d | d in ds ensures ParentDeclared(ds, d) {
        assert Among(d, out);
        var o :| o in out && SameFrame(o, d);
        SameNeeds(ds, o, d);
      }
    }
    if forall d :: d in ds ==> ParentDeclared(ds, d) {
      forall o | o in out ensures ParentDeclared(ds, o) {
        assert From(o, ds);
        var d :| d in ds && SameFrame(o, d);
        SameNeeds(ds, o, d);
      }
    }
  }

  /** With distinct ids, the list holds every parent it names exactly when every body frame and attitude
      reference that is needed was declared, or its canonical id stands for another declared frame. */
  lemma ClosedIffParentsDeclared(ds: seq<FrameDef>, g: Gmat)
    requires DistinctKeys(ds, IdOf) && ViewerFrames(ds, g).Ok?
    ensures ParentClosed(ViewerFrames(ds, g).value) <==> forall d :: d in ds ==> ParentDeclared(ds, d)
  {
    ParentsFollowTheRule(ds, g);
    ViewerFramesAreDeclared(ds, g);
    ClosedIff(ds, ViewerFrames(ds, g).value);
  }
}
