/** The scenario store of altavista/server.py: `Hub` and the routes that publish, delete and set the clock. */
module Hubs {
  import opened Base

  // ---------------------------------------------------------------- scenarios

  /** body["texture"]: absent or null, text, or something else. */
  datatype Texture = NoTexture | Url(url: string) | OtherValue

  datatype BodyEntry = NotADict | BodyDict(name: string, texture: Texture)

  /** The keys of a scenario the hub reads or writes; `rest` stands for all the others. */
  datatype Scenario = Scenario(name: string, imagery: Option<string>, profileId: Option<string>, bodies: seq<BodyEntry>,
                               rest: string)

  /** The playback fields of a clock message that were present. */
  datatype Clock = Clock(t: Option<real>, playing: Option<bool>, speed: Option<real>, scenario: Option<string>)

  /** A Python dict is true when it is not empty. */
  predicate Truthy(c: Clock) {
    c.t.Some? || c.playing.Some? || c.speed.Some? || c.scenario.Some?
  }

  datatype Pyramid = Pyramid(installed: bool, hasBodyTexture: bool)

  /** `textures` holds the names of the regular files in the texture directory, when there is one. */
  datatype Config = Config(imagery: Option<string>, profileId: Option<string>, textures: Option<set<string>>,
                           pyramid: Option<Pyramid>)

  const PREFIX := "/textures/"
  const BODY_URL := "/imagery/bluemarble/body/earth-2048x1024.jpg"
  const EARTH_FILE := "ModifiedBlueMarble.jpg"

  // ---------------------------------------------------------------- textures

  predicate Alnum(c: char) {
    'A' <= c <= 'Z' || 'a' <= c <= 'z' || '0' <= c <= '9'
  }

  /** validate_path_component_id accepts the name. */
  predicate PathComponentId(name: string) {
    && 1 <= |name| <= 128
    && (forall i :: 0 <= i < |name| ==> Alnum(name[i]) || name[i] == '.' || name[i] == '_' || name[i] == '-')
    && Alnum(name[0])
  }

  predicate ServedUrl(url: string) {
    PREFIX <= url
  }

  /** The file a /textures/ URL names. */
  function FileOf(url: string): string
    requires ServedUrl(url)
  {
    url[|PREFIX|..]
  }

  /** GET on the URL finds a file. */
  predicate Servable(files: set<string>, url: string)
    requires ServedUrl(url)
  {
    PathComponentId(FileOf(url)) && FileOf(url) in files
  }

  /** `_publishable_texture`, with a texture directory. */
  function Publishable(cfg: Config, files: set<string>, body: string, url: string): Option<string>
    requires ServedUrl(url)
  {
    if Servable(files, url) then Some(url)
    else if body == "Earth" && cfg.pyramid.Some? && cfg.pyramid.value.installed && cfg.pyramid.value.hasBodyTexture
      then Some(BODY_URL)
    else None
  }

  /** `_resolve_body_texture`. */
  function Resolved(cfg: Config, b: BodyEntry): BodyEntry {
    if b.NotADict? || cfg.textures.None? || !b.texture.Url? || !ServedUrl(b.texture.url) then b
    else match Publishable(cfg, cfg.textures.value, b.name, b.texture.url)
      case Some(u) => b.(texture := Url(u))
      case None => b.(texture := NoTexture)
  }

  function ResolvedAll(cfg: Config, bodies: seq<BodyEntry>): seq<BodyEntry> {
    seq(|bodies|, i requires 0 <= i < |bodies| => Resolved(cfg, bodies[i]))
  }

  /** What `put` stores. */
  function Prepared(cfg: Config, s: Scenario): Scenario {
    s.(imagery := if s.imagery.None? then cfg.imagery else s.imagery,
       bodies := ResolvedAll(cfg, s.bodies),
       profileId := if s.profileId.None? then cfg.profileId else s.profileId)
  }

  function NameOf(s: Scenario): string {
    if s.name == "" then "scenario" else s.name
  }

  function Listed(order: seq<string>, name: string): seq<string> {
    if name in order then order else order + [name]
  }

  /** list.remove: the first occurrence goes. */
  function Without(order: seq<string>, name: string): seq<string> {
    if order == [] then [] else if order[0] == name then order[1..] else [order[0]] + Without(order[1..], name)
  }

  datatype Publishes = Nothing | FromPyramid | FromGmat

  datatype TextureReport = TextureReport(file: string, present: bool, publishes: Publishes, url: Option<string>)

  // ---------------------------------------------------------------- the order and the keys agree

  ghost predicate NoRepeats(order: seq<string>) {
    forall i, j :: 0 <= i < j < |order| ==> order[i] != order[j]
  }

  /** `order` lists exactly the keys, each once. */
  ghost predicate Agree(keys: set<string>, order: seq<string>) {
    NoRepeats(order) && forall name :: name in order <==> name in keys
  }

  lemma ListedAgrees(keys: set<string>, order: seq<string>, name: string)
    requires Agree(keys, order)
    ensures Agree(keys + {name}, Listed(order, name))
  {
  }

  lemma HeadIsNew(order: seq<string>)
    requires NoRepeats(order) && order != []
    ensures order[0] !in order[1..] && NoRepeats(order[1..])
  {
  }

  lemma NoRepeatsLonger(first: string, rest: seq<string>)
    requires NoRepeats(rest) && first !in rest
    ensures NoRepeats([first] + rest)
  {
  }

  lemma {:induction false} WithoutIs(order: seq<string>, name: string)
    requires NoRepeats(order)
    ensures NoRepeats(Without(order, name))
    ensures forall x :: x in Without(order, name) <==> x in order && x != name
  {
    if order != [] {
      HeadIsNew(order);
      WithoutIs(order[1..], name);
      if order[0] != name {
        NoRepeatsLonger(order[0], Without(order[1..], name));
      }
    }
  }

  lemma {:induction false} WithoutAbsent(order: seq<string>, name: string)
    requires name !in order
    ensures Without(order, name) == order
  {
    if order != [] {
      WithoutAbsent(order[1..], name);
      assert order == [order[0]] + order[1..];
    }
  }

  // ---------------------------------------------------------------- runs of publish and delete

  /** What one action does to the names: nothing, for an action on the clock. */
  datatype Action = Put(name: string) | Remove(name: string) | Quiet

  function OrderAfter(trace: seq<Action>): seq<string> {
    if trace == [] then []
    else
      var before := OrderAfter(trace[..|trace| - 1]);
      match trace[|trace| - 1]
      case Put(name) => Listed(before, name)
      case Remove(name) => Without(before, name)
      case Quiet => before
  }

  /** Action k published `name`, it was not removed later, and it had not been in the store just before. */
  ghost predicate PublishedAt(trace: seq<Action>, name: string, k: nat) {
    && k < |trace| && trace[k] == Put(name)
    && (forall m :: k < m < |trace| ==> trace[m] != Remove(name))
    && (forall m :: 0 <= m < k && trace[m] == Put(name) ==> exists r :: m < r < k && trace[r] == Remove(name))
  }

  /** Nobody published the name after its last removal. */
  ghost predicate Gone(trace: seq<Action>, name: string) {
    forall m :: 0 <= m < |trace| && trace[m] == Put(name) ==> RemovedAfter(trace, name, m)
  }

  ghost predicate RemovedAfter(trace: seq<Action>, name: string, m: nat) {
    exists r :: m < r < |trace| && trace[r] == Remove(name)
  }

  lemma PublishedOnce(trace: seq<Action>, name: string, k: nat, l: nat)
    requires PublishedAt(trace, name, k) && PublishedAt(trace, name, l)
    ensures k == l
  {
  }

  lemma GoneIsNotPublished(trace: seq<Action>, name: string, k: nat)
    requires Gone(trace, name)
    ensures !PublishedAt(trace, name, k)
  {
    if k < |trace| && trace[k] == Put(name) {
      assert RemovedAfter(trace, name, k);
    }
  }

  /** When the name's present stay in the store began. */
  function Since(trace: seq<Action>, name: string): (k: Option<nat>)
    ensures k.Some? ==> k.value < |trace|
  {
    if trace == [] then None
    else
      var n := |trace| - 1;
      var before := Since(trace[..n], name);
      if trace[n] == Remove(name) then None else if trace[n] == Put(name) && before.None? then Some(n) else before
  }

  lemma {:induction false} SinceMeans(trace: seq<Action>, name: string)
    ensures Since(trace, name).Some? ==> PublishedAt(trace, name, Since(trace, name).value)
    ensures Since(trace, name).None? ==> Gone(trace, name)
  {
    if trace != [] {
      var n := |trace| - 1;
      var front := trace[..n];
      SinceMeans(front, name);
      if trace[n] == Remove(name) {
        assert forall m :: 0 <= m < n ==> RemovedAfter(trace, name, m);
      } else if Since(front, name).None? {
        forall m | 0 <= m < n && trace[m] == Put(name) ensures exists r :: m < r < n && trace[r] == Remove(name) {
          assert front[m] == Put(name) && RemovedAfter(front, name, m);
          var r :| m < r < n && front[r] == Remove(name);
          assert trace[r] == Remove(name);
        }
      } else {
        var k := Since(front, name).value;
        forall m | 0 <= m < k && trace[m] == Put(name) ensures exists r :: m < r < k && trace[r] == Remove(name) {
          assert front[m] == Put(name);
          var r :| m < r < k && front[r] == Remove(name);
          assert trace[r] == Remove(name);
        }
      }
    }
  }

  /** Every listed name has a rank, and the ranks increase along the list. */
  ghost predicate Ranked(order: seq<string>, rank: string -> Option<nat>) {
    && (forall i :: 0 <= i < |order| ==> rank(order[i]).Some?)
    && (forall i, j :: 0 <= i < j < |order| ==> rank(order[i]).value < rank(order[j]).value)
  }

  lemma RankedIsDistinct(order: seq<string>, rank: string -> Option<nat>)
    requires Ranked(order, rank)
    ensures NoRepeats(order)
  {
  }

  lemma RankedLonger(order: seq<string>, rank: string -> Option<nat>, longer: string -> Option<nat>,
                     name: string, n: nat)
    requires Ranked(order, rank) && longer(name) == Some(n)
    requires forall x :: x in order ==> rank(x).value < n && longer(x) == rank(x)
    ensures Ranked(order + [name], longer)
  {
  }

  lemma {:induction false} RankedWithout(order: seq<string>, rank: string -> Option<nat>, name: string)
    requires Ranked(order, rank)
    ensures Ranked(Without(order, name), rank)
  {
    if order != [] {
      var rest := Without(order[1..], name);
      RankedWithout(order[1..], rank, name);
      RankedIsDistinct(order, rank);
      HeadIsNew(order);
      WithoutIs(order[1..], name);
      if order[0] != name {
        forall x | x in rest ensures rank(order[0]).value < rank(x).value {
          var j :| 0 <= j < |order[1..]| && order[1..][j] == x;
          assert order[j + 1] == x;
        }
        RankedFirst(order[0], rest, rank);
      }
    }
  }

  lemma RankedFirst(first: string, rest: seq<string>, rank: string -> Option<nat>)
    requires Ranked(rest, rank) && rank(first).Some?
    requires forall x :: x in rest ==> rank(x).Some? && rank(first).value < rank(x).value
    ensures Ranked([first] + rest, rank)
  {
  }

  lemma RankedSame(order: seq<string>, rank: string -> Option<nat>, other: string -> Option<nat>)
    requires Ranked(order, rank) && forall x :: x in order ==> other(x) == rank(x)
    ensures Ranked(order, other)
  {
  }

  function Stays(trace: seq<Action>): string -> Option<nat> {
    name => Since(trace, name)
  }

  lemma PutRanked(trace: seq<Action>, order: seq<string>, name: string)
    requires Ranked(order, Stays(trace)) && forall x :: x in order <==> Stays(trace)(x).Some?
    ensures Ranked(Listed(order, name), Stays(trace + [Put(name)]))
    ensures forall x :: x in Listed(order, name) <==> Stays(trace + [Put(name)])(x).Some?
  {
    var rank, longer := Stays(trace), Stays(trace + [Put(name)]);
    forall x ensures longer(x) == if x == name && rank(x).None? then Some(|trace|) else rank(x) {
      SinceNext(trace, Put(name), x);
    }
    if name in order {
      RankedSame(order, rank, longer);
    } else {
      RankedLonger(order, rank, longer, name, |trace|);
    }
  }

  lemma RemoveRanked(trace: seq<Action>, order: seq<string>, name: string)
    requires Ranked(order, Stays(trace)) && forall x :: x in order <==> Stays(trace)(x).Some?
    ensures Ranked(Without(order, name), Stays(trace + [Remove(name)]))
    ensures forall x :: x in Without(order, name) <==> Stays(trace + [Remove(name)])(x).Some?
  {
    var rank, longer := Stays(trace), Stays(trace + [Remove(name)]);
    forall x ensures longer(x) == if x == name then None else rank(x) {
      SinceNext(trace, Remove(name), x);
    }
    RankedIsDistinct(order, rank);
    WithoutIs(order, name);
    RankedWithout(order, rank, name);
    RankedSame(Without(order, name), rank, longer);
  }

  lemma QuietRanked(trace: seq<Action>, order: seq<string>)
    requires Ranked(order, Stays(trace)) && forall x :: x in order <==> Stays(trace)(x).Some?
    ensures Ranked(order, Stays(trace + [Quiet]))
    ensures forall x :: x in order <==> Stays(trace + [Quiet])(x).Some?
  {
    forall x ensures Stays(trace + [Quiet])(x) == Stays(trace)(x) {
      SinceNext(trace, Quiet, x);
    }
    RankedSame(order, Stays(trace), Stays(trace + [Quiet]));
  }

  lemma SinceNext(trace: seq<Action>, a: Action, name: string)
    ensures Since(trace + [a], name) ==
      (if a == Remove(name) then None
       else if a == Put(name) && Since(trace, name).None? then Some(|trace|)
       else Since(trace, name))
  {
    assert (trace + [a])[..|trace|] == trace;
  }

  lemma {:induction false} OrderIsRanked(trace: seq<Action>)
    ensures Ranked(OrderAfter(trace), Stays(trace))
    ensures forall x :: x in OrderAfter(trace) <==> Stays(trace)(x).Some?
  {
    if trace != [] {
      var front := trace[..|trace| - 1];
      OrderIsRanked(front);
      assert trace == front + [trace[|trace| - 1]];
      match trace[|trace| - 1]
      case Put(name) => PutRanked(front, OrderAfter(front), name);
      case Remove(name) => RemoveRanked(front, OrderAfter(front), name);
      case Quiet => QuietRanked(front, OrderAfter(front));
    }
  }

  /** Over every run the list holds exactly the names published since their last removal, each once, in the
      order of the first such publication. */
  lemma OrderOverRuns(trace: seq<Action>)
    ensures var order := OrderAfter(trace);
      && NoRepeats(order)
      && (forall x :: x in order <==> exists k :: PublishedAt(trace, x, k))
      && (forall i, j, k, l ::
            0 <= i < j < |order| && PublishedAt(trace, order[i], k) && PublishedAt(trace, order[j], l) ==> k < l)
  {
    var order := OrderAfter(trace);
    OrderIsRanked(trace);
    RankedIsDistinct(order, Stays(trace));
    forall x ensures x in order <==> exists k :: PublishedAt(trace, x, k) {
      SinceMeans(trace, x);
      if Since(trace, x).None? {
        forall k ensures !PublishedAt(trace, x, k) { GoneIsNotPublished(trace, x, k); }
      }
    }
    forall i, j, k, l | 0 <= i < j < |order| && PublishedAt(trace, order[i], k) && PublishedAt(trace, order[j], l)
      ensures k < l
    {
      SinceMeans(trace, order[i]);
      SinceMeans(trace, order[j]);
      assert Stays(trace)(order[i]).value < Stays(trace)(order[j]).value;
      PublishedOnce(trace, order[i], k, Since(trace, order[i]).value);
      PublishedOnce(trace, order[j], l, Since(trace, order[j]).value);
    }
  }

  // ---------------------------------------------------------------- textures over publications

  lemma PyramidIsNotServed()
    ensures !ServedUrl(BODY_URL)
  {
    assert PREFIX[1] == 't' && BODY_URL[1] == 'i';
  }

  /** The URL published is the one asked for exactly when it can be served; otherwise it is no /textures/ URL. */
  lemma PublishableIs(cfg: Config, files: set<string>, body: string, url: string)
    requires ServedUrl(url)
    ensures Publishable(cfg, files, body, url) == Some(url) <==> Servable(files, url)
    ensures forall u :: Publishable(cfg, files, body, url) == Some(u) && ServedUrl(u) ==> u == url && Servable(files, u)
  {
    PyramidIsNotServed();
  }

  /** No body of the scenario names a /textures/ URL that would not be found. */
  predicate TexturesFound(cfg: Config, s: Scenario) {
    cfg.textures.Some? ==>
      forall b :: b in s.bodies && b.BodyDict? && b.texture.Url? && ServedUrl(b.texture.url) ==>
        Servable(cfg.textures.value, b.texture.url)
  }

  lemma PreparedTexturesFound(cfg: Config, s: Scenario)
    ensures TexturesFound(cfg, Prepared(cfg, s))
  {
    if cfg.textures.Some? {
      forall i | 0 <= i < |s.bodies|
        ensures var b := Resolved(cfg, s.bodies[i]);
          b.BodyDict? && b.texture.Url? && ServedUrl(b.texture.url) ==> Servable(cfg.textures.value, b.texture.url)
      {
        var b := s.bodies[i];
        if b.BodyDict? && b.texture.Url? && ServedUrl(b.texture.url) {
          PublishableIs(cfg, cfg.textures.value, b.name, b.texture.url);
        }
      }
    }
  }

  /** The rest of a /textures/ URL is the name of a file that is there: up to 128 letters, digits, dots, underscores and
      hyphens, the first a letter or digit. */
  predicate NamesFile(files: set<string>, url: string) {
    && "/textures/" <= url && url[10..] in files && 1 <= |url[10..]| <= 128
    && (forall i :: 0 <= i < |url[10..]| ==> Alnum(url[10..][i]) || url[10..][i] in "._-")
    && Alnum(url[10..][0])
  }

  /** What a body is stored as: with a texture directory, a /textures/ URL that names no file is replaced by the
      pyramid's image for Earth if that is installed, and by nothing else; all else stays. */
  predicate StoredAs(cfg: Config, b: BodyEntry, o: BodyEntry) {
    if b.NotADict? || cfg.textures.None? || !b.texture.Url? || !("/textures/" <= b.texture.url)
      || NamesFile(cfg.textures.value, b.texture.url) then o == b
    else
      && o.BodyDict? && o.name == b.name
      && (o.texture == Url("/imagery/bluemarble/body/earth-2048x1024.jpg") <==>
            b.name == "Earth" && cfg.pyramid.Some? && cfg.pyramid.value.installed && cfg.pyramid.value.hasBodyTexture)
      && (o.texture.NoTexture? || o.texture == Url("/imagery/bluemarble/body/earth-2048x1024.jpg"))
  }

  lemma BodyStoredAs(cfg: Config, b: BodyEntry)
    ensures StoredAs(cfg, b, Resolved(cfg, b))
  {
    PyramidIsNotServed();
    if b.BodyDict? && b.texture.Url? {
      assert "/textures/" <= b.texture.url <==> ServedUrl(b.texture.url);
      if "/textures/" <= b.texture.url {
        assert b.texture.url[10..] == FileOf(b.texture.url);
      }
    }
  }

  /** What `put` stores of a scenario: imagery and profile filled in where absent, its bodies one by one, the rest as it
      was. */
  lemma StoredAsPublished(cfg: Config, s: Scenario)
    ensures var p := Prepared(cfg, s);
      && (s.name == "" ==> NameOf(s) == "scenario") && (s.name != "" ==> NameOf(s) == s.name)
      && p.name == s.name && p.rest == s.rest && |p.bodies| == |s.bodies|
      && (s.imagery.Some? ==> p.imagery == s.imagery) && (s.imagery.None? ==> p.imagery == cfg.imagery)
      && (s.profileId.Some? ==> p.profileId == s.profileId) && (s.profileId.None? ==> p.profileId == cfg.profileId)
      && forall i :: 0 <= i < |s.bodies| ==> StoredAs(cfg, s.bodies[i], p.bodies[i])
  {
    hide StoredAs;
    forall i | 0 <= i < |s.bodies| ensures StoredAs(cfg, s.bodies[i], Prepared(cfg, s).bodies[i]) {
      BodyStoredAs(cfg, s.bodies[i]);
    }
  }

  /** No body but Earth gains a texture URL. */
  lemma OnlyEarthGainsAUrl(cfg: Config, s: Scenario, i: nat)
    requires i < |s.bodies| && s.bodies[i].BodyDict? && s.bodies[i].name != "Earth"
    ensures var o := Prepared(cfg, s).bodies[i];
      o.BodyDict? && (o.texture.Url? ==> o.texture == s.bodies[i].texture)
  {
    StoredAsPublished(cfg, s);
    assert StoredAs(cfg, s.bodies[i], Prepared(cfg, s).bodies[i]);
  }

  lemma ResolvedTwice(cfg: Config, b: BodyEntry)
    ensures Resolved(cfg, Resolved(cfg, b)) == Resolved(cfg, b)
  {
    PyramidIsNotServed();
    if b.BodyDict? && cfg.textures.Some? && b.texture.Url? && ServedUrl(b.texture.url) {
      PublishableIs(cfg, cfg.textures.value, b.name, b.texture.url);
    }
  }

  /** With the files fixed, putting a scenario again, as it was given or as it was stored, changes nothing. */
  lemma PutIsIdempotent(cfg: Config, scenarios: map<string, Scenario>, order: seq<string>, s: Scenario)
    ensures Prepared(cfg, Prepared(cfg, s)) == Prepared(cfg, s) && NameOf(Prepared(cfg, s)) == NameOf(s)
    ensures var (m, o) := (scenarios[NameOf(s) := Prepared(cfg, s)], Listed(order, NameOf(s)));
      m[NameOf(s) := Prepared(cfg, Prepared(cfg, s))] == m && Listed(o, NameOf(s)) == o
  {
    forall i | 0 <= i < |s.bodies| ensures Resolved(cfg, Resolved(cfg, s.bodies[i])) == Resolved(cfg, s.bodies[i]) {
      ResolvedTwice(cfg, s.bodies[i]);
    }
    assert ResolvedAll(cfg, ResolvedAll(cfg, s.bodies)) == ResolvedAll(cfg, s.bodies);
  }

  function EarthBody(): BodyEntry {
    BodyDict("Earth", Url(PREFIX + EARTH_FILE))
  }

  /** `earth_texture_report`. */
  function EarthTextureReport(cfg: Config): TextureReport {
    var present := cfg.textures.Some? && EARTH_FILE in cfg.textures.value;
    var url := if cfg.textures.Some? then Publishable(cfg, cfg.textures.value, "Earth", PREFIX + EARTH_FILE) else None;
    TextureReport(EARTH_FILE, present,
                  if url.None? then Nothing else if url == Some(BODY_URL) then FromPyramid else FromGmat,
                  url)
  }

  /** The health report names the texture that `put` stores for Earth exactly when there is a texture
      directory; without one `put` leaves the URL and the report says none. */
  lemma ReportIsWhatPutStores(cfg: Config)
    ensures
      (EarthTextureReport(cfg).url == match Resolved(cfg, EarthBody()).texture case Url(u) => Some(u) case _ => None)
      <==> cfg.textures.Some?
  {
    assert (PREFIX + EARTH_FILE)[..|PREFIX|] == PREFIX;
  }

  /** The report's verdict on the source of the texture. */
  lemma ReportIsTrue(cfg: Config)
    ensures var r := EarthTextureReport(cfg);
      && r.file == "ModifiedBlueMarble.jpg" && (r.present <==> cfg.textures.Some? && r.file in cfg.textures.value)
      && (r.publishes.FromGmat? <==> r.present)
      && (r.publishes.FromPyramid? <==>
            cfg.textures.Some? && !r.present && cfg.pyramid.Some? && cfg.pyramid.value.installed
            && cfg.pyramid.value.hasBodyTexture)
      && (r.publishes.Nothing? <==> r.url == None)
      && (r.publishes.FromGmat? ==> r.url == Some("/textures/ModifiedBlueMarble.jpg"))
      && (r.publishes.FromPyramid? ==> r.url == Some("/imagery/bluemarble/body/earth-2048x1024.jpg"))
  {
    EarthUrl();
    EarthFileIsAnId();
    hide PathComponentId;
  }

  lemma EarthUrl()
    ensures var url := PREFIX + EARTH_FILE;
      && url == "/textures/ModifiedBlueMarble.jpg" && ServedUrl(url) && FileOf(url) == EARTH_FILE && url != BODY_URL
  {
    PyramidIsNotServed();
    var url := PREFIX + EARTH_FILE;
    assert url[..|PREFIX|] == PREFIX;
  }

  lemma EarthFileIsAnId()
    ensures PathComponentId(EARTH_FILE)
  {
  }

  // ---------------------------------------------------------------- runs of the whole store

  datatype Store = Store(scenarios: map<string, Scenario>, order: seq<string>, clock: Option<Clock>)

  /** A publish route, DELETE /api/scenario, POST /api/clock, and a clock message of a browser. */
  datatype Op =
    | Publish(scenario: Scenario)
    | Delete(name: string)
    | SetClock(message: Clock)
    | PeerClock(message: Clock)

  /** A clock of another scenario is dropped by a publication. */
  function KeptClock(clock: Option<Clock>, name: string): Option<Clock> {
    if clock.Some? && Truthy(clock.value) && clock.value.scenario != Some(name) then None else clock
  }

  /** A clock that names no scenario is the latest one's. */
  function Defaulted(order: seq<string>, message: Clock): Clock {
    if message.scenario.None? && order != [] then message.(scenario := Some(order[|order| - 1])) else message
  }

  function Done(cfg: Config, st: Store, op: Op): Store {
    match op
    case Publish(s) =>
      Store(st.scenarios[NameOf(s) := Prepared(cfg, s)], Listed(st.order, NameOf(s)), KeptClock(st.clock, NameOf(s)))
    case Delete(name) => Store(st.scenarios - {name}, Without(st.order, name), st.clock)
    case SetClock(message) => st.(clock := Some(Defaulted(st.order, message)))
    case PeerClock(message) => st.(clock := Some(message))
  }

  function After(cfg: Config, ops: seq<Op>): Store {
    if ops == [] then Store(map[], [], None) else Done(cfg, After(cfg, ops[..|ops| - 1]), ops[|ops| - 1])
  }

  function ActionOf(op: Op): Action {
    match op
    case Publish(s) => Put(NameOf(s))
    case Delete(name) => Remove(name)
    case _ => Quiet
  }

  function Actions(ops: seq<Op>): seq<Action> {
    seq(|ops|, i requires 0 <= i < |ops| => ActionOf(ops[i]))
  }

  lemma ActionsFront(ops: seq<Op>, k: nat)
    requires k <= |ops|
    ensures Actions(ops)[..k] == Actions(ops[..k])
  {
  }

  lemma {:induction false} OrderIsOrderAfter(cfg: Config, ops: seq<Op>)
    ensures After(cfg, ops).order == OrderAfter(Actions(ops))
  {
    if ops != [] {
      OrderIsOrderAfter(cfg, ops[..|ops| - 1]);
      ActionsFront(ops, |ops| - 1);
    }
  }

  /** The stored scenario of a name is the prepared form of its last publication, not deleted since. */
  ghost predicate StoredFrom(cfg: Config, ops: seq<Op>, name: string, stored: Scenario, k: nat) {
    && k < |ops| && ops[k].Publish? && NameOf(ops[k].scenario) == name && stored == Prepared(cfg, ops[k].scenario)
    && forall j :: k < j < |ops| ==> ActionOf(ops[j]) != Put(name) && ActionOf(ops[j]) != Remove(name)
  }

  lemma {:induction false} StoredIsLastPublished(cfg: Config, ops: seq<Op>, name: string)
    requires name in After(cfg, ops).scenarios
    ensures exists k :: StoredFrom(cfg, ops, name, After(cfg, ops).scenarios[name], k)
  {
    hide Prepared, Listed, Without, KeptClock, Defaulted;
    var n := |ops| - 1;
    var front, last := ops[..n], ops[n];
    if ActionOf(last) == Put(name) {
      assert StoredFrom(cfg, ops, name, After(cfg, ops).scenarios[name], n);
    } else {
      StoredIsLastPublished(cfg, front, name);
      var k :| StoredFrom(cfg, front, name, After(cfg, front).scenarios[name], k);
      assert StoredFrom(cfg, ops, name, After(cfg, ops).scenarios[name], k);
    }
  }

  lemma {:induction false} KeysAgree(cfg: Config, ops: seq<Op>)
    ensures Agree(After(cfg, ops).scenarios.Keys, After(cfg, ops).order)
  {
    if ops != [] {
      var before, op := After(cfg, ops[..|ops| - 1]), ops[|ops| - 1];
      KeysAgree(cfg, ops[..|ops| - 1]);
      match op
      case Publish(s) =>
        ListedAgrees(before.scenarios.Keys, before.order, NameOf(s));
        assert After(cfg, ops).scenarios.Keys == before.scenarios.Keys + {NameOf(s)};
      case Delete(name) => WithoutIs(before.order, name);
      case _ =>
    }
  }

  /** Over every run of publications, deletions and clock messages: the list holds exactly the keys, each once, in
      the order of their first publication since their last removal; each stored scenario is its last publication,
      prepared; and no stored body names a /textures/ URL that would not be found. */
  lemma StoreOverRuns(cfg: Config, ops: seq<Op>)
    ensures var st, trace := After(cfg, ops), Actions(ops);
      && Agree(st.scenarios.Keys, st.order)
      && (forall x :: x in st.order <==> exists k :: PublishedAt(trace, x, k))
      && (forall i, j, k, l ::
            0 <= i < j < |st.order| && PublishedAt(trace, st.order[i], k) && PublishedAt(trace, st.order[j], l)
            ==> k < l)
      && (forall x :: x in st.scenarios ==> exists k :: StoredFrom(cfg, ops, x, st.scenarios[x], k))
      && (forall x :: x in st.scenarios ==> TexturesFound(cfg, st.scenarios[x]))
  {
    hide After, PublishedAt, StoredFrom, TexturesFound, Agree, Prepared;
    KeysAgree(cfg, ops);
    OrderIsOrderAfter(cfg, ops);
    OrderOverRuns(Actions(ops));
    forall x | x in After(cfg, ops).scenarios
      ensures exists k :: StoredFrom(cfg, ops, x, After(cfg, ops).scenarios[x], k)
      ensures TexturesFound(cfg, After(cfg, ops).scenarios[x])
    {
      StoredIsLastPublished(cfg, ops, x);
      var k :| StoredFrom(cfg, ops, x, After(cfg, ops).scenarios[x], k);
      StoredIsPrepared(cfg, ops, x, After(cfg, ops).scenarios[x], k);
    }
  }

  lemma StoredIsPrepared(cfg: Config, ops: seq<Op>, name: string, stored: Scenario, k: nat)
    requires StoredFrom(cfg, ops, name, stored, k)
    ensures TexturesFound(cfg, stored)
  {
    PreparedTexturesFound(cfg, ops[k].scenario);
  }

  // ---------------------------------------------------------------- the clock over runs

  /** The clock a new client is sent: the current one, if it is the latest scenario's. */
  function ClockSent(st: Store): Option<Clock> {
    if st.clock.Some? && Truthy(st.clock.value) && st.order != []
      && st.clock.value.scenario == Some(st.order[|st.order| - 1])
    then st.clock else None
  }

  predicate ClockOp(op: Op) {
    op.SetClock? || op.PeerClock?
  }

  /** Action m set the clock to c. */
  ghost predicate SetAt(cfg: Config, ops: seq<Op>, m: nat, c: Clock) {
    m < |ops| && match ops[m]
      case SetClock(message) => c == Defaulted(After(cfg, ops[..m]).order, message)
      case PeerClock(message) => c == message
      case _ => false
  }

  /** Since action m no clock was set, and an unempty c saw no publication of another scenario than its own. */
  ghost predicate Survives(ops: seq<Op>, m: nat, c: Clock) {
    forall j :: m < j < |ops| ==>
      && !ClockOp(ops[j])
      && (ops[j].Publish? && c != Clock(None, None, None, None) ==> c.scenario == Some(NameOf(ops[j].scenario)))
  }

  lemma SurvivesFront(cfg: Config, ops: seq<Op>, m: nat, c: Clock)
    requires m + 1 < |ops|
    ensures var n := |ops| - 1;
      SetAt(cfg, ops, m, c) && Survives(ops, m, c) <==>
      && SetAt(cfg, ops[..n], m, c) && Survives(ops[..n], m, c)
      && !ClockOp(ops[n]) && (ops[n].Publish? && Truthy(c) ==> c.scenario == Some(NameOf(ops[n].scenario)))
  {
    var front := ops[..|ops| - 1];
    assert front[..m] == ops[..m];
    assert forall j :: 0 <= j < |front| ==> front[j] == ops[j];
  }

  lemma {:induction false} SurvivorIsClock(cfg: Config, ops: seq<Op>, m: nat, c: Clock)
    requires SetAt(cfg, ops, m, c) && Survives(ops, m, c)
    ensures After(cfg, ops).clock == Some(c)
    decreases |ops|
  {
    if m + 1 < |ops| {
      hide SetAt, Survives;
      SurvivesFront(cfg, ops, m, c);
      SurvivorIsClock(cfg, ops[..|ops| - 1], m, c);
    }
  }

  lemma {:induction false} ClockIsSurvivor(cfg: Config, ops: seq<Op>, c: Clock) returns (m: nat)
    requires After(cfg, ops).clock == Some(c)
    ensures SetAt(cfg, ops, m, c) && Survives(ops, m, c)
    decreases |ops|
  {
    var n := |ops| - 1;
    if ClockOp(ops[n]) {
      m := n;
    } else {
      hide SetAt, Survives;
      m := ClockIsSurvivor(cfg, ops[..n], c);
      SetAtInside(cfg, ops[..n], m, c);
      SurvivesFront(cfg, ops, m, c);
    }
  }

  lemma SetAtInside(cfg: Config, ops: seq<Op>, m: nat, c: Clock)
    requires SetAt(cfg, ops, m, c)
    ensures m < |ops|
  {
  }

  /** Over every run the clock is c exactly when some action set it to c, no action set it since, and (unless c is
      empty) nothing but c's own scenario was published since. */
  lemma ClockIff(cfg: Config, ops: seq<Op>, c: Clock)
    ensures After(cfg, ops).clock == Some(c) <==> exists m :: SetAt(cfg, ops, m, c) && Survives(ops, m, c)
  {
    if After(cfg, ops).clock == Some(c) {
      var m := ClockIsSurvivor(cfg, ops, c);
    }
    if m: nat :| SetAt(cfg, ops, m, c) && Survives(ops, m, c) {
      SurvivorIsClock(cfg, ops, m, c);
    }
  }

  /** A clock is set at one action only. */
  lemma SetOnce(cfg: Config, ops: seq<Op>, m: nat, l: nat, c: Clock)
    requires SetAt(cfg, ops, m, c) && Survives(ops, m, c) && SetAt(cfg, ops, l, c) && Survives(ops, l, c)
    ensures m == l
  {
  }

  lemma InOrderIffPublished(cfg: Config, ops: seq<Op>, name: string)
    ensures name in After(cfg, ops).order <==> exists k :: PublishedAt(Actions(ops), name, k)
  {
    hide PublishedAt, After;
    OrderIsOrderAfter(cfg, ops);
    OrderOverRuns(Actions(ops));
  }

  lemma PublishedEarlier(trace: seq<Action>, name: string, k: nat, m: nat)
    requires k < m <= |trace| && PublishedAt(trace, name, k)
    ensures PublishedAt(trace[..m], name, k)
  {
    forall i | 0 <= i < k && trace[i] == Put(name) ensures exists r :: i < r < k && trace[..m][r] == Remove(name) {
      var r :| i < r < k && trace[r] == Remove(name);
      assert trace[..m][r] == Remove(name);
    }
  }

  lemma PublishedStill(trace: seq<Action>, name: string, k: nat, m: nat)
    requires k < m <= |trace| && PublishedAt(trace[..m], name, k)
    requires forall j :: m <= j < |trace| ==> trace[j] != Remove(name)
    ensures PublishedAt(trace, name, k)
  {
    forall i | 0 <= i < k && trace[i] == Put(name) ensures exists r :: i < r < k && trace[r] == Remove(name) {
      assert trace[..m][i] == Put(name);
      var r :| i < r < k && trace[..m][r] == Remove(name);
      assert trace[r] == Remove(name);
    }
  }

  /** x is in the store, and no name there began its present stay later. */
  ghost predicate Latest(trace: seq<Action>, x: string) {
    exists k :: PublishedAt(trace, x, k) && forall y, l :: PublishedAt(trace, y, l) ==> l <= k
  }

  lemma LatestIsOne(trace: seq<Action>, x: string, y: string)
    requires Latest(trace, x) && Latest(trace, y)
    ensures x == y
  {
    var k :| PublishedAt(trace, x, k) && forall z, l :: PublishedAt(trace, z, l) ==> l <= k;
    var l :| PublishedAt(trace, y, l) && forall z, m :: PublishedAt(trace, z, m) ==> m <= l;
  }

  /** The last name of the list is the latest. */
  lemma LastIsLatest(cfg: Config, ops: seq<Op>)
    ensures var order := After(cfg, ops).order;
      && (order != [] ==> Latest(Actions(ops), order[|order| - 1]))
      && (order == [] ==> forall x :: !Latest(Actions(ops), x))
  {
    hide After, PublishedAt, Actions, OrderAfter;
    var order, trace := After(cfg, ops).order, Actions(ops);
    OrderIsOrderAfter(cfg, ops);
    OrderOverRuns(trace);
    if order != [] {
      var last := |order| - 1;
      assert order[last] in order;
      var k :| PublishedAt(trace, order[last], k);
      forall y, l | PublishedAt(trace, y, l) ensures l <= k {
        assert y in order;
        var i :| 0 <= i < |order| && order[i] == y;
        if i == last {
          PublishedOnce(trace, y, k, l);
        }
      }
    } else {
      forall x, k ensures !PublishedAt(trace, x, k) {
        assert x !in order;
      }
    }
  }

  /** A clock message that names no scenario is given the latest one of that moment, if there is one. */
  lemma ClockIsGivenLatest(cfg: Config, ops: seq<Op>, m: nat, c: Clock)
    requires m < |ops| && SetAt(cfg, ops, m, c) && ops[m].SetClock?
    ensures var message := ops[m].message;
      && c.t == message.t && c.playing == message.playing && c.speed == message.speed
      && (message.scenario.Some? ==> c.scenario == message.scenario)
      && (message.scenario.None? && c.scenario.Some? ==> Latest(Actions(ops[..m]), c.scenario.value))
      && (c.scenario.None? ==> message.scenario.None? && forall x :: !Latest(Actions(ops[..m]), x))
  {
    hide After, Latest;
    LastIsLatest(cfg, ops[..m]);
  }

  /** The clock sent is the one a surviving message set, when its scenario is the latest. */
  lemma ClockSentIff(cfg: Config, ops: seq<Op>, c: Clock)
    ensures ClockSent(After(cfg, ops)) == Some(c) <==>
      && (exists m :: SetAt(cfg, ops, m, c) && Survives(ops, m, c))
      && c.scenario.Some? && Latest(Actions(ops), c.scenario.value)
  {
    hide After, Latest, SetAt, Survives, Actions;
    ClockIff(cfg, ops, c);
    LastIsLatest(cfg, ops);
    var st := After(cfg, ops);
    if st.order == [] {
      assert ClockSent(st) == None;
      assert c.scenario.Some? ==> !Latest(Actions(ops), c.scenario.value);
    } else if c.scenario.Some? && Latest(Actions(ops), c.scenario.value) {
      LatestIsOne(Actions(ops), c.scenario.value, st.order[|st.order| - 1]);
      assert ClockSent(st) == Some(c) <==> st.clock == Some(c);
    } else {
      assert ClockSent(st) != Some(c);
    }
  }

  /** The clock sent was set during the present stay of its scenario (which began at action k) exactly when that
      scenario was in the store when the clock was set, and nobody deleted it since. */
  lemma ClockOfPresentStayIff(cfg: Config, ops: seq<Op>, m: nat, c: Clock, k: nat)
    requires ClockSent(After(cfg, ops)) == Some(c) && SetAt(cfg, ops, m, c) && Survives(ops, m, c)
    requires PublishedAt(Actions(ops), c.scenario.value, k)
    ensures k < m <==>
      c.scenario.value in After(cfg, ops[..m]).order && forall j :: m < j < |ops| ==> ops[j] != Delete(c.scenario.value)
  {
    hide After, Survives;
    var name, trace := c.scenario.value, Actions(ops);
    ActionsFront(ops, m);
    InOrderIffPublished(cfg, ops[..m], name);
    assert forall j :: 0 <= j < |ops| ==> (trace[j] == Remove(name) <==> ops[j] == Delete(name));
    if k < m {
      PublishedEarlier(trace, name, k, m);
    }
    if name in After(cfg, ops[..m]).order && forall j :: m < j < |ops| ==> ops[j] != Delete(name) {
      var l :| PublishedAt(trace[..m], name, l);
      assert trace[m] == Quiet;
      PublishedStill(trace, name, l, m);
      PublishedOnce(trace, name, k, l);
    }
  }

  /** A deleted scenario's clock is sent again: publish, set the clock, delete, publish again. */
  lemma DeletedClockIsReplayed(cfg: Config, s: Scenario, message: Clock)
    requires message.scenario.None?
    ensures
      var ops := [Publish(s), SetClock(message), Delete(NameOf(s)), Publish(s)];
      ClockSent(After(cfg, ops)) == Some(message.(scenario := Some(NameOf(s))))
        && PublishedAt(Actions(ops), NameOf(s), 3)
  {
    hide After;
    var name := NameOf(s);
    var one, two := [Publish(s)], [Publish(s), SetClock(message)];
    var three := [Publish(s), SetClock(message), Delete(name)];
    NothingDone(cfg);
    AfterMore(cfg, [], Publish(s));
    AfterMore(cfg, one, SetClock(message));
    AfterMore(cfg, two, Delete(name));
    AfterMore(cfg, three, Publish(s));
    assert [] + [Publish(s)] == one && one + [SetClock(message)] == two && two + [Delete(name)] == three;
    assert three + [Publish(s)] == [Publish(s), SetClock(message), Delete(name), Publish(s)];
    assert After(cfg, one).order == [name];
    assert After(cfg, three).order == [];
    assert Actions(three + [Publish(s)]) == [Put(name), Quiet, Remove(name), Put(name)];
    BackAfterRemoval(name);
  }

  lemma BackAfterRemoval(name: string)
    ensures PublishedAt([Put(name), Quiet, Remove(name), Put(name)], name, 3)
  {
    var trace := [Put(name), Quiet, Remove(name), Put(name)];
    assert trace[2] == Remove(name);
    forall i | 0 <= i < 3 && trace[i] == Put(name) ensures exists r :: i < r < 3 && trace[r] == Remove(name) {
      assert i < 2 < 3 && trace[2] == Remove(name);
    }
  }

  lemma NothingDone(cfg: Config)
    ensures After(cfg, []) == Store(map[], [], None)
  {
  }

  // ---------------------------------------------------------------- the hub

  class Hub {
    const cfg: Config
    var scenarios: map<string, Scenario>
    var order: seq<string>
    var clock: Option<Clock>
    /** Everything done to the hub so far. */
    ghost var ops: seq<Op>

    ghost predicate Valid()
      reads this
    {
      Stored() == After(cfg, ops)
    }

    function Stored(): Store
      reads this
    {
      Store(scenarios, order, clock)
    }

    constructor (cfg: Config)
      ensures Valid() && ops == [] && this.cfg == cfg
    {
      this.cfg := cfg;
      scenarios, order, clock, ops := map[], [], None, [];
    }

    /** `put`: the prepared scenario is stored under its name, which is listed once. */
    method Put(s: Scenario) returns (name: string)
      requires Agree(scenarios.Keys, order)
      modifies this`scenarios, this`order
      ensures name == NameOf(s)
      ensures scenarios == old(scenarios)[name := Prepared(cfg, s)] && order == Listed(old(order), name)
    {
      name := if s.name == "" then "scenario" else s.name;
      var stored := s;
      if cfg.imagery.Some? && stored.imagery.None? {
        stored := stored.(imagery := cfg.imagery);
      }
      var i := 0;
      while i < |s.bodies|
        invariant 0 <= i <= |s.bodies|
        invariant stored == s.(imagery := stored.imagery, bodies := stored.bodies) && |stored.bodies| == |s.bodies|
        invariant stored.imagery == if s.imagery.None? then cfg.imagery else s.imagery
        invariant forall k :: 0 <= k < |s.bodies| ==>
          stored.bodies[k] == if k < i then Resolved(cfg, s.bodies[k]) else s.bodies[k]
      {
        if stored.bodies[i].BodyDict? {
          stored := stored.(bodies := stored.bodies[i := ResolveBodyTexture(stored.bodies[i])]);
        }
        i := i + 1;
      }
      assert stored.bodies == ResolvedAll(cfg, s.bodies);
      if cfg.profileId.Some? && stored.profileId.None? {
        stored := stored.(profileId := cfg.profileId);
      }
      if name !in scenarios {
        order := order + [name];
      }
      scenarios := scenarios[name := stored];
    }

    function ResolveBodyTexture(body: BodyEntry): (r: BodyEntry)
      requires body.BodyDict?
      ensures r == Resolved(cfg, body)
    {
      if cfg.textures.None? || !body.texture.Url? || !(PREFIX <= body.texture.url) then body
      else
        var publish := Publishable(cfg, cfg.textures.value, body.name, body.texture.url);
        if publish == Some(body.texture.url) then body
        else body.(texture := if publish.Some? then Url(publish.value) else NoTexture)
    }

    /** A publish route: `put`, and a clock of another scenario is dropped. */
    method Publish(s: Scenario) returns (name: string)
      requires Valid()
      modifies this
      ensures Valid() && ops == old(ops) + [Op.Publish(s)] && name == NameOf(s)
      ensures clock.Some? && Truthy(clock.value) ==> clock.value.scenario == Some(name)
    {
      KeysAgree(cfg, ops);
      name := Put(s);
      if clock.Some? && Truthy(clock.value) && clock.value.scenario != Some(name) {
        clock := None;
      }
      AfterMore(cfg, ops, Op.Publish(s));
      ops := ops + [Op.Publish(s)];
    }

    /** The delete route; false is its 404, and then nothing changes. */
    method Remove(name: string) returns (removed: bool)
      requires Valid()
      modifies this
      ensures Valid() && ops == old(ops) + [Delete(name)]
      ensures removed == (name in old(scenarios)) && (!removed ==> Stored() == old(Stored()))
    {
      hide After, Agree;
      KeysAgree(cfg, ops);
      NamesListed(scenarios.Keys, order, name);
      AfterMore(cfg, ops, Delete(name));
      removed := name in scenarios;
      if removed {
        scenarios := scenarios - {name};
        order := Without(order, name);
      } else {
        WithoutAbsent(order, name);
        assert scenarios - {name} == scenarios;
      }
      ops := ops + [Delete(name)];
    }

    /** POST /api/clock. */
    method SetClock(message: Clock)
      requires Valid()
      modifies this`clock, this`ops
      ensures Valid() && ops == old(ops) + [Op.SetClock(message)]
    {
      clock := Some(message);
      if message.scenario.None? && order != [] {
        clock := Some(message.(scenario := Some(order[|order| - 1])));
      }
      AfterMore(cfg, ops, Op.SetClock(message));
      ops := ops + [Op.SetClock(message)];
    }

    /** A clock message of a browser. */
    method PeerClock(message: Clock)
      requires Valid()
      modifies this`clock, this`ops
      ensures Valid() && ops == old(ops) + [Op.PeerClock(message)]
    {
      clock := Some(message);
      AfterMore(cfg, ops, Op.PeerClock(message));
      ops := ops + [Op.PeerClock(message)];
    }

    /** What a new client is sent after the list of names: the latest scenario, and its clock. */
    method StateToSend() returns (latest: Option<Scenario>, playing: Option<Clock>)
      requires Valid()
      ensures order == [] ==> latest == None
      ensures order != [] ==> order[|order| - 1] in scenarios && latest == Some(scenarios[order[|order| - 1]])
      ensures playing == ClockSent(After(cfg, ops))
      ensures latest.Some? <==> exists x :: Latest(Actions(ops), x)
      ensures forall x :: Latest(Actions(ops), x) ==> x in scenarios && latest == Some(scenarios[x])
    {
      hide After, Latest;
      KeysAgree(cfg, ops);
      LastIsLatest(cfg, ops);
      forall x, y | Latest(Actions(ops), x) && Latest(Actions(ops), y) ensures x == y {
        LatestIsOne(Actions(ops), x, y);
      }
      latest, playing := None, None;
      if order != [] {
        assert order[|order| - 1] in order;
        latest := Some(scenarios[order[|order| - 1]]);
        if clock.Some? && Truthy(clock.value) && clock.value.scenario == Some(order[|order| - 1]) {
          playing := clock;
        }
      }
    }
  }

  lemma NamesListed(keys: set<string>, order: seq<string>, name: string)
    requires Agree(keys, order)
    ensures name in order <==> name in keys
  {
  }

  lemma AfterMore(cfg: Config, ops: seq<Op>, op: Op)
    ensures After(cfg, ops + [op]) == Done(cfg, After(cfg, ops), op)
  {
    assert (ops + [op])[..|ops|] == ops;
  }

  /** Whatever was done to a hub: its list and its keys agree, in order of publication, and no body it stores names
      a /textures/ URL that would not be found. */
  lemma ValidHubIsConsistent(hub: Hub)
    requires hub.Valid()
    ensures Agree(hub.scenarios.Keys, hub.order) && hub.order == OrderAfter(Actions(hub.ops))
    ensures forall x :: x in hub.scenarios ==> TexturesFound(hub.cfg, hub.scenarios[x])
  {
    hide After, OrderAfter, TexturesFound, Agree;
    StoreOverRuns(hub.cfg, hub.ops);
    OrderIsOrderAfter(hub.cfg, hub.ops);
  }
}
