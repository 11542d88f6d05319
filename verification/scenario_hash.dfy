/** How `scenario_to_cdm` of altavista/cdm.py feeds a scenario's spacecraft to `_config_hash`. */
module ScenarioHash {
  import opened Base
  import opened Ordering
  import opened ConfigHash
  import opened TrajectoryCdm

  datatype Craft = Craft(name: string, model: Option<string>)

  function NameOf(c: Craft): string { c.name }

  /** What is the same for every list of spacecraft; `wire` serializes the bare entity of a name. */
  datatype Setting = Setting(frame: Bytes, stateSpaceId: string, tool: string, wire: string -> Bytes,
                             utf8: string -> Bytes, white: char -> bool)

  // ---------------------------------------------------------------- the code

  function EntityFor(wire: string -> Bytes): Craft -> Entity {
    (c: Craft) => Entity(c.name, wire(c.name))
  }

  function ByName(crafts: seq<Craft>): seq<Craft> {
    Sort(crafts, NameOf, StringLeq)
  }

  /** {tr.name: uri for tr in trajs if uri} */
  function VisualModels(trajs: seq<Craft>): map<string, string> {
    if trajs == [] then map[]
    else
      var front, last := VisualModels(trajs[..|trajs| - 1]), trajs[|trajs| - 1];
      if last.model.Some? then front[last.name := last.model.value] else front
  }

  predicate BadCraft(s: Setting, c: Craft) {
    c.model.Some? && !ModelOk(c.model.value, s.white)
  }

  function ConfigOf(s: Setting, crafts: seq<Craft>): Config {
    Config(s.frame, s.stateSpaceId, s.tool, Map(ByName(crafts), EntityFor(s.wire)), VisualModels(ByName(crafts)))
  }

  /** The bytes hashed for a scenario; None is the CdmAdapterError of an invalid model. */
  function ScenarioBuffer(s: Setting, crafts: seq<Craft>): Option<Bytes> {
    if exists c :: c in crafts && BadCraft(s, c) then None else Some(Buffer(ConfigOf(s, crafts), s.utf8))
  }

  method HashInput(s: Setting, crafts: seq<Craft>) returns (r: Option<Bytes>)
    ensures r == ScenarioBuffer(s, crafts)
  {
    hide Sort, Buffer;
    var trajs := ByName(crafts);
    SortedCrafts(crafts);
    var entities := Map(trajs, EntityFor(s.wire));
    var models: map<string, string> := map[];
    var i := 0;
    while i < |trajs|
      invariant 0 <= i <= |trajs| && models == VisualModels(trajs[..i])
      invariant forall k :: 0 <= k < i ==> !BadCraft(s, trajs[k])
    {
      var c := trajs[i];
      if BadCraft(s, c) {
        assert c in trajs;
        return None;
      }
      assert trajs[..i + 1][..i] == trajs[..i];
      if c.model.Some? {
        models := models[c.name := c.model.value];
      }
      i := i + 1;
    }
    assert trajs[..i] == trajs;
    var buffer := ConfigBuffer(Config(s.frame, s.stateSpaceId, s.tool, entities, models), s.utf8);
    r := Some(buffer);
  }

  lemma SortedCrafts(crafts: seq<Craft>)
    ensures multiset(ByName(crafts)) == multiset(crafts)
    ensures forall c :: c in ByName(crafts) <==> c in crafts
    ensures forall n :: WithKey(ByName(crafts), NameOf, n) == WithKey(crafts, NameOf, n)
  {
    StringOrder();
    SortIsStable(crafts, NameOf, StringLeq);
    SameMembers(ByName(crafts), crafts);
  }

  lemma SameMembers(a: seq<Craft>, b: seq<Craft>)
    requires multiset(a) == multiset(b)
    ensures forall c :: c in a <==> c in b
  {
    forall c ensures c in a <==> c in b {
      assert c in multiset(a) <==> c in multiset(b);
    }
  }

  // ---------------------------------------------------------------- which model a name gets

  function LastModel(crafts: seq<Craft>): Option<string> {
    if crafts == [] then None
    else if crafts[|crafts| - 1].model.Some? then crafts[|crafts| - 1].model
    else LastModel(crafts[..|crafts| - 1])
  }

  function Lookup(models: map<string, string>, name: string): Option<string> {
    if name in models then Some(models[name]) else None
  }

  lemma LastModelMore(named: seq<Craft>, last: Craft)
    ensures LastModel(named + [last]) == if last.model.Some? then last.model else LastModel(named)
  {
    assert (named + [last])[..|named|] == named;
  }

  lemma ModelsMore(front: seq<Craft>, last: Craft, name: string)
    ensures Lookup(VisualModels(front + [last]), name)
         == if last.name == name && last.model.Some? then last.model else Lookup(VisualModels(front), name)
  {
    assert (front + [last])[..|front|] == front;
  }

  lemma {:induction false} ModelsAreLast(trajs: seq<Craft>, name: string)
    ensures Lookup(VisualModels(trajs), name) == LastModel(WithKey(trajs, NameOf, name))
  {
    if trajs != [] {
      hide WithKey, VisualModels, LastModel, Lookup;
      var front, last := trajs[..|trajs| - 1], trajs[|trajs| - 1];
      ModelsAreLast(front, name);
      assert trajs == front + [last];
      ModelsMore(front, last, name);
      WithKeyLast(front, last, NameOf, name);
      var named := WithKey(front, NameOf, name);
      if last.name == name {
        LastModelMore(named, last);
      } else {
        assert WithKey(trajs, NameOf, name) == named;
      }
    }
  }

  /** A name's visual model is the one declared last, in list order, by a spacecraft of that name. */
  lemma VisualModelIsLast(s: Setting, crafts: seq<Craft>, name: string)
    ensures Lookup(ConfigOf(s, crafts).visualModels, name) == LastModel(WithKey(crafts, NameOf, name))
  {
    ModelsAreLast(ByName(crafts), name);
    SortedCrafts(crafts);
  }

  lemma {:induction false} LastModelIs(crafts: seq<Craft>)
    ensures LastModel(crafts).Some? ==> exists c :: c in crafts && c.model == LastModel(crafts)
    ensures LastModel(crafts).None? ==> forall c :: c in crafts ==> c.model.None?
  {
    if crafts != [] {
      var front, last := crafts[..|crafts| - 1], crafts[|crafts| - 1];
      assert crafts == front + [last];
      LastModelIs(front);
      if last.model.Some? {
        assert last in crafts;
      }
    }
  }

  /** Spacecraft that share a name and declare models declare the same one. */
  ghost predicate OneModelPerName(crafts: seq<Craft>) {
    forall c, d :: c in crafts && d in crafts && c.name == d.name && c.model.Some? && d.model.Some? ==>
      c.model == d.model
  }

  lemma SameLastModel(a: seq<Craft>, b: seq<Craft>, name: string)
    requires multiset(a) == multiset(b) && OneModelPerName(a)
    ensures LastModel(WithKey(a, NameOf, name)) == LastModel(WithKey(b, NameOf, name))
  {
    SameMembers(a, b);
    var x, y := WithKey(a, NameOf, name), WithKey(b, NameOf, name);
    WithKeyIs(a, NameOf, name);
    WithKeyIs(b, NameOf, name);
    LastModelIs(x);
    LastModelIs(y);
    assert forall c :: c in x <==> c in y;
  }

  lemma SameVisualModels(s: Setting, a: seq<Craft>, b: seq<Craft>)
    requires multiset(a) == multiset(b) && OneModelPerName(a)
    ensures ConfigOf(s, a).visualModels == ConfigOf(s, b).visualModels
  {
    var m, n := ConfigOf(s, a).visualModels, ConfigOf(s, b).visualModels;
    forall name ensures Lookup(m, name) == Lookup(n, name) {
      VisualModelIsLast(s, a, name);
      VisualModelIsLast(s, b, name);
      SameLastModel(a, b, name);
    }
    SameLookups(m, n);
  }

  lemma SameLookups(m: map<string, string>, n: map<string, string>)
    requires forall name :: Lookup(m, name) == Lookup(n, name)
    ensures m == n
  {
    assert forall name :: name in m <==> Lookup(m, name).Some?;
    assert forall name :: name in n <==> Lookup(n, name).Some?;
    assert forall name :: name in m ==> m[name] == Lookup(m, name).value;
    assert forall name :: name in n ==> n[name] == Lookup(n, name).value;
  }

  lemma SameEntities(s: Setting, a: seq<Craft>, b: seq<Craft>)
    requires multiset(a) == multiset(b)
    ensures multiset(ConfigOf(s, a).entities) == multiset(ConfigOf(s, b).entities)
    ensures EqualIdsEqualWires(ConfigOf(s, a).entities)
  {
    SortedCrafts(a);
    SortedCrafts(b);
    MapElements(ByName(a), ByName(b), EntityFor(s.wire));
  }

  lemma SameScenario(s: Setting, a: seq<Craft>, b: seq<Craft>)
    requires multiset(a) == multiset(b) && OneModelPerName(a)
    ensures Buffer(ConfigOf(s, a), s.utf8) == Buffer(ConfigOf(s, b), s.utf8)
  {
    hide Buffer;
    SameVisualModels(s, a, b);
    SameEntities(s, a, b);
    SameEntitiesSameBuffer(ConfigOf(s, a), ConfigOf(s, b).entities, s.utf8);
    assert ConfigOf(s, a).(entities := ConfigOf(s, b).entities) == ConfigOf(s, b);
  }

  // ---------------------------------------------------------------- two models for one name

  /** Every text and serialization is shorter than 2^64, and no entity starts with byte 0x76. */
  ghost predicate Encodable(s: Setting, crafts: seq<Craft>) {
    && Injective(s.utf8) && |s.frame| < LIMIT && |s.utf8(s.stateSpaceId)| < LIMIT && |s.utf8(s.tool)| < LIMIT
    && forall c :: c in crafts ==>
         && |s.wire(c.name)| < LIMIT && (s.wire(c.name) != [] ==> s.wire(c.name)[0] != 0x76)
         && |s.utf8(c.name)| < LIMIT && (c.model.Some? ==> |s.utf8(c.model.value)| < LIMIT)
  }

  lemma WiresEncodable(s: Setting, crafts: seq<Craft>)
    requires Encodable(s, crafts)
    ensures Short(Wires(SortedEntities(ConfigOf(s, crafts)))) && NoWireType6(Wires(SortedEntities(ConfigOf(s, crafts))))
  {
    var es := ConfigOf(s, crafts).entities;
    StringOrder();
    SortIsStable(es, ConfigHash.IdOf, StringLeq);
    SortedCrafts(crafts);
    WiresOfElements(SortedEntities(ConfigOf(s, crafts)), es);
    forall w | w in Wires(es) ensures |w| < LIMIT && (w != [] ==> w[0] != 0x76) {
      var i :| 0 <= i < |es| && es[i].wire == w;
      assert ByName(crafts)[i] in crafts;
    }
  }

  lemma ModelsEncodable(s: Setting, crafts: seq<Craft>, name: string)
    requires Encodable(s, crafts) && name in ConfigOf(s, crafts).visualModels
    ensures |s.utf8(name)| < LIMIT && |s.utf8(ConfigOf(s, crafts).visualModels[name])| < LIMIT
  {
    VisualModelIsLast(s, crafts, name);
    var named := WithKey(crafts, NameOf, name);
    LastModelIs(named);
    WithKeyIs(crafts, NameOf, name);
    var c :| c in named && c.model == LastModel(named);
    assert c in crafts && c.name == name;
  }

  lemma {:induction false} ModelPartsShort(keys: seq<string>, models: map<string, string>, utf8: string -> Bytes)
    requires forall k :: k in keys ==> k in models && |utf8(k)| < LIMIT && |utf8(models[k])| < LIMIT
    ensures Short(ModelParts(keys, models, utf8))
  {
    if keys != [] {
      ModelPartsShort(keys[1..], models, utf8);
    }
  }

  lemma PartsShort(s: Setting, crafts: seq<Craft>)
    requires Encodable(s, crafts)
    ensures Short(Parts(ConfigOf(s, crafts), s.utf8))
  {
    hide ConfigOf, SortedEntities, Wires, Ascending;
    var c := ConfigOf(s, crafts);
    WiresEncodable(s, crafts);
    forall k | k in Ascending(c.visualModels.Keys) ensures |s.utf8(k)| < LIMIT && |s.utf8(c.visualModels[k])| < LIMIT {
      ModelsEncodable(s, crafts, k);
    }
    ModelPartsShort(Ascending(c.visualModels.Keys), c.visualModels, s.utf8);
    FixedParts(s, crafts);
  }

  lemma FixedParts(s: Setting, crafts: seq<Craft>)
    ensures var c := ConfigOf(s, crafts); c.frame == s.frame && c.stateSpaceId == s.stateSpaceId && c.tool == s.tool
  {
  }

  lemma LastOfName(rest: seq<Craft>, a: Craft, b: Craft)
    requires b.model.Some?
    ensures LastModel(WithKey(rest + [a, b], NameOf, b.name)) == b.model
  {
    assert rest + [a, b] == (rest + [a]) + [b];
    WithKeyLast(rest + [a], b, NameOf, b.name);
  }

  /** Two spacecraft of one name with different models, last in the list in either order: the bytes tell. */
  lemma LastTwoTell(s: Setting, rest: seq<Craft>, a: Craft, b: Craft)
    requires Encodable(s, rest + [a, b]) && a.name == b.name && a.model.Some? && b.model.Some? && a.model != b.model
    ensures Buffer(ConfigOf(s, rest + [a, b]), s.utf8) != Buffer(ConfigOf(s, rest + [b, a]), s.utf8)
  {
    hide Buffer, Parts, ConfigOf, Encodable;
    var x, y := rest + [a, b], rest + [b, a];
    StillEncodable(s, x, y);
    PartsShort(s, x);
    PartsShort(s, y);
    WiresEncodable(s, x);
    WiresEncodable(s, y);
    VisualModelIsLast(s, x, a.name);
    VisualModelIsLast(s, y, a.name);
    LastOfName(rest, a, b);
    LastOfName(rest, b, a);
    EncodableIsInjective(s, x);
    if Buffer(ConfigOf(s, x), s.utf8) == Buffer(ConfigOf(s, y), s.utf8) {
      BufferInjective(ConfigOf(s, x), ConfigOf(s, y), s.utf8);
    }
  }

  lemma EncodableIsInjective(s: Setting, crafts: seq<Craft>)
    requires Encodable(s, crafts)
    ensures Injective(s.utf8)
  {
  }

  lemma StillEncodable(s: Setting, x: seq<Craft>, y: seq<Craft>)
    requires Encodable(s, x) && forall c :: c in y ==> c in x
    ensures Encodable(s, y)
  {
  }

  lemma TwoToTheEnd(crafts: seq<Craft>, i: nat, j: nat) returns (rest: seq<Craft>)
    requires i < j < |crafts|
    ensures multiset(rest + [crafts[i], crafts[j]]) == multiset(crafts)
  {
    rest := TwoToTheFront(crafts, i, j);
    assert multiset(rest + [crafts[i], crafts[j]]) == multiset([crafts[i], crafts[j]] + rest);
  }

  lemma TwoOfOneName(crafts: seq<Craft>) returns (i: nat, j: nat)
    requires !OneModelPerName(crafts)
    ensures i < j < |crafts| && crafts[i].name == crafts[j].name
    ensures crafts[i].model.Some? && crafts[j].model.Some? && crafts[i].model != crafts[j].model
  {
    var c, d :| c in crafts && d in crafts && c.name == d.name && c.model.Some? && d.model.Some? && c.model != d.model;
    i :| 0 <= i < |crafts| && crafts[i] == c;
    j :| 0 <= j < |crafts| && crafts[j] == d;
    if j < i {
      i, j := j, i;
    }
  }

  lemma SwapLastTwo(rest: seq<Craft>, a: Craft, b: Craft)
    ensures multiset(rest + [b, a]) == multiset(rest + [a, b])
  {
  }

  lemma TwoModelsTell(s: Setting, crafts: seq<Craft>) returns (x: seq<Craft>, y: seq<Craft>)
    requires Encodable(s, crafts) && !OneModelPerName(crafts)
    ensures multiset(x) == multiset(crafts) && multiset(y) == multiset(crafts)
    ensures Buffer(ConfigOf(s, x), s.utf8) != Buffer(ConfigOf(s, y), s.utf8)
  {
    hide Buffer, ConfigOf, Encodable, OneModelPerName;
    var i, j := TwoOfOneName(crafts);
    var a, b := crafts[i], crafts[j];
    var rest := TwoToTheEnd(crafts, i, j);
    SwapLastTwo(rest, a, b);
    x, y := rest + [a, b], rest + [b, a];
    SameMembers(x, crafts);
    StillEncodable(s, crafts, x);
    LastTwoTell(s, rest, a, b);
  }

  // ---------------------------------------------------------------- what the bytes tell

  /** Nothing is hashed exactly when some spacecraft's model is blank. */
  lemma RejectedIff(s: Setting, crafts: seq<Craft>)
    ensures ScenarioBuffer(s, crafts) == None
        <==> exists c :: c in crafts && c.model.Some? && Blank(c.model.value, s.white)
  {
    forall c ensures BadCraft(s, c) <==> c.model.Some? && Blank(c.model.value, s.white) {
      if c.model.Some? {
        BlankIff(c.model.value, s.white);
      }
    }
  }

  /** The bytes read back: the setting, the serialized entity of each spacecraft in name order, and the last model
      declared for each name that has one, in name order. */
  lemma ScenarioBytes(s: Setting, crafts: seq<Craft>) returns (names: seq<string>, modelled: seq<string>)
    requires Encodable(s, crafts) && ScenarioBuffer(s, crafts).Some?
    ensures multiset(names) == multiset(Map(crafts, NameOf)) && |names| == |crafts|
    ensures forall i, j :: 0 <= i < j < |names| ==> StringLeq(names[i], names[j])
    ensures forall i, j :: 0 <= i < j < |modelled| ==> modelled[i] != modelled[j] && StringLeq(modelled[i], modelled[j])
    ensures forall x :: x in modelled <==> LastModel(WithKey(crafts, NameOf, x)).Some?
    ensures Chunks(ScenarioBuffer(s, crafts).value).Some?
    ensures var p, n := Chunks(ScenarioBuffer(s, crafts).value).value, 3 + |names|;
      && |p| == n + 3 * |modelled|
      && p[0] == s.frame && p[1] == s.utf8(s.stateSpaceId) && p[2] == s.utf8(s.tool)
      && (forall i :: 0 <= i < |names| ==> p[3 + i] == s.wire(names[i]))
      && (forall j :: 0 <= j < |modelled| ==>
            && p[n + 3 * j] == TAG && p[n + 3 * j + 1] == s.utf8(modelled[j])
            && p[n + 3 * j + 2] == s.utf8(LastModel(WithKey(crafts, NameOf, modelled[j])).value))
  {
    hide Chunks, Buffer, Encodable, Sort, Listed, Parts;
    var c := ConfigOf(s, crafts);
    PartsShort(s, crafts);
    var order: seq<Entity>;
    order, modelled := BufferIs(c, s.utf8);
    names := Map(order, ConfigHash.IdOf);
    NamesOf(s, crafts, order);
    ModelNames(s, crafts, modelled);
  }

  lemma EntitiesNamed(crafts: seq<Craft>, wire: string -> Bytes)
    ensures var es := Map(crafts, EntityFor(wire));
      Map(es, ConfigHash.IdOf) == Map(crafts, NameOf) && forall e :: e in es ==> e.wire == wire(e.id)
  {
    var es := Map(crafts, EntityFor(wire));
    forall i | 0 <= i < |crafts| ensures Map(es, ConfigHash.IdOf)[i] == Map(crafts, NameOf)[i] {
      assert es[i] == EntityFor(wire)(crafts[i]) == Entity(crafts[i].name, wire(crafts[i].name));
      assert ConfigHash.IdOf(es[i]) == crafts[i].name == NameOf(crafts[i]);
    }
  }

  lemma SameLength<T>(a: seq<T>, b: seq<T>)
    requires multiset(a) == multiset(b)
    ensures |a| == |b|
  {
    assert |a| == |multiset(a)| && |b| == |multiset(b)|;
  }

  lemma NamesOf(s: Setting, crafts: seq<Craft>, order: seq<Entity>)
    requires multiset(order) == multiset(ConfigOf(s, crafts).entities) && Ordered(order, ConfigHash.IdOf, StringLeq)
    ensures var names := Map(order, ConfigHash.IdOf);
      && multiset(names) == multiset(Map(crafts, NameOf)) && |names| == |crafts| == |order|
      && (forall i, j :: 0 <= i < j < |names| ==> StringLeq(names[i], names[j]))
      && (forall i :: 0 <= i < |order| ==> order[i].wire == s.wire(names[i]))
  {
    hide Sort, ByName, EntityFor, StringLeq;
    var es := ConfigOf(s, crafts).entities;
    var names := Map(order, ConfigHash.IdOf);
    SortedCrafts(crafts);
    EntitiesNamed(ByName(crafts), s.wire);
    MapElements(order, es, ConfigHash.IdOf);
    MapElements(ByName(crafts), crafts, NameOf);
    SameLength(order, es);
    SameLength(ByName(crafts), crafts);
    forall i | 0 <= i < |order| ensures order[i].wire == s.wire(names[i]) {
      assert order[i] in multiset(es);
    }
    forall i, j | 0 <= i < j < |names| ensures StringLeq(names[i], names[j]) {
      assert StringLeq(ConfigHash.IdOf(order[i]), ConfigHash.IdOf(order[j]));
    }
  }

  lemma ModelNames(s: Setting, crafts: seq<Craft>, modelled: seq<string>)
    requires Listed(modelled, ConfigOf(s, crafts).visualModels.Keys)
    ensures forall x :: x in modelled <==> LastModel(WithKey(crafts, NameOf, x)).Some?
    ensures forall x :: x in modelled ==>
      Some(ConfigOf(s, crafts).visualModels[x]) == LastModel(WithKey(crafts, NameOf, x))
    ensures forall i, j :: 0 <= i < j < |modelled| ==> modelled[i] != modelled[j] && StringLeq(modelled[i], modelled[j])
  {
    forall x
      ensures x in modelled <==> LastModel(WithKey(crafts, NameOf, x)).Some?
      ensures x in modelled ==> Some(ConfigOf(s, crafts).visualModels[x]) == LastModel(WithKey(crafts, NameOf, x))
    {
      VisualModelIsLast(s, crafts, x);
    }
  }

  /** Names that are serialized alike are equal. */
  ghost predicate WireTells(s: Setting, names: seq<string>) {
    forall i, j :: 0 <= i < |names| && 0 <= j < |names| && s.wire(names[i]) == s.wire(names[j]) ==> names[i] == names[j]
  }

  /** Equal bytes come only from the same serialized entities in name order, hence from the same names if these are told
      by their bytes, and from the same models. */
  lemma EqualBytesEqualCrafts(s: Setting, a: seq<Craft>, b: seq<Craft>) returns (x: seq<string>, y: seq<string>)
    requires Encodable(s, a) && Encodable(s, b)
    requires ScenarioBuffer(s, a).Some? && ScenarioBuffer(s, a) == ScenarioBuffer(s, b)
    ensures multiset(x) == multiset(Map(a, NameOf)) && multiset(y) == multiset(Map(b, NameOf))
    ensures (forall i, j :: 0 <= i < j < |x| ==> StringLeq(x[i], x[j]))
        && forall i, j :: 0 <= i < j < |y| ==> StringLeq(y[i], y[j])
    ensures |x| == |y| && forall i :: 0 <= i < |x| ==> s.wire(x[i]) == s.wire(y[i])
    ensures WireTells(s, x + y) ==> multiset(Map(a, NameOf)) == multiset(Map(b, NameOf))
    ensures forall n :: LastModel(WithKey(a, NameOf, n)) == LastModel(WithKey(b, NameOf, n))
  {
    hide Buffer, Parts, Encodable, Sort;
    var c, d := ConfigOf(s, a), ConfigOf(s, b);
    PartsShort(s, a);
    PartsShort(s, b);
    WiresEncodable(s, a);
    WiresEncodable(s, b);
    EncodableIsInjective(s, a);
    BufferInjective(c, d, s.utf8);
    var es, fs := SortedEntities(c), SortedEntities(d);
    StringOrder();
    SortIsStable(c.entities, ConfigHash.IdOf, StringLeq);
    SortIsStable(d.entities, ConfigHash.IdOf, StringLeq);
    NamesOf(s, a, es);
    NamesOf(s, b, fs);
    x, y := Map(es, ConfigHash.IdOf), Map(fs, ConfigHash.IdOf);
    SameWires(s, es, fs, x, y);
    forall n ensures LastModel(WithKey(a, NameOf, n)) == LastModel(WithKey(b, NameOf, n)) {
      VisualModelIsLast(s, a, n);
      VisualModelIsLast(s, b, n);
    }
  }

  lemma SameWires(s: Setting, es: seq<Entity>, fs: seq<Entity>, x: seq<string>, y: seq<string>)
    requires Wires(es) == Wires(fs) && |x| == |es| && |y| == |fs|
    requires forall i :: 0 <= i < |es| ==> es[i].wire == s.wire(x[i])
    requires forall i :: 0 <= i < |fs| ==> fs[i].wire == s.wire(y[i])
    ensures |x| == |y| && forall i :: 0 <= i < |x| ==> s.wire(x[i]) == s.wire(y[i])
    ensures WireTells(s, x + y) ==> x == y
  {
    assert |Wires(es)| == |es| && |Wires(fs)| == |fs|;
    forall i | 0 <= i < |x| ensures s.wire(x[i]) == s.wire(y[i]) {
      assert Wires(es)[i] == Wires(fs)[i];
    }
    if WireTells(s, x + y) {
      forall i | 0 <= i < |x| ensures x[i] == y[i] {
        assert (x + y)[i] == x[i] && (x + y)[|x| + i] == y[i];
      }
    }
  }

  /** What a scenario hashes is the same for every order of its spacecraft exactly when no two spacecraft of one
      name declare different models (or some model is invalid and nothing is built). */
  lemma SpacecraftOrderIff(s: Setting, crafts: seq<Craft>)
    requires Encodable(s, crafts)
    ensures (forall ys :: multiset(ys) == multiset(crafts) ==> ScenarioBuffer(s, ys) == ScenarioBuffer(s, crafts))
        <==> OneModelPerName(crafts) || exists c :: c in crafts && BadCraft(s, c)
  {
    hide Encodable, Buffer, ConfigOf, BadCraft, OneModelPerName;
    forall ys | multiset(ys) == multiset(crafts)
      ensures ScenarioBuffer(s, ys).None? <==> ScenarioBuffer(s, crafts).None?
    {
      SameMembers(ys, crafts);
    }
    if exists c :: c in crafts && BadCraft(s, c) {
    } else if OneModelPerName(crafts) {
      forall ys | multiset(ys) == multiset(crafts) ensures ScenarioBuffer(s, ys) == ScenarioBuffer(s, crafts) {
        SameScenario(s, crafts, ys);
      }
    } else {
      var x, y := TwoModelsTell(s, crafts);
      assert ScenarioBuffer(s, x) != ScenarioBuffer(s, crafts) || ScenarioBuffer(s, y) != ScenarioBuffer(s, crafts);
    }
  }

  lemma OneVisibleCharacter(model: string, i: nat, white: char -> bool)
    requires i < |model| && !white(model[i])
    ensures ModelOk(model, white)
  {
  }

  /** Two spacecraft both called "sat", with models "/a.glb" and "/b.glb": their order reaches the hash. */
  lemma TwoModelsForOneName(s: Setting)
    requires Encodable(s, [Craft("sat", Some("/a.glb")), Craft("sat", Some("/b.glb"))]) && !s.white('/')
    ensures
      var a, b := Craft("sat", Some("/a.glb")), Craft("sat", Some("/b.glb"));
      ScenarioBuffer(s, [a, b]).Some? && ScenarioBuffer(s, [a, b]) != ScenarioBuffer(s, [b, a])
  {
    hide Buffer, ConfigOf, Encodable, ModelOk;
    var a, b := Craft("sat", Some("/a.glb")), Craft("sat", Some("/b.glb"));
    assert a.model.value[1] == 'a' && b.model.value[1] == 'b';
    OneVisibleCharacter(a.model.value, 0, s.white);
    OneVisibleCharacter(b.model.value, 0, s.white);
    assert [] + [a, b] == [a, b] && [] + [b, a] == [b, a];
    LastTwoTell(s, [], a, b);
  }
}
