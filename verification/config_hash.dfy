/** The bytes `_config_hash` of altavista/cdm.py hands to SHA-256. */
module ConfigHash {
  import opened Base
  import opened Ordering

  type Byte = b: int | 0 <= b < 256

  type Bytes = seq<Byte>

  /** An entity's id and its deterministic serialization. */
  datatype Entity = Entity(id: string, wire: Bytes)

  datatype Config = Config(frame: Bytes, stateSpaceId: string, tool: string, entities: seq<Entity>,
                           visualModels: map<string, string>)

  /** b"visual_model_uri" */
  const TAG: Bytes := [0x76, 105, 115, 117, 97, 108, 95, 109, 111, 100, 101, 108, 95, 117, 114, 105]

  const LIMIT := 0x1_0000_0000_0000_0000

  // ---------------------------------------------------------------- the code

  /** n.to_bytes(k, "big") for n < 256^k. */
  function BigEndian(n: nat, k: nat): (b: Bytes)
    ensures |b| == k
  {
    if k == 0 then [] else BigEndian(n / 256, k - 1) + [n % 256]
  }

  /** The parts, each after its length in eight bytes. */
  function Joined(parts: seq<Bytes>): Bytes {
    if parts == [] then [] else BigEndian(|parts[0]|, 8) + parts[0] + Joined(parts[1..])
  }

  function IdOf(e: Entity): string { e.id }

  function Wires(es: seq<Entity>): seq<Bytes> {
    seq(|es|, i requires 0 <= i < |es| => es[i].wire)
  }

  function SortedEntities(c: Config): seq<Entity> {
    Sort(c.entities, IdOf, StringLeq)
  }

  /** The three parts of each declared model, in the order of the keys given. */
  function ModelParts(keys: seq<string>, models: map<string, string>, utf8: string -> Bytes): seq<Bytes>
    requires forall k :: k in keys ==> k in models
  {
    if keys == [] then [] else [TAG, utf8(keys[0]), utf8(models[keys[0]])] + ModelParts(keys[1..], models, utf8)
  }

  function Parts(c: Config, utf8: string -> Bytes): seq<Bytes> {
    [c.frame, utf8(c.stateSpaceId), utf8(c.tool)] + Wires(SortedEntities(c))
    + ModelParts(Ascending(c.visualModels.Keys), c.visualModels, utf8)
  }

  function Buffer(c: Config, utf8: string -> Bytes): Bytes {
    Joined(Parts(c, utf8))
  }

  lemma {:induction false} ModelPartsAppend(a: seq<string>, k: string, models: map<string, string>,
                                            utf8: string -> Bytes)
    requires forall x :: x in a + [k] ==> x in models
    ensures k in models && forall x :: x in a ==> x in models
    ensures ModelParts(a + [k], models, utf8) == ModelParts(a, models, utf8) + [TAG, utf8(k), utf8(models[k])]
  {
    assert k in a + [k];
    assert forall x :: x in a ==> x in a + [k];
    if a != [] {
      assert (a + [k])[1..] == a[1..] + [k];
      ModelPartsAppend(a[1..], k, models, utf8);
    } else {
      assert a + [k] == [k] && [k][1..] == [];
    }
  }

  lemma NoModelParts(models: map<string, string>, utf8: string -> Bytes)
    ensures ModelParts([], models, utf8) == []
  {
  }

  method ConfigBuffer(c: Config, utf8: string -> Bytes) returns (buf: Bytes)
    ensures buf == Buffer(c, utf8)
  {
    hide Ascending, ModelParts, Sort, Joined;
    var parts := [c.frame, utf8(c.stateSpaceId), utf8(c.tool)];
    var es := SortedEntities(c);
    var i := 0;
    while i < |es|
      invariant 0 <= i <= |es|
      invariant parts == [c.frame, utf8(c.stateSpaceId), utf8(c.tool)] + Wires(es[..i])
    {
      parts := parts + [es[i].wire];
      assert Wires(es[..i + 1]) == Wires(es[..i]) + [es[i].wire];
      i := i + 1;
    }
    assert es[..i] == es;
    ghost var before := parts;
    NoModelParts(c.visualModels, utf8);
    var keys := Ascending(c.visualModels.Keys);
    i := 0;
    while i < |keys|
      invariant 0 <= i <= |keys|
      invariant parts == before + ModelParts(keys[..i], c.visualModels, utf8)
    {
      assert keys[..i + 1] == keys[..i] + [keys[i]];
      ModelPartsAppend(keys[..i], keys[i], c.visualModels, utf8);
      parts := parts + [TAG, utf8(keys[i]), utf8(c.visualModels[keys[i]])];
      i := i + 1;
    }
    assert keys[..i] == keys;
    buf := Joined(parts);
  }

  // ---------------------------------------------------------------- lengths

  function Power(k: nat): nat { if k == 0 then 1 else 256 * Power(k - 1) }

  /** The number whose base-256 digits are b, most significant first. */
  function Value(b: Bytes): nat {
    if b == [] then 0 else Value(b[..|b| - 1]) * 256 + b[|b| - 1]
  }

  lemma {:induction false} ValueOfBigEndian(n: nat, k: nat)
    requires n < Power(k)
    ensures Value(BigEndian(n, k)) == n
  {
    if k > 0 {
      assert BigEndian(n, k)[..k - 1] == BigEndian(n / 256, k - 1);
      ValueOfBigEndian(n / 256, k - 1);
    }
  }

  lemma PowerOfEight()
    ensures Power(8) == LIMIT
  {
    assert Power(2) == 0x1_0000;
    assert Power(4) == 0x1_0000_0000;
    assert Power(6) == 0x1_0000_0000_0000;
  }

  ghost predicate Short(parts: seq<Bytes>) {
    forall p :: p in parts ==> |p| < LIMIT
  }

  lemma SplitAt<T>(a: seq<T>, s: seq<T>, b: seq<T>, t: seq<T>)
    requires |a| == |b| && a + s == b + t
    ensures a == b && s == t
  {
    assert (a + s)[..|a|] == a && (b + t)[..|b|] == b;
    assert (a + s)[|a|..] == s && (b + t)[|b|..] == t;
  }

  lemma SplitThree<T>(a: seq<T>, p: seq<T>, s: seq<T>, b: seq<T>, q: seq<T>, t: seq<T>)
    requires |a| == |b| && a + p + s == b + q + t
    ensures a == b && p + s == q + t
  {
    assert a + p + s == a + (p + s) && b + q + t == b + (q + t);
    SplitAt(a, p + s, b, q + t);
  }

  lemma LengthOf(p: nat, q: nat)
    requires p < LIMIT && q < LIMIT && BigEndian(p, 8) == BigEndian(q, 8)
    ensures p == q
  {
    hide BigEndian, Power;
    PowerOfEight();
    ValueOfBigEndian(p, 8);
    ValueOfBigEndian(q, 8);
  }

  lemma SplitFirst(p: Bytes, s: Bytes, q: Bytes, t: Bytes)
    requires |p| < LIMIT && |q| < LIMIT && BigEndian(|p|, 8) + p + s == BigEndian(|q|, 8) + q + t
    ensures p == q && s == t
  {
    hide BigEndian;
    SplitThree(BigEndian(|p|, 8), p, s, BigEndian(|q|, 8), q, t);
    LengthOf(|p|, |q|);
    SplitAt(p, s, q, t);
  }

  /** The joined bytes determine the list of parts. */
  lemma {:induction false} JoinedInjective(a: seq<Bytes>, b: seq<Bytes>)
    requires Short(a) && Short(b) && Joined(a) == Joined(b)
    ensures a == b
    decreases |a|
  {
    assert a != [] ==> |Joined(a)| >= 8;
    assert b != [] ==> |Joined(b)| >= 8;
    if a != [] {
      SplitFirst(a[0], Joined(a[1..]), b[0], Joined(b[1..]));
      JoinedInjective(a[1..], b[1..]);
      assert a == [a[0]] + a[1..] && b == [b[0]] + b[1..];
    }
  }

  // ---------------------------------------------------------------- entities and models

  ghost predicate Injective(utf8: string -> Bytes) {
    forall a, b :: utf8(a) == utf8(b) ==> a == b
  }

  /** No serialized message starts with a key of wire type 6. */
  ghost predicate NoWireType6(wires: seq<Bytes>) {
    forall w :: w in wires && w != [] ==> w[0] != 0x76
  }

  ghost predicate TagFirst(parts: seq<Bytes>) {
    parts != [] ==> parts[0] == TAG
  }

  lemma TagInside(es: seq<Bytes>, ms: seq<Bytes>, fs: seq<Bytes>, ns: seq<Bytes>)
    requires es + ms == fs + ns && TagFirst(ms) && |es| < |fs|
    ensures TAG in fs
  {
    assert (es + ms)[|es|] == ms[0] && (fs + ns)[|es|] == fs[|es|];
  }

  lemma EntitiesEnd(es: seq<Bytes>, ms: seq<Bytes>, fs: seq<Bytes>, ns: seq<Bytes>)
    requires es + ms == fs + ns && NoWireType6(fs) && TagFirst(ms)
    ensures |es| >= |fs|
  {
    if |es| < |fs| {
      TagInside(es, ms, fs, ns);
    }
  }

  lemma EntitiesApart(es: seq<Bytes>, ms: seq<Bytes>, fs: seq<Bytes>, ns: seq<Bytes>)
    requires es + ms == fs + ns && NoWireType6(es) && NoWireType6(fs) && TagFirst(ms) && TagFirst(ns)
    ensures es == fs && ms == ns
  {
    EntitiesEnd(es, ms, fs, ns);
    EntitiesEnd(fs, ns, es, ms);
    assert (es + ms)[..|es|] == es && (fs + ns)[..|fs|] == fs;
    assert (es + ms)[|es|..] == ms && (fs + ns)[|fs|..] == ns;
  }

  lemma {:induction false} ModelPartsInjective(ks: seq<string>, a: map<string, string>, ls: seq<string>,
                                               b: map<string, string>, utf8: string -> Bytes)
    requires Injective(utf8)
    requires forall k :: k in ks ==> k in a
    requires forall k :: k in ls ==> k in b
    requires ModelParts(ks, a, utf8) == ModelParts(ls, b, utf8)
    ensures ks == ls && forall k :: k in ks ==> a[k] == b[k]
    decreases |ks|
  {
    if ks != [] && ls != [] {
      var p, q := ModelParts(ks, a, utf8), ModelParts(ls, b, utf8);
      assert p[1] == utf8(ks[0]) && q[1] == utf8(ls[0]);
      assert p[2] == utf8(a[ks[0]]) && q[2] == utf8(b[ls[0]]);
      assert p[3..] == ModelParts(ks[1..], a, utf8) && q[3..] == ModelParts(ls[1..], b, utf8);
      ModelPartsInjective(ks[1..], a, ls[1..], b, utf8);
      assert ks == [ks[0]] + ks[1..] && ls == [ls[0]] + ls[1..];
    }
  }

  lemma SameModels(a: map<string, string>, b: map<string, string>, utf8: string -> Bytes)
    requires Injective(utf8)
    requires ModelParts(Ascending(a.Keys), a, utf8) == ModelParts(Ascending(b.Keys), b, utf8)
    ensures a == b
  {
    hide Ascending, ModelParts;
    ModelPartsInjective(Ascending(a.Keys), a, Ascending(b.Keys), b, utf8);
    assert forall k :: k in a <==> k in Ascending(a.Keys);
    assert forall k :: k in b <==> k in Ascending(b.Keys);
  }

  lemma ThreeFirst(x: Bytes, y: Bytes, z: Bytes, s: seq<Bytes>, x': Bytes, y': Bytes, z': Bytes, t: seq<Bytes>)
    requires [x, y, z] + s == [x', y', z'] + t
    ensures x == x' && y == y' && z == z' && s == t
  {
    var p, q := [x, y, z] + s, [x', y', z'] + t;
    assert p[0] == x && p[1] == y && p[2] == z && p[3..] == s;
    assert q[0] == x' && q[1] == y' && q[2] == z' && q[3..] == t;
  }

  /** Equal bytes come only from equal frames, state-space ids, tools, sorted entities and models, for every
      serialization that never starts an entity with byte 0x76. */
  lemma BufferInjective(c: Config, d: Config, utf8: string -> Bytes)
    requires Injective(utf8) && Short(Parts(c, utf8)) && Short(Parts(d, utf8))
    requires NoWireType6(Wires(SortedEntities(c))) && NoWireType6(Wires(SortedEntities(d)))
    requires Buffer(c, utf8) == Buffer(d, utf8)
    ensures c.frame == d.frame && c.stateSpaceId == d.stateSpaceId && c.tool == d.tool
    ensures Wires(SortedEntities(c)) == Wires(SortedEntities(d))
    ensures c.visualModels == d.visualModels
  {
    JoinedInjective(Parts(c, utf8), Parts(d, utf8));
    var es, fs := Wires(SortedEntities(c)), Wires(SortedEntities(d));
    var ms, ns := ModelParts(Ascending(c.visualModels.Keys), c.visualModels, utf8),
                  ModelParts(Ascending(d.visualModels.Keys), d.visualModels, utf8);
    Regroup(c.frame, utf8(c.stateSpaceId), utf8(c.tool), es, ms);
    Regroup(d.frame, utf8(d.stateSpaceId), utf8(d.tool), fs, ns);
    ThreeFirst(c.frame, utf8(c.stateSpaceId), utf8(c.tool), es + ms, d.frame, utf8(d.stateSpaceId), utf8(d.tool),
      fs + ns);
    EntitiesApart(es, ms, fs, ns);
    SameModels(c.visualModels, d.visualModels, utf8);
  }

  /** The bytes begin with the frame's length, big-endian in eight bytes, and the frame. */
  lemma BufferStartsWithFrame(c: Config, utf8: string -> Bytes)
    requires |c.frame| < LIMIT
    ensures var b := Buffer(c, utf8);
      |b| >= 8 + |c.frame| && Value(b[..8]) == |c.frame| && b[8..8 + |c.frame|] == c.frame
  {
    hide BigEndian, Value, Power, Wires, ModelParts, Ascending, Sort;
    var parts := Parts(c, utf8);
    assert parts[0] == c.frame;
    var n, rest := BigEndian(|c.frame|, 8), Joined(parts[1..]);
    PowerOfEight();
    ValueOfBigEndian(|c.frame|, 8);
    assert Joined(parts) == n + c.frame + rest;
    assert (n + c.frame + rest)[..8] == n;
    assert (n + c.frame + rest)[8..8 + |c.frame|] == c.frame;
  }

  lemma Regroup(x: Bytes, y: Bytes, z: Bytes, s: seq<Bytes>, t: seq<Bytes>)
    ensures [x, y, z] + s + t == [x, y, z] + (s + t)
  {
  }

  // ---------------------------------------------------------------- reading the bytes

  /** The chunks of a buffer, each after its length in eight bytes; None is a buffer that ends inside one. */
  function Chunks(b: Bytes): Option<seq<Bytes>>
    decreases |b|
  {
    if b == [] then Some([])
    else if |b| < 8 || |b| < 8 + Value(b[..8]) then None
    else
      var n := 8 + Value(b[..8]);
      match Chunks(b[n..])
      case None => None
      case Some(rest) => Some([b[8..n]] + rest)
  }

  lemma FirstChunk(p: Bytes, rest: Bytes)
    requires |p| < LIMIT
    ensures var b := BigEndian(|p|, 8) + p + rest;
      |b| >= 8 + |p| && Value(b[..8]) == |p| && b[8..8 + |p|] == p && b[8 + |p|..] == rest
  {
    hide BigEndian, Value, Power;
    var n := BigEndian(|p|, 8);
    PowerOfEight();
    ValueOfBigEndian(|p|, 8);
    assert (n + p + rest)[..8] == n;
    assert (n + p + rest)[8..8 + |p|] == p;
    assert (n + p + rest)[8 + |p|..] == rest;
  }

  lemma ChunksCons(p: Bytes, rest: Bytes)
    requires |p| < LIMIT && Chunks(rest).Some?
    ensures Chunks(BigEndian(|p|, 8) + p + rest) == Some([p] + Chunks(rest).value)
  {
    hide BigEndian, Value;
    FirstChunk(p, rest);
  }

  lemma JoinedCons(parts: seq<Bytes>)
    requires parts != []
    ensures Joined(parts) == BigEndian(|parts[0]|, 8) + parts[0] + Joined(parts[1..])
    ensures [parts[0]] + parts[1..] == parts
    ensures Short(parts) ==> |parts[0]| < LIMIT && Short(parts[1..])
  {
  }

  lemma NothingJoined()
    ensures Chunks(Joined([])) == Some([])
  {
  }

  /** Reading what was joined gives the parts back. */
  lemma {:induction false} ChunksOfJoined(parts: seq<Bytes>)
    requires Short(parts)
    ensures Chunks(Joined(parts)) == Some(parts)
  {
    hide *;
    if parts == [] {
      NothingJoined();
    } else {
      JoinedCons(parts);
      ChunksOfJoined(parts[1..]);
      ChunksCons(parts[0], Joined(parts[1..]));
    }
  }

  lemma {:induction false} ModelPartsAt(keys: seq<string>, models: map<string, string>, utf8: string -> Bytes, j: nat)
    requires (forall k :: k in keys ==> k in models) && j < |keys|
    ensures var p := ModelParts(keys, models, utf8);
      && |p| == 3 * |keys|
      && p[3 * j] == TAG && p[3 * j + 1] == utf8(keys[j]) && p[3 * j + 2] == utf8(models[keys[j]])
  {
    if j > 0 {
      ModelPartsAt(keys[1..], models, utf8, j - 1);
    } else if |keys| > 1 {
      ModelPartsAt(keys[1..], models, utf8, 0);
    }
  }

  lemma {:induction false} ModelPartsLength(keys: seq<string>, models: map<string, string>, utf8: string -> Bytes)
    requires forall k :: k in keys ==> k in models
    ensures |ModelParts(keys, models, utf8)| == 3 * |keys|
  {
    if keys != [] {
      ModelPartsLength(keys[1..], models, utf8);
    }
  }

  /** The tag is the ASCII of "visual_model_uri", and a length is written most significant byte first. */
  lemma TagSpells()
    ensures |TAG| == 16 && forall i :: 0 <= i < 16 ==> TAG[i] == "visual_model_uri"[i] as int
    ensures BigEndian(66051, 8) == [0, 0, 0, 0, 0, 1, 2, 3]
  {
    assert BigEndian(0, 5) == [0, 0, 0, 0, 0] by {
      assert BigEndian(0, 3) == [0, 0, 0];
    }
    assert BigEndian(1, 6) == [0, 0, 0, 0, 0, 1] && BigEndian(258, 7) == [0, 0, 0, 0, 0, 1, 2];
  }

  /** The names in ascending order, each once. */
  ghost predicate Listed(names: seq<string>, all: set<string>) {
    && (forall x :: x in names <==> x in all)
    && forall i, j :: 0 <= i < j < |names| ==> names[i] != names[j] && StringLeq(names[i], names[j])
  }

  lemma PiecesAt<T>(x: T, y: T, z: T, s: seq<T>, t: seq<T>)
    ensures var p := [x, y, z] + s + t;
      && |p| == 3 + |s| + |t| && p[0] == x && p[1] == y && p[2] == z
      && (forall i :: 0 <= i < |s| ==> p[3 + i] == s[i])
      && (forall i :: 0 <= i < |t| ==> p[3 + |s| + i] == t[i])
  {
  }

  /** The chunks are the frame, the state-space id, the tool, the entities in this order, and three for each key. */
  ghost predicate LaidOut(p: seq<Bytes>, c: Config, order: seq<Entity>, keys: seq<string>, utf8: string -> Bytes)
    requires forall k :: k in keys ==> k in c.visualModels
  {
    var n := 3 + |order|;
    && |p| == n + 3 * |keys|
    && p[0] == c.frame && p[1] == utf8(c.stateSpaceId) && p[2] == utf8(c.tool)
    && (forall i :: 0 <= i < |order| ==> p[3 + i] == order[i].wire)
    && (forall j :: 0 <= j < |keys| ==>
          && p[n + 3 * j] == TAG && p[n + 3 * j + 1] == utf8(keys[j])
          && p[n + 3 * j + 2] == utf8(c.visualModels[keys[j]]))
  }

  lemma ThreeAt<T>(p: seq<T>, n: nat, t: seq<T>, j: nat)
    requires |p| == n + |t| && (forall i :: 0 <= i < |t| ==> p[n + i] == t[i]) && 3 * j + 2 < |t|
    ensures p[n + 3 * j] == t[3 * j] && p[n + 3 * j + 1] == t[3 * j + 1] && p[n + 3 * j + 2] == t[3 * j + 2]
  {
    var k := 3 * j;
    assert p[n + k] == t[k] && p[n + (k + 1)] == t[k + 1] && p[n + (k + 2)] == t[k + 2];
  }

  lemma WiresAre(es: seq<Entity>)
    ensures |Wires(es)| == |es| && forall i :: 0 <= i < |es| ==> Wires(es)[i] == es[i].wire
  {
  }

  lemma PartsLaidOut(c: Config, order: seq<Entity>, keys: seq<string>, utf8: string -> Bytes)
    requires forall k :: k in keys ==> k in c.visualModels
    ensures LaidOut([c.frame, utf8(c.stateSpaceId), utf8(c.tool)] + Wires(order)
                      + ModelParts(keys, c.visualModels, utf8),
                    c, order, keys, utf8)
  {
    hide ModelParts, Wires;
    var models := ModelParts(keys, c.visualModels, utf8);
    WiresAre(order);
    PiecesAt(c.frame, utf8(c.stateSpaceId), utf8(c.tool), Wires(order), models);
    ModelPartsLength(keys, c.visualModels, utf8);
    var p, n := [c.frame, utf8(c.stateSpaceId), utf8(c.tool)] + Wires(order) + models, 3 + |order|;
    forall j | 0 <= j < |keys|
      ensures p[n + 3 * j] == TAG && p[n + 3 * j + 1] == utf8(keys[j])
        && p[n + 3 * j + 2] == utf8(c.visualModels[keys[j]])
    {
      hide *;
      ModelPartsAt(keys, c.visualModels, utf8, j);
      ThreeAt(p, n, models, j);
    }
  }

  /** Read back, the bytes are the frame, the state-space id, the tool, each entity by ascending id, those of one id in
      their order, and for each declared model by ascending id the tag, the id and the reference. */
  lemma BufferIs(c: Config, utf8: string -> Bytes) returns (order: seq<Entity>, keys: seq<string>)
    requires Short(Parts(c, utf8))
    ensures multiset(order) == multiset(c.entities) && Ordered(order, IdOf, StringLeq)
    ensures forall id :: WithKey(order, IdOf, id) == WithKey(c.entities, IdOf, id)
    ensures Listed(keys, c.visualModels.Keys)
    ensures Chunks(Buffer(c, utf8)).Some? && LaidOut(Chunks(Buffer(c, utf8)).value, c, order, keys, utf8)
  {
    hide Ordering.Ascending, Sort, Joined, ModelParts, LaidOut, Chunks;
    order, keys := SortedEntities(c), Ascending(c.visualModels.Keys);
    StringOrder();
    SortIsStable(c.entities, IdOf, StringLeq);
    ChunksOfJoined(Parts(c, utf8));
    PartsLaidOut(c, order, keys, utf8);
  }

  // ---------------------------------------------------------------- the order of the entities

  /** Entities that share an id are serialized alike. */
  ghost predicate EqualIdsEqualWires(es: seq<Entity>) {
    forall i, j :: 0 <= i < |es| && 0 <= j < |es| && es[i].id == es[j].id ==> es[i].wire == es[j].wire
  }

  lemma SameEntitiesSameBuffer(c: Config, es: seq<Entity>, utf8: string -> Bytes)
    requires multiset(c.entities) == multiset(es) && EqualIdsEqualWires(c.entities)
    ensures Buffer(c.(entities := es), utf8) == Buffer(c, utf8)
  {
    StringOrder();
    SortOfSameElements(c.entities, es, IdOf, StringLeq);
  }

  /** Two elements with one key, put into a sorted list in either order, end up next to each other. */
  lemma {:induction false} InsertTwo<T, K>(x: T, y: T, s: seq<T>, key: T -> K, leq: (K, K) -> bool) returns (p: nat)
    requires key(x) == key(y) && leq(key(x), key(x))
    ensures p <= |s|
    ensures Insert(x, Insert(y, s, key, leq), key, leq) == s[..p] + [x, y] + s[p..]
    ensures Insert(y, Insert(x, s, key, leq), key, leq) == s[..p] + [y, x] + s[p..]
  {
    if s == [] || leq(key(x), key(s[0])) {
      p := 0;
      InsertBefore(x, y, s, key, leq);
      InsertBefore(y, x, s, key, leq);
    } else {
      hide Insert;
      var q := InsertTwo(x, y, s[1..], key, leq);
      p := q + 1;
      InsertBehind(x, y, s, key, leq);
      InsertBehind(y, x, s, key, leq);
      Spliced(s, q, [x, y]);
      Spliced(s, q, [y, x]);
    }
  }

  lemma Spliced<T>(s: seq<T>, q: nat, mid: seq<T>)
    requires s != [] && q <= |s[1..]|
    ensures [s[0]] + (s[1..][..q] + mid + s[1..][q..]) == s[..q + 1] + mid + s[q + 1..]
  {
    assert s[..q + 1] == [s[0]] + s[1..][..q] && s[q + 1..] == s[1..][q..];
  }

  lemma InsertBefore<T, K>(x: T, y: T, s: seq<T>, key: T -> K, leq: (K, K) -> bool)
    requires s == [] || leq(key(y), key(s[0]))
    requires key(x) == key(y) && leq(key(x), key(x))
    ensures Insert(x, Insert(y, s, key, leq), key, leq) == s[..0] + [x, y] + s[0..]
  {
    hide Insert;
    InsertHere(y, s, key, leq);
    InsertHere(x, [y] + s, key, leq);
    assert [x] + ([y] + s) == s[..0] + [x, y] + s[0..];
  }

  lemma InsertHere<T, K>(x: T, s: seq<T>, key: T -> K, leq: (K, K) -> bool)
    requires s == [] || leq(key(x), key(s[0]))
    ensures Insert(x, s, key, leq) == [x] + s
  {
  }

  lemma InsertBehind<T, K>(x: T, y: T, s: seq<T>, key: T -> K, leq: (K, K) -> bool)
    requires s != [] && !leq(key(x), key(s[0])) && key(x) == key(y)
    ensures Insert(x, Insert(y, s, key, leq), key, leq) == [s[0]] + Insert(x, Insert(y, s[1..], key, leq), key, leq)
  {
    var t := Insert(y, s[1..], key, leq);
    assert Insert(y, s, key, leq) == [s[0]] + t && ([s[0]] + t)[1..] == t;
  }

  lemma WiresOfElements(a: seq<Entity>, b: seq<Entity>)
    requires multiset(a) == multiset(b)
    ensures forall w :: w in Wires(a) ==> w in Wires(b)
  {
    forall w | w in Wires(a) ensures w in Wires(b) {
      var i :| 0 <= i < |a| && a[i].wire == w;
      assert a[i] in multiset(b);
      var j :| 0 <= j < |b| && b[j] == a[i];
      assert Wires(b)[j] == w;
    }
  }

  lemma SortedWires(es: seq<Entity>, all: seq<Entity>)
    requires multiset(es) == multiset(all) && NoWireType6(Wires(all))
    ensures NoWireType6(Wires(Sort(es, IdOf, StringLeq)))
    ensures forall w :: w in Wires(Sort(es, IdOf, StringLeq)) ==> w in Wires(Sort(all, IdOf, StringLeq))
  {
    StringOrder();
    SortIsStable(es, IdOf, StringLeq);
    SortIsStable(all, IdOf, StringLeq);
    WiresOfElements(Sort(es, IdOf, StringLeq), all);
    WiresOfElements(Sort(es, IdOf, StringLeq), Sort(all, IdOf, StringLeq));
  }

  lemma ShortRearranged(c: Config, es: seq<Entity>, utf8: string -> Bytes)
    requires multiset(es) == multiset(c.entities) && NoWireType6(Wires(c.entities)) && Short(Parts(c, utf8))
    ensures Short(Parts(c.(entities := es), utf8))
  {
    hide Sort, Ascending, ModelParts;
    SortedWires(es, c.entities);
    var d := c.(entities := es);
    forall p | p in Parts(d, utf8) ensures |p| < LIMIT {
      assert p in Parts(c, utf8);
    }
  }

  lemma TwoInFront(a: Entity, b: Entity, rest: seq<Entity>)
    ensures Sort([a, b] + rest, IdOf, StringLeq)
         == Insert(a, Insert(b, Sort(rest, IdOf, StringLeq), IdOf, StringLeq), IdOf, StringLeq)
  {
    assert ([a, b] + rest)[1..] == [b] + rest && ([b] + rest)[1..] == rest;
  }

  /** Two entities with one id and different bytes, in front of the others in either order: the bytes tell. */
  lemma FrontOrderTells(c: Config, a: Entity, b: Entity, rest: seq<Entity>, utf8: string -> Bytes)
    requires a.id == b.id && a.wire != b.wire && multiset([a, b] + rest) == multiset(c.entities)
    requires Injective(utf8) && NoWireType6(Wires(c.entities)) && Short(Parts(c, utf8))
    ensures Buffer(c.(entities := [a, b] + rest), utf8) != Buffer(c.(entities := [b, a] + rest), utf8)
  {
    hide Sort, Insert, Buffer, Parts;
    var s := Sort(rest, IdOf, StringLeq);
    var ab, ba := [a, b] + rest, [b, a] + rest;
    assert multiset(ba) == multiset(ab);
    StringTotal(a.id, a.id);
    TwoInFront(a, b, rest);
    TwoInFront(b, a, rest);
    var p := InsertTwo(a, b, s, IdOf, StringLeq);
    assert Wires(s[..p] + [a, b] + s[p..])[p] == a.wire && Wires(s[..p] + [b, a] + s[p..])[p] == b.wire;
    SortedWires(ab, c.entities);
    SortedWires(ba, c.entities);
    ShortRearranged(c, ab, utf8);
    ShortRearranged(c, ba, utf8);
    if Buffer(c.(entities := ab), utf8) == Buffer(c.(entities := ba), utf8) {
      BufferInjective(c.(entities := ab), c.(entities := ba), utf8);
    }
  }

  lemma TwoToTheFront<T>(s: seq<T>, i: nat, j: nat) returns (rest: seq<T>)
    requires i < j < |s|
    ensures multiset([s[i], s[j]] + rest) == multiset(s)
  {
    rest := s[..i] + s[i + 1..j] + s[j + 1..];
    assert s == s[..i] + [s[i]] + s[i + 1..j] + [s[j]] + s[j + 1..];
  }

  lemma UnequalWiresTell(c: Config, utf8: string -> Bytes) returns (x: seq<Entity>, y: seq<Entity>)
    requires Injective(utf8) && NoWireType6(Wires(c.entities)) && Short(Parts(c, utf8))
    requires !EqualIdsEqualWires(c.entities)
    ensures multiset(x) == multiset(c.entities) && multiset(y) == multiset(c.entities)
    ensures Buffer(c.(entities := x), utf8) != Buffer(c.(entities := y), utf8)
  {
    hide Injective, NoWireType6, Short, Buffer, Parts;
    var es := c.entities;
    var i, j :| 0 <= i < |es| && 0 <= j < |es| && es[i].id == es[j].id && es[i].wire != es[j].wire;
    var first, second := if i < j then i else j, if i < j then j else i;
    var rest := TwoToTheFront(es, first, second);
    x, y := [es[first], es[second]] + rest, [es[second], es[first]] + rest;
    assert multiset(y) == multiset(x);
    FrontOrderTells(c, es[first], es[second], rest, utf8);
  }

  /** Every rearrangement of the entities gives the same bytes exactly when entities that share an id are
      serialized alike. */
  lemma EntityOrderIff(c: Config, utf8: string -> Bytes)
    requires Injective(utf8) && NoWireType6(Wires(c.entities)) && Short(Parts(c, utf8))
    ensures (forall es :: multiset(es) == multiset(c.entities) ==> Buffer(c.(entities := es), utf8) == Buffer(c, utf8))
        <==> EqualIdsEqualWires(c.entities)
  {
    hide Injective, NoWireType6, Short, Buffer, Parts, EqualIdsEqualWires;
    if EqualIdsEqualWires(c.entities) {
      forall es | multiset(es) == multiset(c.entities) ensures Buffer(c.(entities := es), utf8) == Buffer(c, utf8) {
        SameEntitiesSameBuffer(c, es, utf8);
      }
    } else {
      var x, y := UnequalWiresTell(c, utf8);
      assert Buffer(c.(entities := x), utf8) != Buffer(c, utf8) || Buffer(c.(entities := y), utf8) != Buffer(c, utf8);
    }
  }

  /** The fact about the first byte is needed: three entities whose serializations spell a declared model are
      the same bytes as that model and no entity. */
  lemma TagNeedsTheFirstByteFact(c: Config, k: string, v: string, utf8: string -> Bytes)
    requires c.entities == [] && c.visualModels == map[k := v]
    ensures
      var es := [Entity("a", TAG), Entity("b", utf8(k)), Entity("c", utf8(v))];
      Buffer(c.(entities := es, visualModels := map[]), utf8)
         == Buffer(c, utf8)
  {
    var es := [Entity("a", TAG), Entity("b", utf8(k)), Entity("c", utf8(v))];
    var d := c.(entities := es, visualModels := map[]);
    ThreeSorted(es);
    assert Wires(es) == [TAG, utf8(k), utf8(v)];
    assert c.visualModels.Keys == {k};
    OneAscending(k);
    assert ModelParts([k], c.visualModels, utf8) == [TAG, utf8(k), utf8(v)] by {
      assert [k][1..] == [];
    }
    assert d.visualModels.Keys == {};
    assert Parts(d, utf8) == Parts(c, utf8);
  }

  lemma ThreeSorted(es: seq<Entity>)
    requires |es| == 3 && es[0].id == "a" && es[1].id == "b" && es[2].id == "c"
    ensures Sort(es, IdOf, StringLeq) == es
  {
    assert es[1..][1..] == [es[2]] && [es[2]][1..] == [];
    assert Sort([es[2]], IdOf, StringLeq) == [es[2]];
    assert es[1..][0] == es[1] && StringLeq("b", "c") && StringLeq("a", "b");
    assert Sort(es[1..], IdOf, StringLeq) == [es[1], es[2]];
    assert es == [es[0]] + [es[1], es[2]];
  }

  lemma OneAscending(k: string)
    ensures Ascending({k}) == [k]
  {
    assert Least({k}) == k && {k} - {k} == {};
  }
}
