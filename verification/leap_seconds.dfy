/** The leap-second table: its two searches and the conversions of altavista/cdm.py, and its generator
    scripts/gen_leap_seconds.py.  Instants are integer nanoseconds. */
module LeapSeconds {
  import opened Base

  const SECOND := 1_000_000_000
  const DAY := 86_400_000_000_000

  datatype LeapEntry = LeapEntry(offset: int, utc: int, tai: int)

  type Table = t: seq<LeapEntry> | |t| > 0 witness [LeapEntry(0, 0, 0)]

  function UtcOf(e: LeapEntry): int { e.utc }

  function TaiOf(e: LeapEntry): int { e.tai }

  // ---------------------------------------------------------------- the searches

  /** How many entries at the front of the list have started by x. */
  function Started(t: seq<LeapEntry>, start: LeapEntry -> int, x: int): (k: nat)
    ensures k <= |t|
  {
    if t == [] || start(t[0]) > x then 0 else 1 + Started(t[1..], start, x)
  }

  /** The offset of the last entry that has started, and the first entry's before that. */
  function OffsetAfter(t: Table, k: nat): int
    requires k <= |t|
  {
    if k == 0 then t[0].offset else t[k - 1].offset
  }

  lemma {:induction false} StartedIs(t: seq<LeapEntry>, start: LeapEntry -> int, x: int, k: nat)
    requires k <= |t| && (forall i :: 0 <= i < k ==> start(t[i]) <= x) && (k < |t| ==> start(t[k]) > x)
    ensures Started(t, start, x) == k
  {
    if k > 0 {
      StartedIs(t[1..], start, x, k - 1);
    }
  }

  lemma {:induction false} StartedBounds(t: seq<LeapEntry>, start: LeapEntry -> int, x: int)
    ensures forall i :: 0 <= i < Started(t, start, x) ==> start(t[i]) <= x
    ensures Started(t, start, x) < |t| ==> start(t[Started(t, start, x)]) > x
  {
    if t != [] && start(t[0]) <= x {
      StartedBounds(t[1..], start, x);
    }
  }

  /** Entry k and all before it have started by x, and the next one has not. */
  ghost predicate InForce(t: Table, start: LeapEntry -> int, x: int, k: int) {
    && 0 <= k < |t| && (forall i :: 0 <= i <= k ==> start(t[i]) <= x)
    && (k + 1 < |t| ==> start(t[k + 1]) > x)
  }

  method OffsetForTaiNs(t: Table, tai: int) returns (offset: int)
    ensures offset == OffsetAfter(t, Started(t, TaiOf, tai))
    ensures t[0].tai > tai ==> offset == t[0].offset
    ensures forall k :: InForce(t, (e: LeapEntry) => e.tai, tai, k) ==> offset == t[k].offset
  {
    offset := t[0].offset;
    var i := 0;
    while i < |t|
      invariant 0 <= i <= |t| && offset == OffsetAfter(t, i)
      invariant forall j :: 0 <= j < i ==> TaiOf(t[j]) <= tai
    {
      if t[i].tai <= tai {
        offset := t[i].offset;
      } else {
        break;
      }
      i := i + 1;
    }
    StartedIs(t, TaiOf, tai, i);
    forall k | InForce(t, (e: LeapEntry) => e.tai, tai, k) ensures offset == t[k].offset {
      StartedIs(t, TaiOf, tai, k + 1);
    }
  }

  method OffsetForUtcNs(t: Table, utc: int) returns (offset: int)
    ensures offset == OffsetAfter(t, Started(t, UtcOf, utc))
    ensures t[0].utc > utc ==> offset == t[0].offset
    ensures forall k :: InForce(t, (e: LeapEntry) => e.utc, utc, k) ==> offset == t[k].offset
  {
    offset := t[0].offset;
    var i := 0;
    while i < |t|
      invariant 0 <= i <= |t| && offset == OffsetAfter(t, i)
      invariant forall j :: 0 <= j < i ==> UtcOf(t[j]) <= utc
    {
      if t[i].utc <= utc {
        offset := t[i].offset;
      } else {
        break;
      }
      i := i + 1;
    }
    StartedIs(t, UtcOf, utc, i);
    forall k | InForce(t, (e: LeapEntry) => e.utc, utc, k) ensures offset == t[k].offset {
      StartedIs(t, UtcOf, utc, k + 1);
    }
  }

  function TaiToUtc(t: Table, tai: int): int {
    tai - OffsetAfter(t, Started(t, TaiOf, tai)) * SECOND
  }

  function UtcToTai(t: Table, utc: int): int {
    utc + OffsetAfter(t, Started(t, UtcOf, utc)) * SECOND
  }

  method TaiNsToUtcNs(t: Table, tai: int) returns (utc: int)
    ensures utc == TaiToUtc(t, tai) && tai - utc == OffsetAfter(t, Started(t, TaiOf, tai)) * 1_000_000_000
  {
    var offset := OffsetForTaiNs(t, tai);
    utc := tai - offset * SECOND;
  }

  method UtcNsToTaiNs(t: Table, utc: int) returns (tai: int)
    ensures tai == UtcToTai(t, utc) && tai - utc == OffsetAfter(t, Started(t, UtcOf, utc)) * 1_000_000_000
  {
    var offset := OffsetForUtcNs(t, utc);
    tai := utc + offset * SECOND;
  }

  // ---------------------------------------------------------------- tables

  /** The TAI instant is the UTC instant plus the new offset, and the dates ascend. */
  ghost predicate Dated(t: Table) {
    && (forall i :: 0 <= i < |t| ==> t[i].tai == t[i].utc + t[i].offset * SECOND)
    && (forall i, j :: 0 <= i < j < |t| ==> t[i].utc < t[j].utc)
  }

  ghost predicate OffsetsNeverDecrease(t: Table) {
    forall i, j :: 0 <= i < j < |t| ==> t[i].offset <= t[j].offset
  }

  /** Each entry lasts longer than the step that ends it. */
  ghost predicate GapsExceedSteps(t: Table) {
    forall i :: 0 < i < |t| - 1 ==> t[i + 1].utc - t[i].utc > (t[i].offset - t[i - 1].offset) * SECOND
  }

  /** UTC to TAI and back is the identity on every integer. */
  lemma UtcRoundTrip(t: Table, utc: int)
    requires Dated(t) && OffsetsNeverDecrease(t)
    ensures TaiToUtc(t, UtcToTai(t, utc)) == utc
  {
    var k := Started(t, UtcOf, utc);
    StartedBounds(t, UtcOf, utc);
    var tai := UtcToTai(t, utc);
    assert k < |t| ==> UtcOf(t[k]) > utc;
    forall i | 0 <= i < k ensures TaiOf(t[i]) <= tai {
      assert UtcOf(t[i]) <= utc && t[i].offset <= t[k - 1].offset;
    }
    StartedIs(t, TaiOf, tai, k);
  }

  /** The two conversions agree with every entry of the table. */
  lemma EntriesAgree(t: Table, k: nat)
    requires Dated(t) && OffsetsNeverDecrease(t) && k < |t|
    ensures UtcToTai(t, t[k].utc) == t[k].tai && TaiToUtc(t, t[k].tai) == t[k].utc
  {
    StartedIs(t, UtcOf, t[k].utc, k + 1);
    UtcRoundTrip(t, t[k].utc);
  }

  lemma {:induction false} StartedGrows(t: seq<LeapEntry>, x: int, y: int)
    requires x <= y
    ensures Started(t, UtcOf, x) <= Started(t, UtcOf, y)
  {
    if t != [] && t[0].utc <= x {
      StartedGrows(t[1..], x, y);
    }
  }

  ghost predicate StrictlyIncreasing(t: Table) {
    forall x, y :: x < y ==> UtcToTai(t, x) < UtcToTai(t, y)
  }

  lemma {:induction false} AdjacentSteps(t: Table, i: nat, j: nat)
    requires i < j < |t| && forall k :: 0 < k < |t| ==> t[k - 1].offset <= t[k].offset
    ensures t[i].offset <= t[j].offset
    decreases j
  {
    if i < j - 1 {
      AdjacentSteps(t, i, j - 1);
    }
  }

  /** UTC to TAI is strictly increasing exactly when the offsets never decrease. */
  lemma IncreasingIff(t: Table)
    requires Dated(t)
    ensures StrictlyIncreasing(t) <==> OffsetsNeverDecrease(t)
  {
    if OffsetsNeverDecrease(t) {
      forall x, y | x < y ensures UtcToTai(t, x) < UtcToTai(t, y) {
        StartedGrows(t, x, y);
      }
    }
    if StrictlyIncreasing(t) {
      forall k | 0 < k < |t| ensures t[k - 1].offset <= t[k].offset {
        StartedIs(t, UtcOf, t[k].utc - 1, k);
        StartedIs(t, UtcOf, t[k].utc, k + 1);
        assert UtcToTai(t, t[k].utc - 1) < UtcToTai(t, t[k].utc);
      }
      forall i, j | 0 <= i < j < |t| ensures t[i].offset <= t[j].offset {
        AdjacentSteps(t, i, j);
      }
    }
  }

  /** Inside the seconds inserted before entry k. */
  predicate Inserted(t: Table, tai: int, k: int) {
    0 < k < |t| && t[k].utc + t[k - 1].offset * SECOND <= tai < t[k].tai
  }

  /** Only the step before the next entry can contain an instant. */
  lemma InsertedOnlyNext(t: Table, tai: int, k: int)
    requires Dated(t) && OffsetsNeverDecrease(t) && GapsExceedSteps(t) && Inserted(t, tai, k)
    ensures k == Started(t, TaiOf, tai)
  {
    StartedBounds(t, TaiOf, tai);
    forall i | 0 <= i < k ensures TaiOf(t[i]) <= tai {
      assert t[i].utc < t[k].utc && t[i].offset <= t[k - 1].offset;
    }
    assert TaiOf(t[k]) > tai;
    StartedIs(t, TaiOf, tai, k);
  }

  /** The reading of an inserted instant belongs to the next entry and to no later one. */
  lemma ReadingOfInserted(t: Table, tai: int, k: int)
    requires Dated(t) && OffsetsNeverDecrease(t) && GapsExceedSteps(t) && Inserted(t, tai, k)
    ensures TaiToUtc(t, tai) == tai - t[k - 1].offset * SECOND
    ensures Started(t, UtcOf, TaiToUtc(t, tai)) == k + 1
  {
    InsertedOnlyNext(t, tai, k);
    var utc := TaiToUtc(t, tai);
    assert forall i :: 0 <= i <= k ==> UtcOf(t[i]) <= t[k].utc <= utc;
    if k + 1 < |t| {
      assert t[k + 1].utc - t[k].utc > (t[k].offset - t[k - 1].offset) * SECOND;
    }
    StartedIs(t, UtcOf, utc, k + 1);
  }

  lemma ReadingOfOrdinary(t: Table, tai: int)
    requires Dated(t) && OffsetsNeverDecrease(t) && !Inserted(t, tai, Started(t, TaiOf, tai))
    ensures Started(t, UtcOf, TaiToUtc(t, tai)) == Started(t, TaiOf, tai)
  {
    var k := Started(t, TaiOf, tai);
    StartedBounds(t, TaiOf, tai);
    assert k > 0 ==> TaiOf(t[k - 1]) <= tai;
    assert k < |t| ==> TaiOf(t[k]) > tai;
    assert forall i :: 0 <= i < k ==> UtcOf(t[i]) <= t[k - 1].utc;
    StartedIs(t, UtcOf, TaiToUtc(t, tai), k);
  }

  /** TAI to UTC and back moves an instant inside inserted seconds forward by exactly the step. */
  lemma TaiRoundTripInserted(t: Table, tai: int, k: int)
    requires Dated(t) && OffsetsNeverDecrease(t) && GapsExceedSteps(t) && Inserted(t, tai, k)
    ensures UtcToTai(t, TaiToUtc(t, tai)) == tai + (t[k].offset - t[k - 1].offset) * SECOND > tai
  {
    ReadingOfInserted(t, tai, k);
  }

  /** TAI to UTC and back is the identity exactly outside inserted seconds. */
  lemma TaiRoundTripIff(t: Table, tai: int)
    requires Dated(t) && OffsetsNeverDecrease(t) && GapsExceedSteps(t)
    ensures UtcToTai(t, TaiToUtc(t, tai)) == tai <==> forall k :: !Inserted(t, tai, k)
  {
    if k :| Inserted(t, tai, k) {
      TaiRoundTripInserted(t, tai, k);
    } else {
      ReadingOfOrdinary(t, tai);
    }
  }

  // ---------------------------------------------------------------- the generator

  /** One "<offset>, @<date>" pair of the kernel; `day` counts days from 1970-01-01. */
  datatype Parsed = Parsed(offset: nat, day: int)

  /** to_unix_ns of a time that is `days` days and `seconds` seconds after the epoch. */
  function ToUnixNs(days: int, seconds: nat): int {
    days * DAY + seconds * SECOND
  }

  datatype ParseError = NoEntries | NotAscending(index: nat)

  /** The checks at the end of parse_delta_at. */
  method CheckDeltaAt(parsed: seq<Parsed>) returns (error: Option<ParseError>)
    ensures error.None? <==> parsed != [] && forall i, j :: 0 <= i < j < |parsed| ==> parsed[i].day < parsed[j].day
    ensures error.Some? && error.value.NotAscending? ==>
      && error.value.index + 1 < |parsed| && parsed[error.value.index].day >= parsed[error.value.index + 1].day
      && forall i :: 0 <= i < error.value.index ==> parsed[i].day < parsed[i + 1].day
    ensures error == Some(NoEntries) <==> parsed == []
  {
    if parsed == [] {
      return Some(NoEntries);
    }
    var i := 0;
    while i < |parsed| - 1
      invariant 0 <= i < |parsed|
      invariant forall a, b :: 0 <= a < b <= i ==> parsed[a].day < parsed[b].day
    {
      if !(parsed[i].day < parsed[i + 1].day) {
        return Some(NotAscending(i));
      }
      i := i + 1;
    }
    error := None;
  }

  function Entry(p: Parsed): LeapEntry {
    LeapEntry(p.offset, ToUnixNs(p.day, 0), ToUnixNs(p.day, 0) + p.offset * SECOND)
  }

  method BuildDocument(parsed: seq<Parsed>) returns (r: Result<seq<LeapEntry>, ParseError>)
    ensures r.Ok? <==> parsed != [] && forall i, j :: 0 <= i < j < |parsed| ==> parsed[i].day < parsed[j].day
    ensures r.Ok? ==> r.value == seq(|parsed|, i requires 0 <= i < |parsed| => Entry(parsed[i]))
    ensures r.Ok? ==> forall i :: 0 <= i < |parsed| ==>
      && r.value[i].offset == parsed[i].offset && r.value[i].utc == parsed[i].day * 86_400_000_000_000
      && r.value[i].tai == parsed[i].day * 86_400_000_000_000 + parsed[i].offset * 1_000_000_000
  {
    var error := CheckDeltaAt(parsed);
    if error.Some? {
      return Err(error.value);
    }
    var entries: seq<LeapEntry> := [];
    var i := 0;
    while i < |parsed|
      invariant 0 <= i <= |parsed| && |entries| == i
      invariant forall k :: 0 <= k < i ==> entries[k] == Entry(parsed[k])
    {
      var utc := ToUnixNs(parsed[i].day, 0);
      var tai := utc + parsed[i].offset * SECOND;
      entries := entries + [LeapEntry(parsed[i].offset, utc, tai)];
      i := i + 1;
    }
    assert entries == seq(|parsed|, i requires 0 <= i < |parsed| => Entry(parsed[i]));
    r := Ok(entries);
  }

  /** The document of a kernel the generator accepts. */
  ghost predicate Generated(t: Table, parsed: seq<Parsed>) {
    && |t| == |parsed|
    && (forall i :: 0 <= i < |t| ==> t[i] == Entry(parsed[i]))
    && (forall i, j :: 0 <= i < j < |parsed| ==> parsed[i].day < parsed[j].day)
  }

  lemma WholeDays(a: int, b: int)
    requires a < b
    ensures b * DAY - a * DAY >= DAY
  {
  }

  /** Every generated table is dated, and its entries are at least a day apart. */
  lemma GeneratedIsDated(t: Table, parsed: seq<Parsed>)
    requires Generated(t, parsed)
    ensures Dated(t)
    ensures forall i, j :: 0 <= i < j < |t| ==> t[j].utc - t[i].utc >= DAY
  {
    forall i, j | 0 <= i < j < |t| ensures t[j].utc - t[i].utc >= DAY {
      WholeDays(parsed[i].day, parsed[j].day);
    }
  }

  /** The generator's own check does not make the conversion usable: the table it writes gives a strictly
      increasing conversion exactly when the kernel's offsets never decrease, which it does not check. */
  lemma GeneratedIncreasingIff(t: Table, parsed: seq<Parsed>)
    requires Generated(t, parsed)
    ensures StrictlyIncreasing(t) <==> forall i, j :: 0 <= i < j < |parsed| ==> parsed[i].offset <= parsed[j].offset
  {
    GeneratedIsDated(t, parsed);
    IncreasingIff(t);
    if OffsetsNeverDecrease(t) {
      forall i, j | 0 <= i < j < |parsed| ensures parsed[i].offset <= parsed[j].offset {
        assert t[i].offset <= t[j].offset;
      }
    }
  }

  /** With offsets that never decrease and steps shorter than a day, both round trips hold of the table. */
  lemma GeneratedGapsExceedSteps(t: Table, parsed: seq<Parsed>)
    requires Generated(t, parsed)
    requires forall i :: 0 < i < |parsed| ==> (parsed[i].offset - parsed[i - 1].offset) * SECOND < DAY
    ensures GapsExceedSteps(t)
  {
    GeneratedIsDated(t, parsed);
  }

  /** A kernel with a negative step is accepted and gives a conversion that runs backwards. */
  lemma DecreasingOffsetsAccepted()
    ensures var parsed := [Parsed(37, 0), Parsed(36, 1)];
      var t: Table := [Entry(parsed[0]), Entry(parsed[1])];
      Generated(t, parsed) && UtcToTai(t, DAY - 1) > UtcToTai(t, DAY)
  {
    var parsed := [Parsed(37, 0), Parsed(36, 1)];
    var t: Table := [Entry(parsed[0]), Entry(parsed[1])];
    StartedIs(t, UtcOf, DAY - 1, 1);
    StartedIs(t, UtcOf, DAY, 2);
  }
}
