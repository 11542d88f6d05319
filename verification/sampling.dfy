/** Sampled report data: `parse_report` and `decimate` of altavista/scenario.py. */
module Sampling {
  import opened Base

  /** The values of one report row: t, then x, y, z, vx, vy, vz. */
  datatype Row = Row(t: real, state: seq<real>)

  /** The lists of a Trajectory that sampling touches. */
  class Trajectory {
    var t: seq<real>
    var pos: seq<seq<real>>
    var vel: seq<seq<real>>
    var attitude: seq<seq<real>>

    ghost predicate Parallel()
      reads this
    {
      |t| == |pos| == |vel|
    }

    constructor ()
      ensures t == [] && pos == [] && vel == [] && attitude == []
    {
      t, pos, vel, attitude := [], [], [], [];
    }

    method Append(row: Row)
      requires |row.state| >= 6
      modifies this`t, this`pos, this`vel
      ensures t == old(t) + [row.t] && pos == old(pos) + [row.state[..3]] && vel == old(vel) + [row.state[3..6]]
    {
      t := t + [row.t];
      pos := pos + [row.state[..3]];
      vel := vel + [row.state[3..6]];
    }
  }

  // ---------------------------------------------------------------- parse_report

  /** The numbers of the first n fields; None is float's ValueError. */
  function Numbers(fields: seq<string>, n: nat, float: string -> Option<real>): (r: Option<seq<real>>)
    requires n <= |fields|
    ensures r.Some? ==> |r.value| == n && forall i :: 0 <= i < n ==> float(fields[i]) == Some(r.value[i])
    ensures r.None? ==> exists i :: 0 <= i < n && float(fields[i]).None?
  {
    if n == 0 then Some([])
    else match Numbers(fields, n - 1, float)
      case None => None
      case Some(front) => if float(fields[n - 1]).Some? then Some(front + [float(fields[n - 1]).value]) else None
  }

  /** The row of a line given by its comma-separated fields; None is a line that is skipped. */
  function Parsed(fields: seq<string>, float: string -> Option<real>): (r: Option<Row>)
    ensures r.Some? ==> |r.value.state| == 6
  {
    if |fields| < 7 then None
    else match Numbers(fields, 7, float)
      case None => None
      case Some(v) => Some(Row(v[0], v[1..7]))
  }

  /** Line i is a row whose time is at least every earlier row's. */
  predicate Kept(lines: seq<seq<string>>, float: string -> Option<real>, i: nat)
    requires i < |lines|
  {
    var row := Parsed(lines[i], float);
    row.Some? && forall j :: 0 <= j < i && Parsed(lines[j], float).Some? ==>
      Parsed(lines[j], float).value.t <= row.value.t
  }

  /** The kept rows of the first n lines, in order. */
  function KeptRows(lines: seq<seq<string>>, float: string -> Option<real>, n: nat): seq<Row>
    requires n <= |lines|
  {
    if n == 0 then []
    else KeptRows(lines, float, n - 1) + (if Kept(lines, float, n - 1) then [Parsed(lines[n - 1], float).value] else [])
  }

  function Times(rows: seq<Row>): seq<real> {
    seq(|rows|, i requires 0 <= i < |rows| => rows[i].t)
  }

  function States(rows: seq<Row>, from: nat, to: nat): seq<seq<real>>
    requires from <= to && forall r :: r in rows ==> to <= |r.state|
  {
    seq(|rows|, i requires 0 <= i < |rows| => rows[i].state[from..to])
  }

  lemma {:induction false} KeptRowsAreWhole(lines: seq<seq<string>>, float: string -> Option<real>, n: nat)
    requires n <= |lines|
    ensures forall r :: r in KeptRows(lines, float, n) ==> |r.state| == 6
  {
    if n > 0 {
      KeptRowsAreWhole(lines, float, n - 1);
    }
  }

  /** t_max is the largest time of the rows so far; None is -inf. */
  ghost predicate IsMax(lines: seq<seq<string>>, float: string -> Option<real>, n: nat, tMax: Option<real>)
    requires n <= |lines|
  {
    && (tMax.None? ==> forall j :: 0 <= j < n ==> Parsed(lines[j], float).None?)
    && (tMax.Some? ==>
          && (forall j :: 0 <= j < n && Parsed(lines[j], float).Some? ==> Parsed(lines[j], float).value.t <= tMax.value)
          && exists j :: 0 <= j < n && Parsed(lines[j], float).Some? && Parsed(lines[j], float).value.t == tMax.value)
  }

  lemma MaxSkips(lines: seq<seq<string>>, float: string -> Option<real>, n: nat, tMax: Option<real>)
    requires n < |lines| && IsMax(lines, float, n, tMax)
    requires var row := Parsed(lines[n], float); row.Some? ==> tMax.Some? && row.value.t < tMax.value
    ensures IsMax(lines, float, n + 1, tMax) && !Kept(lines, float, n)
    ensures KeptRows(lines, float, n + 1) == KeptRows(lines, float, n)
  {
  }

  lemma MaxGrows(lines: seq<seq<string>>, float: string -> Option<real>, n: nat, tMax: Option<real>)
    requires n < |lines| && IsMax(lines, float, n, tMax) && Parsed(lines[n], float).Some?
    requires tMax.Some? ==> Parsed(lines[n], float).value.t >= tMax.value
    ensures IsMax(lines, float, n + 1, Some(Parsed(lines[n], float).value.t)) && Kept(lines, float, n)
    ensures KeptRows(lines, float, n + 1) == KeptRows(lines, float, n) + [Parsed(lines[n], float).value]
  {
  }

  // ---------------------------------------------------------------- what is read of a report

  /** At least seven columns, the first seven of them numbers. */
  ghost predicate IsRow(line: seq<string>, float: string -> Option<real>) {
    |line| >= 7 && forall c :: 0 <= c < 7 ==> float(line[c]).Some?
  }

  /** Line j is a row no earlier, by its first column, than any row before it. */
  ghost predicate NoStepBack(lines: seq<seq<string>>, float: string -> Option<real>, j: nat)
    requires j < |lines|
  {
    && IsRow(lines[j], float)
    && forall i :: 0 <= i < j && IsRow(lines[i], float) ==> float(lines[i][0]).value <= float(lines[j][0]).value
  }

  /** Row by row of the lines at these positions: column 0 is the time, 1 to 3 the position, 4 to 6 the velocity. */
  ghost predicate Columns(t: seq<real>, pos: seq<seq<real>>, vel: seq<seq<real>>, lines: seq<seq<string>>,
                          float: string -> Option<real>, at: seq<nat>)
  {
    && |t| == |pos| == |vel| == |at|
    && forall i :: 0 <= i < |at| ==>
         && at[i] < |lines| && |lines[at[i]]| >= 7 && |pos[i]| == |vel[i]| == 3
         && float(lines[at[i]][0]) == Some(t[i])
         && float(lines[at[i]][1]) == Some(pos[i][0]) && float(lines[at[i]][2]) == Some(pos[i][1])
         && float(lines[at[i]][3]) == Some(pos[i][2])
         && float(lines[at[i]][4]) == Some(vel[i][0]) && float(lines[at[i]][5]) == Some(vel[i][1])
         && float(lines[at[i]][6]) == Some(vel[i][2])
  }

  /** These are, in order, the first n lines that take no step back. */
  ghost predicate AreKept(lines: seq<seq<string>>, float: string -> Option<real>, n: nat, at: seq<nat>)
    requires n <= |lines|
  {
    && (forall i, j :: 0 <= i < j < |at| ==> at[i] < at[j])
    && forall j: nat :: j in at <==> j < n && NoStepBack(lines, float, j)
  }

  lemma ParsedIs(line: seq<string>, float: string -> Option<real>)
    ensures Parsed(line, float).Some? <==> IsRow(line, float)
    ensures Parsed(line, float).Some? ==>
      && float(line[0]) == Some(Parsed(line, float).value.t)
      && forall k :: 0 <= k < 6 ==> float(line[k + 1]) == Some(Parsed(line, float).value.state[k])
  {
    if |line| >= 7 && Numbers(line, 7, float).Some? {
      var v := Numbers(line, 7, float).value;
      assert forall k :: 0 <= k < 6 ==> v[1..7][k] == v[k + 1] && float(line[k + 1]) == Some(v[k + 1]);
    }
  }

  lemma RowIsLong(line: seq<string>, float: string -> Option<real>)
    requires Parsed(line, float).Some?
    ensures |line| >= 7
  {
  }

  lemma KeptIff(lines: seq<seq<string>>, float: string -> Option<real>, j: nat)
    requires j < |lines|
    ensures Kept(lines, float, j) <==> NoStepBack(lines, float, j)
  {
    hide Parsed, IsRow;
    forall i | 0 <= i < |lines|
      ensures Parsed(lines[i], float).Some? <==> IsRow(lines[i], float)
      ensures Parsed(lines[i], float).Some? ==>
        |lines[i]| > 0 && float(lines[i][0]) == Some(Parsed(lines[i], float).value.t)
    {
      ParsedIs(lines[i], float);
      if Parsed(lines[i], float).Some? {
        RowIsLong(lines[i], float);
      }
    }
  }

  /** These are the rows of the lines at these positions. */
  ghost predicate RowsAt(rows: seq<Row>, lines: seq<seq<string>>, float: string -> Option<real>, at: seq<nat>) {
    |rows| == |at| && forall i :: 0 <= i < |at| ==> at[i] < |lines| && Parsed(lines[at[i]], float) == Some(rows[i])
  }

  lemma AreKeptMore(lines: seq<seq<string>>, float: string -> Option<real>, n: nat, front: seq<nat>)
    requires n < |lines| && AreKept(lines, float, n, front)
    ensures AreKept(lines, float, n + 1, if NoStepBack(lines, float, n) then front + [n] else front)
  {
    hide NoStepBack;
    var at := if NoStepBack(lines, float, n) then front + [n] else front;
    assert forall i :: 0 <= i < |front| ==> front[i] in front;
    forall j: nat ensures j in at <==> j < n + 1 && NoStepBack(lines, float, j) {
      assert j in front <==> j < n && NoStepBack(lines, float, j);
    }
  }

  lemma RowsMore(rows: seq<Row>, lines: seq<seq<string>>, float: string -> Option<real>, at: seq<nat>, n: nat)
    requires RowsAt(rows, lines, float, at) && n < |lines| && Parsed(lines[n], float).Some?
    ensures RowsAt(rows + [Parsed(lines[n], float).value], lines, float, at + [n])
  {
    hide Parsed;
  }

  lemma KeptIsParsed(lines: seq<seq<string>>, float: string -> Option<real>, j: nat)
    requires j < |lines| && Kept(lines, float, j)
    ensures Parsed(lines[j], float).Some?
  {
  }

  lemma NothingKept(lines: seq<seq<string>>, float: string -> Option<real>)
    ensures AreKept(lines, float, 0, []) && RowsAt([], lines, float, [])
  {
  }

  lemma {:induction false} KeptAt(lines: seq<seq<string>>, float: string -> Option<real>, n: nat) returns (at: seq<nat>)
    requires n <= |lines|
    ensures AreKept(lines, float, n, at) && RowsAt(KeptRows(lines, float, n), lines, float, at)
  {
    hide NoStepBack, Kept, Parsed, AreKept, RowsAt;
    if n == 0 {
      at := [];
      NothingKept(lines, float);
    } else {
      var front := KeptAt(lines, float, n - 1);
      KeptIff(lines, float, n - 1);
      AreKeptMore(lines, float, n - 1, front);
      if Kept(lines, float, n - 1) {
        at := front + [n - 1];
        KeptIsParsed(lines, float, n - 1);
        RowsMore(KeptRows(lines, float, n - 1), lines, float, front, n - 1);
      } else {
        at := front;
        assert KeptRows(lines, float, n) == KeptRows(lines, float, n - 1);
      }
    }
  }

  lemma RowsAreColumns(lines: seq<seq<string>>, float: string -> Option<real>, rows: seq<Row>, at: seq<nat>)
    requires RowsAt(rows, lines, float, at) && forall r :: r in rows ==> |r.state| == 6
    ensures Columns(Times(rows), States(rows, 0, 3), States(rows, 3, 6), lines, float, at)
  {
    hide Parsed, IsRow;
    forall i | 0 <= i < |at|
      ensures |lines[at[i]]| >= 7 && float(lines[at[i]][0]) == Some(rows[i].t)
        && forall k :: 0 <= k < 6 ==> float(lines[at[i]][k + 1]) == Some(rows[i].state[k])
    {
      ParsedIs(lines[at[i]], float);
      RowIsLong(lines[at[i]], float);
    }
  }

  /** `lines` are the report's lines, stripped and split at commas; `float` is Python's float. */
  method ParseReport(lines: seq<seq<string>>, float: string -> Option<real>) returns (tr: Trajectory)
    ensures fresh(tr) && tr.attitude == []
    ensures var rows := KeptRows(lines, float, |lines|);
      && (forall r :: r in rows ==> |r.state| == 6)
      && tr.t == Times(rows) && tr.pos == States(rows, 0, 3) && tr.vel == States(rows, 3, 6)
    ensures exists at ::
      AreKept(lines, float, |lines|, at) && Columns(tr.t, tr.pos, tr.vel, lines, float, at)
  {
    hide IsMax, Kept, KeptRows, AreKept, Columns, RowsAt;
    tr := new Trajectory();
    var tMax: Option<real> := None;
    ghost var rows: seq<Row> := [];
    NothingRead(lines, float);
    var i := 0;
    while i < |lines|
      invariant 0 <= i <= |lines| && fresh(tr) && tr.attitude == []
      invariant IsMax(lines, float, i, tMax) && rows == KeptRows(lines, float, i)
      invariant forall r :: r in rows ==> |r.state| == 6
      invariant tr.t == Times(rows) && tr.pos == States(rows, 0, 3) && tr.vel == States(rows, 3, 6)
    {
      var row := Parsed(lines[i], float);
      if row.Some? && (tMax.Some? ==> row.value.t >= tMax.value) {
        MaxGrows(lines, float, i, tMax);
        tMax := Some(row.value.t);
        tr.Append(row.value);
        rows := rows + [row.value];
      } else {
        MaxSkips(lines, float, i, tMax);
      }
      i := i + 1;
    }
    ghost var at := KeptAt(lines, float, |lines|);
    RowsAreColumns(lines, float, rows, at);
  }

  lemma NothingRead(lines: seq<seq<string>>, float: string -> Option<real>)
    ensures IsMax(lines, float, 0, None) && KeptRows(lines, float, 0) == []
  {
  }

  ghost predicate Ascending(t: seq<real>) {
    forall i, j :: 0 <= i < j < |t| ==> t[i] <= t[j]
  }

  /** The kept times never decrease. */
  lemma {:induction false} KeptAscending(lines: seq<seq<string>>, float: string -> Option<real>, n: nat)
    requires n <= |lines|
    ensures Ascending(Times(KeptRows(lines, float, n)))
    ensures forall r :: r in KeptRows(lines, float, n) ==> exists j :: 0 <= j < n && Parsed(lines[j], float) == Some(r)
  {
    if n > 0 {
      KeptAscending(lines, float, n - 1);
      var front, rows := KeptRows(lines, float, n - 1), KeptRows(lines, float, n);
      if Kept(lines, float, n - 1) {
        assert rows == front + [Parsed(lines[n - 1], float).value];
        forall i | 0 <= i < |front| ensures Times(front)[i] <= Parsed(lines[n - 1], float).value.t {
          assert front[i] in front;
          var j :| 0 <= j < n - 1 && Parsed(lines[j], float) == Some(front[i]);
        }
        assert Times(rows) == Times(front) + [Parsed(lines[n - 1], float).value.t];
        AscendingLonger(Times(front), Parsed(lines[n - 1], float).value.t);
      } else {
        assert rows == front;
      }
    }
  }

  lemma AscendingLonger(t: seq<real>, x: real)
    requires Ascending(t) && forall i :: 0 <= i < |t| ==> t[i] <= x
    ensures Ascending(t + [x])
  {
  }

  /** A row at the time of an earlier kept row survives unless a later time came between: both sides of an
      impulsive burn are kept. */
  lemma EqualEpochSurvives(lines: seq<seq<string>>, float: string -> Option<real>, i: nat, j: nat)
    requires i < j < |lines| && Kept(lines, float, i) && Parsed(lines[j], float).Some?
    requires Parsed(lines[j], float).value.t == Parsed(lines[i], float).value.t
    ensures Kept(lines, float, j) <==>
      forall k :: i < k < j && Parsed(lines[k], float).Some? ==>
        Parsed(lines[k], float).value.t <= Parsed(lines[j], float).value.t
  {
  }

  // ---------------------------------------------------------------- decimate

  /** math.ceil(a / b) */
  function CeilDiv(a: int, b: int): int
    requires b != 0
  {
    if b > 0 then -((-a) / b) else -(a / (-b))
  }

  /** list(range(0, n, stride)) */
  function Range(n: nat, stride: nat): seq<nat>
    requires stride > 0
  {
    seq(CeilDiv(n, stride), i => i * stride)
  }

  /** The indices kept of n points. */
  function Keep(n: nat, stride: nat): seq<nat>
    requires stride > 0 && n > 0
  {
    if Range(n, stride)[|Range(n, stride)| - 1] != n - 1 then Range(n, stride) + [n - 1] else Range(n, stride)
  }

  function Pick<T>(s: seq<T>, keep: seq<nat>): seq<T>
    requires forall i :: 0 <= i < |keep| ==> keep[i] < |s|
  {
    seq(|keep|, i requires 0 <= i < |keep| => s[keep[i]])
  }

  lemma CeilBounds(a: int, b: int)
    requires b > 0
    ensures var c := CeilDiv(a, b); (c - 1) * b < a <= c * b
  {
    var d := (-a) / b;
    assert d * b <= -a < d * b + b;
    assert (-d - 1) * b == -(d * b) - b && (-d) * b == -(d * b);
  }

  datatype DecimateError = ZeroStep | NoLastIndex

  /** The stride is at least 2 and, that many apart, at most maxPoints indices fit. */
  lemma StrideFits(n: nat, maxPoints: int)
    requires 0 < maxPoints < n
    ensures CeilDiv(n, maxPoints) >= 2
    ensures 0 < CeilDiv(n, CeilDiv(n, maxPoints)) <= maxPoints
  {
    var s := CeilDiv(n, maxPoints);
    CeilBounds(n, maxPoints);
    assert s <= 1 ==> s * maxPoints <= maxPoints;
    var c := CeilDiv(n, s);
    CeilBounds(n, s);
    Fits(n, maxPoints, s, c);
  }

  lemma Fits(n: nat, maxPoints: int, s: int, c: int)
    requires n > 0 && s > 0 && maxPoints > 0 && n <= s * maxPoints && (c - 1) * s < n <= c * s
    ensures 0 < c <= maxPoints
  {
    assert c <= 0 ==> c * s <= 0;
    assert c > maxPoints ==> (c - 1) * s >= maxPoints * s;
  }

  ghost predicate Increasing(keep: seq<nat>) {
    forall i, j :: 0 <= i < j < |keep| ==> keep[i] < keep[j]
  }

  lemma {:induction false} Multiples(i: int, j: int, stride: int)
    requires i < j && stride > 0
    ensures i * stride + stride <= j * stride
    decreases j - i
  {
    assert (j - 1) * stride + stride == j * stride;
    if i < j - 1 {
      Multiples(i, j - 1, stride);
    }
  }

  lemma RangeIs(n: nat, stride: nat)
    requires n > 0 && stride > 0
    ensures var r := Range(n, stride);
      && |r| > 0 && r[0] == 0 && Increasing(r) && n - stride <= r[|r| - 1] < n
      && (forall i :: 0 <= i < |r| ==> r[i] < n)
      && (forall i :: 0 < i < |r| ==> r[i] - r[i - 1] == stride)
  {
    hide CeilDiv;
    var c := CeilDiv(n, stride);
    CeilBounds(n, stride);
    if c <= 0 {
      Multiples(c - 1, 0, stride);
    }
    Multiples(c - 1, c, stride);
    var r := Range(n, stride);
    forall i, j | 0 <= i < j < c ensures r[i] < r[j] {
      Multiples(i, j, stride);
    }
    forall i | 0 <= i < c ensures r[i] <= (c - 1) * stride {
      if i < c - 1 {
        Multiples(i, c - 1, stride);
      }
    }
    forall i | 0 < i < c ensures r[i] - r[i - 1] == stride {
      Next(i, stride);
    }
  }

  lemma Next(i: int, stride: int)
    ensures i * stride - (i - 1) * stride == stride
  {
  }

  /** What is kept of n points at most maxPoints apart from the last: the first and the last among them, in
      order, with gaps of at most the stride. */
  lemma KeepIs(n: nat, maxPoints: int)
    requires 0 < maxPoints < n
    ensures var stride := CeilDiv(n, maxPoints);
      stride >= 2 &&
      var keep := Keep(n, stride);
      && 0 < |keep| <= maxPoints + 1 && keep[0] == 0 && keep[|keep| - 1] == n - 1
      && Increasing(keep) && (forall i :: 0 <= i < |keep| ==> keep[i] < n)
      && (forall i :: 0 < i < |keep| ==> keep[i] - keep[i - 1] <= stride)
      && (forall i :: 0 <= i < |keep| - 1 ==> keep[i] == i * stride)
      && (|keep| == n <==> n == 2)
  {
    var stride := CeilDiv(n, maxPoints);
    StrideFits(n, maxPoints);
    RangeIs(n, stride);
    var r, keep := Range(n, stride), Keep(n, stride);
    if n > 2 {
      OneIsDropped(n, stride);
    } else {
      assert n == 2 && keep[0] == 0 && keep[|keep| - 1] == 1;
    }
  }

  lemma IncreasingShort(keep: seq<nat>, k: nat)
    requires Increasing(keep) && k < |keep|
    ensures keep[k] >= k
  {
    if k > 0 {
      IncreasingShort(keep, k - 1);
    }
  }

  lemma OneIsDropped(n: nat, stride: nat)
    requires n > 2 && stride >= 2
    ensures |Keep(n, stride)| < n
  {
    RangeIs(n, stride);
    var keep := Keep(n, stride);
    assert Increasing(keep) && forall i :: 0 <= i < |keep| ==> keep[i] < n;
    assert |keep| >= 2 && keep[1] >= 2;
    ShiftedShort(keep, |keep| - 1);
  }

  lemma ShiftedShort(keep: seq<nat>, k: nat)
    requires Increasing(keep) && 1 <= k < |keep| && keep[1] >= 2
    ensures keep[k] >= k + 1
  {
    if k > 1 {
      ShiftedShort(keep, k - 1);
    }
  }

  /** The points left of n: all of them, or those at the kept indices. */
  function Left<T>(s: seq<T>, n: nat, maxPoints: int): seq<T>
    requires |s| == n && maxPoints >= 0
  {
    if maxPoints == 0 || n <= maxPoints then s
    else
      KeepIs(n, maxPoints);
      Pick(s, Keep(n, CeilDiv(n, maxPoints)))
  }

  /** A negative limit raises: ValueError for a step of 0, IndexError for an empty range. */
  method Decimate(tr: Trajectory, maxPoints: int) returns (error: Option<DecimateError>)
    requires tr.Parallel()
    modifies tr`t, tr`pos, tr`vel
    ensures error.None? <==> maxPoints >= 0
    ensures error == Some(ZeroStep) <==> maxPoints < 0 && |old(tr.t)| < -maxPoints
    ensures error.None? ==> tr.t == Left(old(tr.t), |old(tr.t)|, maxPoints)
    ensures error.None? ==> tr.pos == Left(old(tr.pos), |old(tr.t)|, maxPoints)
    ensures error.None? ==> tr.vel == Left(old(tr.vel), |old(tr.t)|, maxPoints)
    ensures error.Some? ==> tr.t == old(tr.t) && tr.pos == old(tr.pos) && tr.vel == old(tr.vel)
  {
    var n := |tr.t|;
    if maxPoints != 0 && n > maxPoints {
      var stride := CeilDiv(n, maxPoints);
      if stride == 0 {
        NegativeStride(n, maxPoints);
        return Some(ZeroStep);
      }
      if stride < 0 {
        NegativeStride(n, maxPoints);
        return Some(NoLastIndex);
      }
      NegativeStride(n, maxPoints);
      KeepIs(n, maxPoints);
      var keep := Keep(n, stride);
      tr.t := Pick(tr.t, keep);
      tr.pos := Pick(tr.pos, keep);
      tr.vel := Pick(tr.vel, keep);
    }
    error := None;
  }

  lemma NegativeStride(n: nat, maxPoints: int)
    requires n > maxPoints && maxPoints != 0
    ensures CeilDiv(n, maxPoints) > 0 <==> maxPoints > 0
    ensures CeilDiv(n, maxPoints) == 0 <==> maxPoints < 0 && n < -maxPoints
  {
    if maxPoints > 0 {
      StrideFits(n, maxPoints);
    }
  }

  lemma PickedAscending(t: seq<real>, keep: seq<nat>)
    requires Ascending(t) && Increasing(keep) && forall i :: 0 <= i < |keep| ==> keep[i] < |t|
    ensures Ascending(Pick(t, keep))
  {
    forall i, j | 0 <= i < j < |keep| ensures t[keep[i]] <= t[keep[j]] {
      assert keep[i] < keep[j];
    }
  }

  /** At most maxPoints + 1 points are left, the first and the last among them, in time order. */
  lemma LeftIs(t: seq<real>, maxPoints: int)
    requires maxPoints > 0 && t != [] && Ascending(t)
    ensures var r := Left(t, |t|, maxPoints);
      0 < |r| <= maxPoints + 1 && r[0] == t[0] && r[|r| - 1] == t[|t| - 1] && Ascending(r)
  {
    hide CeilDiv, Keep, Ascending;
    if |t| > maxPoints {
      KeepIs(|t|, maxPoints);
      PickedAscending(t, Keep(|t|, CeilDiv(|t|, maxPoints)));
    }
  }

  /** Of more points than the limit every stride-th is left, and the last one; the stride is the quotient rounded up. */
  lemma LeftAt<T>(s: seq<T>, maxPoints: int)
    requires 0 < maxPoints < |s|
    ensures var r, stride := Left(s, |s|, maxPoints), CeilDiv(|s|, maxPoints);
      && (stride - 1) * maxPoints < |s| <= stride * maxPoints
      && r != [] && r[|r| - 1] == s[|s| - 1]
      && forall i :: 0 <= i < |r| - 1 ==> 0 <= i * stride < |s| - 1 && r[i] == s[i * stride]
  {
    hide CeilDiv, Keep;
    CeilBounds(|s|, maxPoints);
    KeepIs(|s|, maxPoints);
    var r, keep := Left(s, |s|, maxPoints), Keep(|s|, CeilDiv(|s|, maxPoints));
    assert |r| == |keep| && forall i :: 0 <= i < |keep| ==> r[i] == s[keep[i]];
    forall i | 0 <= i < |r| - 1
      ensures 0 <= i * CeilDiv(|s|, maxPoints) < |s| - 1 && r[i] == s[i * CeilDiv(|s|, maxPoints)]
    {
      assert keep[i] == i * CeilDiv(|s|, maxPoints) && keep[i] < keep[|keep| - 1];
    }
  }

  /** Attitudes are not decimated: a parallel list stays parallel exactly when nothing was dropped. */
  lemma AttitudeStaysParallelIff(t: seq<real>, maxPoints: int, attitude: nat)
    requires maxPoints >= 0 && attitude == |t|
    ensures |Left(t, |t|, maxPoints)| == attitude <==> maxPoints == 0 || |t| <= maxPoints || |t| == 2
  {
    if maxPoints != 0 && |t| > maxPoints {
      KeepIs(|t|, maxPoints);
    }
  }
}
