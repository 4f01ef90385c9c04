/** The benchmark sweep over OSD counts, object sizes, replica counts and repetitions. */
module BenchSweep {

  datatype Config = Config(total: nat, minOsds: int, maxOsds: int, minReplicas: int, maxReplicas: int,
                           sizes: seq<int>, repetitions: nat)

  /** The checks that raise before the sweep starts. */
  predicate Acceptable(c: Config) {
    && c.maxOsds <= c.total && 1 <= c.minOsds <= c.maxOsds
    && 1 <= c.minReplicas <= c.maxReplicas <= c.maxOsds
  }

  datatype Point = Point(size: int, replica: int, rep: nat)

  /** One benchmark run: its parameters, and the OSDs whose weight was zero while it ran. */
  datatype Bench = Bench(osdsIn: int, point: Point, zeroed: set<int>)

  function Reps(size: int, replica: int, k: nat): seq<Point> {
    if k == 0 then [] else Reps(size, replica, k - 1) + [Point(size, replica, k - 1)]
  }

  function Replicas(c: Config, size: int, hi: int): seq<Point>
    decreases hi - c.minReplicas
  {
    if hi < c.minReplicas then [] else Replicas(c, size, hi - 1) + Reps(size, hi, c.repetitions)
  }

  /** `product(sizes, replicas, reps)`, the last varying fastest. */
  function Points(c: Config, k: nat): seq<Point>
    requires k <= |c.sizes|
  {
    if k == 0 then [] else Points(c, k - 1) + Replicas(c, c.sizes[k - 1], c.maxReplicas)
  }

  /** The parameter combinations that are to be run with this many OSDs in. */
  predicate Wanted(c: Config, osdsIn: int, p: Point) {
    c.minOsds <= osdsIn <= c.maxOsds && p.replica <= osdsIn
  }

  function FirstOsds(n: nat): (r: set<int>)
    ensures forall i :: i in r <==> 0 <= i < n
  {
    if n == 0 then {} else FirstOsds(n - 1) + {n - 1}
  }

  /** One row of the product, filtered, with exactly the first `out` OSDs reweighted to zero. */
  function Row(c: Config, out: nat, points: seq<Point>): seq<Bench> {
    if points == [] then []
    else
      var p := points[|points| - 1];
      Row(c, out, points[..|points| - 1])
      + (if Wanted(c, c.total - out, p) then [Bench(c.total - out, p, FirstOsds(out))] else [])
  }

  /** The whole filtered product, from no OSD out to all of them out. */
  function Expected(c: Config, rows: nat): seq<Bench> {
    if rows == 0 then [] else Expected(c, rows - 1) + Row(c, rows - 1, Points(c, |c.sizes|))
  }

  lemma Distributes(a: int, b: int, n: int)
    ensures (a + b) * n == a * n + b * n
  {
  }

  lemma {:induction false} RepsInOrder(size: int, replica: int, k: nat)
    ensures |Reps(size, replica, k)| == k
    ensures forall j :: 0 <= j < k ==> Reps(size, replica, k)[j] == Point(size, replica, j)
  {
    if k > 0 {
      RepsInOrder(size, replica, k - 1);
    }
  }

  lemma {:induction false} ReplicasAt(c: Config, size: int, hi: int, replica: int, j: nat)
    requires c.minReplicas <= replica <= hi && j < c.repetitions
    ensures var at := |Replicas(c, size, replica - 1)| + j;
            at < |Replicas(c, size, hi)| && Replicas(c, size, hi)[at] == Point(size, replica, j)
    decreases hi - c.minReplicas
  {
    RepsInOrder(size, hi, c.repetitions);
    if replica < hi {
      ReplicasAt(c, size, hi - 1, replica, j);
    }
  }

  lemma {:induction false} PointsAt(c: Config, k: nat, i: nat, replica: int, j: nat)
    requires i < k <= |c.sizes| && c.minReplicas <= replica <= c.maxReplicas && j < c.repetitions
    ensures var at := |Points(c, i)| + |Replicas(c, c.sizes[i], replica - 1)| + j;
            at < |Points(c, k)| && Points(c, k)[at] == Point(c.sizes[i], replica, j)
  {
    if i == k - 1 {
      ReplicasAt(c, c.sizes[i], c.maxReplicas, replica, j);
    } else {
      PointsAt(c, k - 1, i, replica, j);
    }
  }

  lemma {:induction false} ReplicasLength(c: Config, size: int, hi: int)
    requires hi >= c.minReplicas - 1
    ensures |Replicas(c, size, hi)| == (hi - c.minReplicas + 1) * c.repetitions
    decreases hi - c.minReplicas
  {
    if hi >= c.minReplicas {
      ReplicasLength(c, size, hi - 1);
      RepsInOrder(size, hi, c.repetitions);
      Distributes(hi - c.minReplicas, 1, c.repetitions);
    }
  }

  /** How many replica counts there are. */
  function Width(c: Config): int {
    c.maxReplicas - c.minReplicas + 1
  }

  lemma {:induction false} PointsLength(c: Config, k: nat)
    requires k <= |c.sizes| && c.minReplicas <= c.maxReplicas
    ensures |Points(c, k)| == k * Width(c) * c.repetitions
  {
    if k > 0 {
      PointsLength(c, k - 1);
      ReplicasLength(c, c.sizes[k - 1], c.maxReplicas);
      Distributes(k - 1, 1, Width(c));
      Distributes((k - 1) * Width(c), Width(c), c.repetitions);
    }
  }

  /** The product by position: its length, and where it has size `i` with a replica count and a repetition. */
  lemma PointsInOrder(c: Config, i: nat, replica: int, j: nat)
    requires i < |c.sizes| && c.minReplicas <= replica <= c.maxReplicas && j < c.repetitions
    ensures |Points(c, |c.sizes|)| == |c.sizes| * (c.maxReplicas - c.minReplicas + 1) * c.repetitions
    ensures var at := (i * (c.maxReplicas - c.minReplicas + 1) + (replica - c.minReplicas)) * c.repetitions + j;
            0 <= at < |Points(c, |c.sizes|)| && Points(c, |c.sizes|)[at] == Point(c.sizes[i], replica, j)
  {
    PointsAt(c, |c.sizes|, i, replica, j);
    PointsLength(c, |c.sizes|);
    PointsLength(c, i);
    ReplicasLength(c, c.sizes[i], replica - 1);
    Distributes(i * Width(c), replica - c.minReplicas, c.repetitions);
  }

  /** Which positions of `points` a row keeps: all wanted ones and no others, in their order. */
  ghost predicate Keeps(c: Config, out: nat, points: seq<Point>, runs: seq<Bench>, at: seq<nat>) {
    && |at| == |runs|
    && (forall j :: 0 <= j < |at| ==> at[j] < |points| && runs[j] == Bench(c.total - out, points[at[j]], FirstOsds(out)))
    && (forall i, j :: 0 <= i < j < |at| ==> at[i] < at[j])
    && (forall m: nat :: m < |points| ==> (m in at <==> Wanted(c, c.total - out, points[m])))
  }

  lemma {:induction false} RowInOrder(c: Config, out: nat, points: seq<Point>) returns (at: seq<nat>)
    ensures Keeps(c, out, points, Row(c, out, points), at)
  {
    at := [];
    if points != [] {
      var front, last := points[..|points| - 1], |points| - 1;
      var before := RowInOrder(c, out, front);
      if Wanted(c, c.total - out, points[last]) {
        at := before + [last];
      } else {
        at := before;
      }
      forall m: nat | m < |points| ensures m in at <==> Wanted(c, c.total - out, points[m]) {
        if m < last {
          assert front[m] == points[m];
          assert m in before <==> Wanted(c, c.total - out, front[m]);
        }
      }
    }
  }

  predicate Earlier(a: (nat, nat), b: (nat, nat)) {
    a.0 < b.0 || (a.0 == b.0 && a.1 < b.1)
  }

  ghost predicate Increasing(cells: seq<(nat, nat)>) {
    forall i, j :: 0 <= i < j < |cells| ==> Earlier(cells[i], cells[j])
  }

  ghost predicate Matching(c: Config, rows: nat, points: seq<Point>, runs: seq<Bench>, cells: seq<(nat, nat)>) {
    && |cells| == |runs|
    && forall j :: 0 <= j < |cells| ==>
         cells[j].0 < rows && cells[j].1 < |points|
         && runs[j] == Bench(c.total - cells[j].0, points[cells[j].1], FirstOsds(cells[j].0))
  }

  ghost predicate Complete(c: Config, rows: nat, points: seq<Point>, cells: seq<(nat, nat)>) {
    forall out: nat, m: nat :: out < rows && m < |points| ==>
      ((out, m) in cells <==> Wanted(c, c.total - out, points[m]))
  }

  /** The runs are those of the wanted cells (OSDs out, position in the product), each once, in order. */
  ghost predicate InOrder(c: Config, rows: nat, runs: seq<Bench>) {
    exists cells :: CellByCell(c, rows, Points(c, |c.sizes|), runs, cells)
  }

  ghost predicate CellByCell(c: Config, rows: nat, points: seq<Point>, runs: seq<Bench>, cells: seq<(nat, nat)>) {
    Matching(c, rows, points, runs, cells) && Increasing(cells) && Complete(c, rows, points, cells)
  }

  lemma {:induction false} ExpectedInOrder(c: Config, rows: nat)
    ensures InOrder(c, rows, Expected(c, rows))
  {
    if rows == 0 {
      assert CellByCell(c, 0, Points(c, |c.sizes|), [], []);
    } else {
      ExpectedInOrder(c, rows - 1);
      OneRowMore(c, rows - 1, Expected(c, rows - 1));
    }
  }

  lemma {:induction false} OneRowMore(c: Config, out: nat, runs: seq<Bench>)
    requires InOrder(c, out, runs)
    ensures InOrder(c, out + 1, runs + Row(c, out, Points(c, |c.sizes|)))
  {
    var points := Points(c, |c.sizes|);
    var cells :| CellByCell(c, out, points, runs, cells);
    var at := RowInOrder(c, out, points);
    RowJoins(c, out, points, runs, cells, at, Cells(out, at));
  }

  lemma {:induction false} RowJoins(c: Config, out: nat, points: seq<Point>, runs: seq<Bench>, cells: seq<(nat, nat)>,
                                    at: seq<nat>, row: seq<(nat, nat)>)
    requires CellByCell(c, out, points, runs, cells)
    requires Keeps(c, out, points, Row(c, out, points), at) && row == Cells(out, at)
    ensures CellByCell(c, out + 1, points, runs + Row(c, out, points), cells + row)
  {
    RowMatches(c, out, points, runs, cells, at, row);
    RowFollows(c, out, points, runs, cells, at, row);
    RowCompletes(c, out, points, cells, at, row);
  }

  function Cells(out: nat, at: seq<nat>): (r: seq<(nat, nat)>)
    ensures |r| == |at| && forall j :: 0 <= j < |at| ==> r[j] == (out, at[j])
  {
    seq(|at|, j requires 0 <= j < |at| => (out, at[j]))
  }

  lemma {:induction false} RowMatches(c: Config, out: nat, points: seq<Point>, runs: seq<Bench>, cells: seq<(nat, nat)>,
                                      at: seq<nat>, row: seq<(nat, nat)>)
    requires Matching(c, out, points, runs, cells) && Keeps(c, out, points, Row(c, out, points), at) && row == Cells(out, at)
    ensures Matching(c, out + 1, points, runs + Row(c, out, points), cells + row)
  {
  }

  lemma {:induction false} RowFollows(c: Config, out: nat, points: seq<Point>, runs: seq<Bench>, cells: seq<(nat, nat)>,
                                      at: seq<nat>, row: seq<(nat, nat)>)
    requires Matching(c, out, points, runs, cells) && Increasing(cells)
    requires Keeps(c, out, points, Row(c, out, points), at) && row == Cells(out, at)
    ensures Increasing(cells + row)
  {
  }

  lemma {:induction false} RowCompletes(c: Config, out: nat, points: seq<Point>, cells: seq<(nat, nat)>,
                                        at: seq<nat>, row: seq<(nat, nat)>)
    requires Complete(c, out, points, cells) && forall j :: 0 <= j < |cells| ==> cells[j].0 < out
    requires Keeps(c, out, points, Row(c, out, points), at) && row == Cells(out, at)
    ensures Complete(c, out + 1, points, cells + row)
  {
    forall o: nat, m: nat | o < out + 1 && m < |points|
      ensures (o, m) in cells + row <==> Wanted(c, c.total - o, points[m])
    {
      if o < out {
        assert (o, m) in cells <==> Wanted(c, c.total - o, points[m]);
      } else if m in at {
        var j :| 0 <= j < |at| && at[j] == m;
        assert row[j] == (o, m);
      }
    }
  }

  lemma {:induction false} RepsExactly(size: int, replica: int, k: nat, p: Point)
    ensures p in Reps(size, replica, k) <==> p.size == size && p.replica == replica && p.rep < k
  {
    if k > 0 {
      RepsExactly(size, replica, k - 1, p);
    }
  }

  lemma {:induction false} ReplicasExactly(c: Config, size: int, hi: int, p: Point)
    ensures p in Replicas(c, size, hi) <==> p.size == size && c.minReplicas <= p.replica <= hi && p.rep < c.repetitions
    decreases hi - c.minReplicas
  {
    if hi >= c.minReplicas {
      ReplicasExactly(c, size, hi - 1, p);
      RepsExactly(size, hi, c.repetitions, p);
    }
  }

  lemma {:induction false} PointsExactly(c: Config, k: nat, p: Point)
    requires k <= |c.sizes|
    ensures p in Points(c, k) <==> p.size in c.sizes[..k] && c.minReplicas <= p.replica <= c.maxReplicas && p.rep < c.repetitions
  {
    if k > 0 {
      PointsExactly(c, k - 1, p);
      ReplicasExactly(c, c.sizes[k - 1], c.maxReplicas, p);
      assert c.sizes[..k] == c.sizes[..k - 1] + [c.sizes[k - 1]];
    }
  }

  lemma {:induction false} RowExactly(c: Config, out: nat, points: seq<Point>, b: Bench)
    ensures b in Row(c, out, points) <==>
            b.point in points && b.osdsIn == c.total - out && b.zeroed == FirstOsds(out) && Wanted(c, b.osdsIn, b.point)
  {
    if points != [] {
      RowExactly(c, out, points[..|points| - 1], b);
      assert points == points[..|points| - 1] + [points[|points| - 1]];
    }
  }

  /** A combination the configuration asks for, with exactly the OSDs out that it implies. */
  ghost predicate Requested(c: Config, b: Bench) {
    && b.point.size in c.sizes && c.minReplicas <= b.point.replica <= c.maxReplicas && b.point.rep < c.repetitions
    && c.minOsds <= b.osdsIn <= c.maxOsds && b.point.replica <= b.osdsIn <= c.total
    && b.zeroed == FirstOsds(c.total - b.osdsIn)
  }

  lemma RowRequested(c: Config, out: nat, b: Bench)
    requires Acceptable(c) && out <= c.total
    ensures b in Row(c, out, Points(c, |c.sizes|)) <==> Requested(c, b) && b.osdsIn == c.total - out
  {
    RowExactly(c, out, Points(c, |c.sizes|), b);
    PointsExactly(c, |c.sizes|, b.point);
    assert c.sizes[..|c.sizes|] == c.sizes;
  }

  /** What is run, said without reference to any order. */
  lemma {:induction false} ExpectedExactly(c: Config, rows: nat, b: Bench)
    requires Acceptable(c) && rows <= c.total + 1
    ensures b in Expected(c, rows) <==> Requested(c, b) && b.osdsIn > c.total - rows
  {
    if rows > 0 {
      var row := Row(c, rows - 1, Points(c, |c.sizes|));
      assert b in Expected(c, rows) <==> b in Expected(c, rows - 1) || b in row;
      ExpectedExactly(c, rows - 1, b);
      RowRequested(c, rows - 1, b);
    }
  }

  lemma {:induction false} NothingWithoutOsds(c: Config, points: seq<Point>)
    requires Acceptable(c)
    ensures Row(c, c.total, points) == []
  {
    if points != [] {
      NothingWithoutOsds(c, points[..|points| - 1]);
    }
  }

  /** How many OSDs have been taken out once `rows` rows of the product are behind. */
  function OutAfter(c: Config, anyPoints: bool, rows: nat): nat {
    if !anyPoints || rows == 0 then 0 else if rows > c.total && rows >= 2 then rows - 2 else rows - 1
  }

  lemma {:induction false} RowPrefix(c: Config, out: nat, points: seq<Point>, k: nat)
    requires k <= |points|
    ensures Row(c, out, points[..k]) <= Row(c, out, points)
  {
    if k < |points| {
      RowPrefix(c, out, points[..|points| - 1], k);
      assert points[..|points| - 1][..k] == points[..k];
    } else {
      assert points[..k] == points;
    }
  }

  lemma {:induction false} ExpectedPrefix(c: Config, rows: nat, more: nat)
    requires rows <= more
    ensures Expected(c, rows) <= Expected(c, more)
  {
    if rows < more {
      ExpectedPrefix(c, rows, more - 1);
    }
  }

  /** The whole sweep, settings refused, or a command, health wait or benchmark that raised. */
  datatype Ending = Completed | Refused | Raised

  /**
   The sweep loop. OSDs are taken out one at a time, so that while a benchmark runs the
   zero weights are exactly those of OSDs 0 to osds_out - 1, and stopping at the first
   combination without OSDs leaves nothing out. The weights are not put back. Whatever
   raises, the runs by then are the first ones expected.
   */
  method Sweep(c: Config) returns (ending: Ending, runs: seq<Bench>, zeroed: set<int>)
    ensures ending.Refused? <==> !Acceptable(c)
    ensures ending.Refused? ==> runs == [] && zeroed == {}
    ensures ending.Completed? ==> runs == Expected(c, c.total + 1) && InOrder(c, c.total + 1, runs)
    ensures ending.Completed? ==> zeroed == if Points(c, |c.sizes|) != [] then FirstOsds(c.total - 1) else {}
    ensures ending.Raised? ==> runs <= Expected(c, c.total + 1) && exists n: nat :: n < c.total && zeroed == FirstOsds(n)
  {
    runs, zeroed := [], {};
    if c.maxOsds > c.total || c.minOsds < 1 || c.minOsds > c.maxOsds { return Refused, [], {}; }
    if c.minReplicas < 1 || c.minReplicas > c.maxReplicas || c.maxReplicas > c.maxOsds { return Refused, [], {}; }
    var ok: bool := *;
    if !ok {                                  // setting the default pools' size
      assert zeroed == FirstOsds(0);
      return Raised, [], {};
    }
    var points := Points(c, |c.sizes|);
    var current := 0;
    var out := 0;
    while out <= c.total
      invariant 0 <= out <= c.total + 1 && runs == Expected(c, out)
      invariant current == OutAfter(c, points != [], out) && zeroed == FirstOsds(current)
    {
      var done, raised;
      ghost var before := runs;
      runs, current, zeroed, done, raised := SweepRow(c, out, points, runs, current);
      if raised {
        assert before + Row(c, out, points) == Expected(c, out + 1);
        ExpectedPrefix(c, out + 1, c.total + 1);
        return Raised, runs, zeroed;
      }
      out := out + 1;
      if done { break; }
    }
    ExpectedInOrder(c, c.total + 1);
    return Completed, runs, zeroed;
  }

  /** The turns of the loop with `out` OSDs out; `done` when the loop ends here. */
  method SweepRow(c: Config, out: nat, points: seq<Point>, sofar: seq<Bench>, was: nat)
    returns (runs: seq<Bench>, current: nat, zeroed: set<int>, done: bool, raised: bool)
    requires Acceptable(c) && out <= c.total
    requires was == OutAfter(c, points != [], out)
    ensures !raised ==> runs == sofar + Row(c, out, points)
    ensures !raised ==> current == OutAfter(c, points != [], out + 1) && zeroed == FirstOsds(current)
    ensures !raised ==> (done <==> points != [] && out == c.total)
    ensures raised ==> runs <= sofar + Row(c, out, points) && out < c.total
                       && (zeroed == FirstOsds(was) || zeroed == FirstOsds(out))
  {
    runs, current, zeroed, raised := sofar, was, FirstOsds(was), false;
    for i := 0 to |points|
      invariant runs == sofar + Row(c, out, points[..i]) && !raised
      invariant current == (if i == 0 then was else out) && zeroed == FirstOsds(current)
      invariant i > 0 ==> out < c.total
    {
      var osdsIn := c.total - out;
      if osdsIn == 0 {
        NothingWithoutOsds(c, points);
        return sofar, current, zeroed, true, false;
      }
      RowPrefix(c, out, points, i);
      done := false;
      if current != out {
        raised := *;
        if raised { return; }                 // the reweight
        zeroed := zeroed + {out - 1};
        assert zeroed == FirstOsds(out);
        raised := *;
        if raised { return; }                 // the wait for health
        current := out;
      }
      assert points[..i + 1][..i] == points[..i];
      if !(c.minOsds <= osdsIn < c.maxOsds + 1) { continue; }
      if osdsIn < points[i].replica { continue; }
      raised := *;
      if raised { return; }                   // the benchmark itself
      runs := runs + [Bench(osdsIn, points[i], zeroed)];
    }
    assert points[..|points|] == points;
    return runs, current, zeroed, false, false;
  }
}
