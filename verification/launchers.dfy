/**
  The gas launchers `DoubleMolecules`, `HalfMolecules` and `HalfSpeed`.
  Each lays out gas particles on a grid of rows `i` and columns `j`
  (`j` from -4 to 5 in all three), gives them velocities drawn from a
  grid of the same shape after shuffling it, and starts the simulator on
  the preferred 500 by 500 field with a wall-collision rate counter and
  three trackers.

  `java.util.Random` is replaced by the sequence of indices it would
  draw, and the resource bundle by the application name.
*/
module Launchers {

  import opened RealArith
  import opened Vectors
  import opened Things
  import opened CollisionEngine
  import opened Counters
  import opened Statuses
  import opened SimulatorState
  import Simulator

  /** The columns of every grid: `j` runs from `FirstColumn` to `LastColumn`. */
  const FirstColumn: int := -4
  const LastColumn: int := 5
  const Columns: int := LastColumn - FirstColumn + 1

  /** The distance between neighbouring particles, `GasParticle.SIZE*3`. */
  const Spacing: int := GasSize * 3

  /** The preferred field width and height every launcher sets. */
  const FieldSize: real := 500.0

  /** Row `i` of a grid: the cells `cell(i, j)` for every column, in order. */
  function Row<T>(i: int, cell: (int, int) -> T): (r: seq<T>)
    ensures |r| == Columns
    ensures forall c :: 0 <= c < Columns ==> r[c] == cell(i, FirstColumn + c)
  {
    seq(Columns, c => cell(i, FirstColumn + c))
  }

  /** The first `rows` rows of a grid starting at row `first`, row by row. */
  function Grid<T>(first: int, rows: nat, cell: (int, int) -> T): (g: seq<T>)
    ensures |g| == rows * Columns
  {
    if rows == 0 then [] else Grid(first, rows - 1, cell) + Row(first + rows - 1, cell)
  }

  /** Splitting an index into row and column. */
  lemma RowMajor(r: int, c: int)
    requires 0 <= c < Columns
    ensures (r * Columns + c) / Columns == r && (r * Columns + c) % Columns == c
  {
  }

  /** Cell `k` of a grid is the one in row `k / 10` and column `k % 10`:
      the layout is row-major. */
  lemma {:induction false} GridIndex<T>(first: int, rows: nat, cell: (int, int) -> T, k: int)
    requires 0 <= k < rows * Columns
    ensures Grid(first, rows, cell)[k] == cell(first + k / Columns, FirstColumn + k % Columns)
  {
    var prev := (rows - 1) * Columns;
    if k < prev {
      GridIndex(first, rows - 1, cell, k);
    } else {
      RowMajor(rows - 1, k - prev);
      assert Grid(first, rows, cell)[k] == Row(first + rows - 1, cell)[k - prev];
    }
  }

  /** The nested loops that fill a list row by row, `i` from `first` to
      `last` and `j` over the columns. */
  method BuildGrid<T>(first: int, last: int, cell: (int, int) -> T) returns (g: seq<T>)
    requires first <= last + 1
    ensures g == Grid(first, last - first + 1, cell)
  {
    g := [];
    var i := first;
    while i <= last
      invariant first <= i <= last + 1
      invariant g == Grid(first, i - first, cell)
    {
      var j := FirstColumn;
      while j <= LastColumn
        invariant FirstColumn <= j <= LastColumn + 1
        invariant g == Grid(first, i - first, cell) + Row(i, cell)[..j - FirstColumn]
      {
        assert Row(i, cell)[..j + 1 - FirstColumn] == Row(i, cell)[..j - FirstColumn] + [cell(i, j)];
        g := g + [cell(i, j)];
        j := j + 1;
      }
      assert Row(i, cell)[..Columns] == Row(i, cell);
      i := i + 1;
    }
  }

  /** The velocity grid of `DoubleMolecules`: half-unit steps in the middle
      rows (`i` from -4 to 5), quarter-unit steps in the outer ones. */
  function DoubleMoleculesVelocity(i: int, j: int): Vec {
    if -4 <= i <= 5 then Vec(i as real / 2.0, j as real / 2.0)
    else Vec(i as real / 4.0, j as real / 4.0)
  }

  /** The velocity grid of `HalfMolecules`: half-unit steps. */
  function HalfMoleculesVelocity(i: int, j: int): Vec {
    Vec(i as real / 2.0, j as real / 2.0)
  }

  /** The velocity grid of `HalfSpeed`: quarter-unit steps. */
  function HalfSpeedVelocity(i: int, j: int): Vec {
    Vec(i as real / 4.0, j as real / 4.0)
  }

  /** One step of `randomize`: the element at `p` is removed and appended. */
  function MoveToEnd<T>(data: seq<T>, p: nat): (r: seq<T>)
    requires p < |data|
    ensures |r| == |data| && multiset(r) == multiset(data)
    ensures r[|r| - 1] == data[p]
  {
    assert data == data[..p] + [data[p]] + data[p + 1..];
    data[..p] + data[p + 1..] + [data[p]]
  }

  /** The whole shuffle, one drawn index after the other. */
  function Shuffled<T>(data: seq<T>, picks: seq<nat>): (r: seq<T>)
    requires forall n :: 0 <= n < |picks| ==> picks[n] < |data|
    ensures |r| == |data| && multiset(r) == multiset(data)
    decreases |picks|
  {
    if |picks| == 0 then data
    else Shuffled(MoveToEnd(data, picks[0]), picks[1..])
  }

  /**
    `randomize`: `10 * |data|` times, move a randomly drawn element to the
    end. `picks` are the indices `nextInt` draws, each below the (fixed)
    list length. The result is a rearrangement of the input.
  */
  method Randomize<T>(data: seq<T>, picks: seq<nat>) returns (r: seq<T>)
    requires |picks| == |data| * 10
    requires forall n :: 0 <= n < |picks| ==> picks[n] < |data|
    ensures r == Shuffled(data, picks)
    ensures |r| == |data| && multiset(r) == multiset(data)
  {
    r := data;
    var n := 0;
    while n < |data| * 10
      invariant 0 <= n <= |picks|
      invariant |r| == |data|
      invariant Shuffled(r, picks[n..]) == Shuffled(data, picks)
    {
      assert picks[n..][1..] == picks[n + 1..];
      r := MoveToEnd(r, picks[n]);
      n := n + 1;
    }
  }

  /** The particle in row `i`, column `j` of the gas grid. */
  function GasAt(i: int, j: int, v: Vec): (b: Body)
    ensures Position(b) == Vec((i * Spacing) as real, (j * Spacing) as real)
  {
    GasParticle(i * Spacing, j * Spacing, v)
  }

  /**
    The loops that place the particles: the particle in row `i`, column
    `j` gets velocity number `(i - first) * 10 + (j + 4)`, so particle `k`
    sits in row `first + k / 10`, column `-4 + k % 10` and takes velocity `k`.
  */
  method BuildGas(first: int, last: int, vs: seq<Vec>) returns (gas: seq<Body>)
    requires first <= last + 1
    requires |vs| == (last - first + 1) * Columns
    ensures |gas| == |vs|
    ensures forall k :: 0 <= k < |gas| ==> gas[k] == GasAt(first + k / Columns, FirstColumn + k % Columns, vs[k])
  {
    gas := [];
    var i := first;
    while i <= last
      invariant first <= i <= last + 1
      invariant |gas| == (i - first) * Columns
      invariant forall k :: 0 <= k < |gas| ==> gas[k] == GasAt(first + k / Columns, FirstColumn + k % Columns, vs[k])
    {
      var j := FirstColumn;
      while j <= LastColumn
        invariant FirstColumn <= j <= LastColumn + 1
        invariant |gas| == (i - first) * Columns + (j - FirstColumn)
        invariant forall k :: 0 <= k < |gas| ==> gas[k] == GasAt(first + k / Columns, FirstColumn + k % Columns, vs[k])
      {
        var index := (i - first) * Columns + (j - FirstColumn);
        RowMajor(i - first, j - FirstColumn);
        gas := gas + [GasAt(i, j, vs[index])];
        j := j + 1;
      }
      i := i + 1;
    }
  }

  /** A real at least 15 away from zero has a square of at least 225. */
  lemma FarSquare(x: real)
    requires x >= Spacing as real || x <= -(Spacing as real)
    ensures Sq(x) >= 225.0
  {
    if x >= 0.0 {
      SquareMonotone(Spacing as real, x);
    } else {
      SquareMonotone(Spacing as real, -x);
      SquareOfNegation(x);
    }
  }

  /** Two different grid cells hold particles that do not touch: their
      centres are at least 15 apart and their radii add up to 10. */
  lemma GasApart(i: int, j: int, i': int, j': int, v: Vec, v': Vec)
    requires i != i' || j != j'
    ensures !Overlaps(GasAt(i, j, v), GasAt(i', j', v'))
  {
    var a, b := GasAt(i, j, v), GasAt(i', j', v');
    var dx, dy := ((i' - i) * Spacing) as real, ((j' - j) * Spacing) as real;
    assert Offset(a, b) == Vec(dx, dy);
    SquareNonNegative(dx);
    SquareNonNegative(dy);
    if i != i' {
      FarSquare(dx);
    } else {
      FarSquare(dy);
    }
    assert Sq(Reach(a, b) as real) == 100.0;
  }

  /** No two particles of a gas grid touch. */
  lemma GasGridApart(first: int, gas: seq<Body>, vs: seq<Vec>)
    requires |gas| == |vs|
    requires forall k :: 0 <= k < |gas| ==> gas[k] == GasAt(first + k / Columns, FirstColumn + k % Columns, vs[k])
    ensures forall k, l :: 0 <= k < l < |gas| ==> !Overlaps(gas[k], gas[l])
  {
    forall k, l | 0 <= k < l < |gas|
      ensures !Overlaps(gas[k], gas[l])
    {
      assert k / Columns != l / Columns || k % Columns != l % Columns;
      GasApart(first + k / Columns, FirstColumn + k % Columns, first + l / Columns, FirstColumn + l % Columns, vs[k], vs[l]);
    }
  }

  /** The status elements of every launcher: a wall-collision rate counter
      over five intervals and three trackers. */
  function LauncherStatuses(): (ss: seq<Status>)
    ensures |ss| == 4 && AllValid(ss)
    ensures ss[0].WallCollisionRateCounter? && ss[0].rate.sampleTime == 5 && ss[0].rate.count == 0
  {
    [WallCollisionRateCounter(NewRateCounter(5).value), Tracker, Tracker, Tracker]
  }

  function Velocities(bs: seq<Body>): (vs: seq<Vec>)
    ensures |vs| == |bs| && forall k :: 0 <= k < |bs| ==> vs[k] == bs[k].v
  {
    seq(|bs|, k requires 0 <= k < |bs| => bs[k].v)
  }

  /**
    A launcher's `main`: the velocity grid, shuffled, handed out to the
    particle grid, and the simulator initialised with them. The particles
    fill the grid without touching, and their velocities are the grid's,
    rearranged.
  */
  method Launch(first: int, last: int, velocity: (int, int) -> Vec, picks: seq<nat>) returns (s: Session, f: Field)
    requires first <= last + 1
    requires |picks| == (last - first + 1) * Columns * 10
    requires forall n :: 0 <= n < |picks| ==> picks[n] < (last - first + 1) * Columns
    ensures f == Field(FieldSize, FieldSize)
    ensures s == Simulator.Initialize(s.objects, LauncherStatuses())
    ensures |s.objects| == (last - first + 1) * Columns
    ensures multiset(Velocities(s.objects)) == multiset(Grid(first, last - first + 1, velocity))
    ensures forall k :: 0 <= k < |s.objects| ==>
              Position(s.objects[k]) == Vec(((first + k / Columns) * Spacing) as real, ((FirstColumn + k % Columns) * Spacing) as real)
    ensures forall k :: 0 <= k < |s.objects| ==> s.objects[k].size == GasSize && s.objects[k].mass == GasMass
    ensures forall k, l :: 0 <= k < l < |s.objects| ==> !Overlaps(s.objects[k], s.objects[l])
  {
    var grid := BuildGrid(first, last, velocity);
    var vs := Randomize(grid, picks);
    var gas := BuildGas(first, last, vs);
    assert Velocities(gas) == vs;
    GasGridApart(first, gas, vs);
    s := Simulator.Initialize(gas, LauncherStatuses());
    f := Field(FieldSize, FieldSize);
  }

  /** `DoubleMolecules`: 20 rows (`i` from -9 to 10), 200 particles. */
  method DoubleMolecules(picks: seq<nat>) returns (s: Session, f: Field)
    requires |picks| == 2000 && forall n :: 0 <= n < |picks| ==> picks[n] < 200
    ensures |s.objects| == 200
    ensures multiset(Velocities(s.objects)) == multiset(Grid(-9, 20, DoubleMoleculesVelocity))
  {
    s, f := Launch(-9, 10, DoubleMoleculesVelocity, picks);
  }

  /** `HalfMolecules`: 5 rows (`i` from -4 to 0), 50 particles. */
  method HalfMolecules(picks: seq<nat>) returns (s: Session, f: Field)
    requires |picks| == 500 && forall n :: 0 <= n < |picks| ==> picks[n] < 50
    ensures |s.objects| == 50
    ensures multiset(Velocities(s.objects)) == multiset(Grid(-4, 5, HalfMoleculesVelocity))
    ensures forall k :: 0 <= k < |s.objects| ==> s.objects[k].v.x <= 0.0
  {
    s, f := Launch(-4, 0, HalfMoleculesVelocity, picks);
    RowsMoveLeft(s.objects, -4, 5);
  }

  /** `HalfSpeed`: 10 rows (`i` from -4 to 5), 100 particles. */
  method HalfSpeed(picks: seq<nat>) returns (s: Session, f: Field)
    requires |picks| == 1000 && forall n :: 0 <= n < |picks| ==> picks[n] < 100
    ensures |s.objects| == 100
    ensures multiset(Velocities(s.objects)) == multiset(Grid(-4, 10, HalfSpeedVelocity))
  {
    s, f := Launch(-4, 5, HalfSpeedVelocity, picks);
  }

  /** Every cell of a grid comes from one of its rows and columns. */
  lemma {:induction false} GridCell<T>(first: int, rows: nat, cell: (int, int) -> T, n: nat)
    requires n < |Grid(first, rows, cell)|
    ensures exists i, j :: first <= i < first + rows && FirstColumn <= j <= LastColumn && Grid(first, rows, cell)[n] == cell(i, j)
  {
    GridIndex(first, rows, cell, n);
    var i, j := first + n / Columns, FirstColumn + n % Columns;
    assert Grid(first, rows, cell)[n] == cell(i, j);
  }

  /** When every row index is at most zero, as in `HalfMolecules`, no
      particle starts out moving right, whatever the shuffle. */
  lemma RowsMoveLeft(bs: seq<Body>, first: int, rows: nat)
    requires first + rows <= 1
    requires multiset(Velocities(bs)) == multiset(Grid(first, rows, HalfMoleculesVelocity))
    ensures forall k :: 0 <= k < |bs| ==> bs[k].v.x <= 0.0
  {
    var g := Grid(first, rows, HalfMoleculesVelocity);
    forall k | 0 <= k < |bs|
      ensures bs[k].v.x <= 0.0
    {
      assert Velocities(bs)[k] in multiset(Velocities(bs));
      assert bs[k].v in multiset(g);
      var n :| 0 <= n < |g| && g[n] == bs[k].v;
      GridCell(first, rows, HalfMoleculesVelocity, n);
    }
  }
}
