/** The host-side particle scene of examples/diffmpm.py: a `Scene` collects
    particle positions and actuator ids, rectangle by rectangle, before the
    simulation's fields are filled from it. Positions are exact reals; the
    float rounding of the original is not modelled. */
module DiffMpmScene {
  import opened Arith
  import opened Layout

  /** `n_grid`: grid cells per unit length. */
  const GridCells: nat := 128

  /** `dx = 1 / n_grid`, the grid spacing. */
  const Dx: real := 1.0 / 128.0

  /** The global `n_particles` before any scene is finalized. */
  const InitialParticles: int := 8192

  /** A particle position `[x, y]`. */
  datatype Pos = Pos(x: real, y: real)

  // ---------------------------------------------------------------------
  // How many particles a rectangle side gets.

  /** Python's `int()` of a number: truncation toward zero. */
  function Trunc(r: real): (n: int)
    ensures 0.0 <= r ==> 0 <= n && n as real <= r < n as real + 1.0
    ensures r < 0.0 ==> n <= 0 && n as real - 1.0 < r <= n as real
  {
    if 0.0 <= r then r.Floor else -((-r).Floor)
  }

  /** Truncation is symmetric about zero, unlike the floor. */
  lemma TruncNegate(r: real)
    ensures Trunc(-r) == -Trunc(r)
  {
    if r < 0.0 {
      assert Trunc(-r) == (-r).Floor;
    } else if 0.0 < r {
      assert Trunc(-r) == -((r).Floor);
    }
  }

  /** Only numbers strictly between -1 and 1 truncate to 0. */
  lemma TruncZero(r: real)
    ensures Trunc(r) == 0 <==> -1.0 < r < 1.0
  {
  }

  /** `w_count = int(w / dx)`: the particle columns of a rectangle `w`
      wide, one per whole grid cell, counted toward zero. */
  function CellCount(size: real): int {
    Trunc(size / Dx)
  }

  /** A side gets no particles, and `add_rect` then divides by zero, exactly
      when it is shorter than one grid cell. */
  lemma CellCountZero(size: real)
    ensures CellCount(size) == 0 <==> -Dx < size < Dx
  {
    TruncZero(size / Dx);
    assert size / Dx == size * 128.0;
  }

  /** A side gets a positive count exactly when it is at least one grid
      cell long. */
  lemma CellCountPositive(size: real)
    ensures 0 < CellCount(size) <==> Dx <= size
  {
    assert size / Dx == size * 128.0;
  }

  /** The number of iterations of `range(count)`: none for a count below 1. */
  function Steps(count: int): (n: nat)
    ensures count <= 0 ==> n == 0
    ensures 0 <= count ==> n == count
  {
    if 0 < count then count else 0
  }

  /** Neither side count is zero, so `w / w_count` and `h / h_count` are
      defined. */
  predicate RectDefined(w: real, h: real) {
    CellCount(w) != 0 && CellCount(h) != 0
  }

  /** `add_rect` is defined exactly for rectangles at least one grid cell
      long in either direction on both sides. */
  lemma RectDefinedIff(w: real, h: real)
    ensures RectDefined(w, h) <==> (w <= -Dx || Dx <= w) && (h <= -Dx || Dx <= h)
  {
    CellCountZero(w);
    CellCountZero(h);
  }

  /** `real_dx = w / w_count`: the spacing of the particle columns. */
  function Pitch(size: real): real
    requires CellCount(size) != 0
  {
    size / CellCount(size) as real
  }

  // ---------------------------------------------------------------------
  // The particles of a rectangle.

  /** The middle of slot `i` of width `pitch` from `start`. */
  function Slot(start: real, pitch: real, i: nat): real {
    start + (i as real + 0.5) * pitch
  }

  /** The coordinate of slot `i` along a side of length `size` starting at
      `start`, with `real_dx` as the slot width. */
  function Coord(start: real, size: real, i: nat): real
    requires CellCount(size) != 0
  {
    Slot(start, Pitch(size), i)
  }

  /** The particle of column `i` and row `j`. */
  function Particle(x0: real, y0: real, w: real, h: real, i: nat, j: nat): Pos
    requires RectDefined(w, h)
  {
    Pos(Coord(x0, w, i), Coord(y0, h, j))
  }

  /** Column `i` of the rectangle, bottom to top. */
  function RectColumn(x0: real, y0: real, w: real, h: real, i: nat): (col: seq<Pos>)
    requires RectDefined(w, h)
    ensures |col| == Steps(CellCount(h))
    ensures forall j :: 0 <= j < |col| ==> col[j] == Particle(x0, y0, w, h, i, j)
  {
    seq(Steps(CellCount(h)), j requires 0 <= j => Particle(x0, y0, w, h, i, j))
  }

  /** All columns of the rectangle, left to right. */
  function RectColumns(x0: real, y0: real, w: real, h: real): (cols: seq<seq<Pos>>)
    requires RectDefined(w, h)
    ensures Uniform(cols, Steps(CellCount(w)), Steps(CellCount(h)))
    ensures forall i :: 0 <= i < |cols| ==> cols[i] == RectColumn(x0, y0, w, h, i)
  {
    seq(Steps(CellCount(w)), i requires 0 <= i => RectColumn(x0, y0, w, h, i))
  }

  /** The positions `add_rect(x0, y0, w, h, _)` appends, in the order of its
      loops: `i` outer, `j` inner. */
  function RectParticles(x0: real, y0: real, w: real, h: real): seq<Pos>
    requires RectDefined(w, h)
  {
    Concat(RectColumns(x0, y0, w, h))
  }

  /** A rectangle gets one particle per column and row: `w_count * h_count`
      when both counts are positive, none when either is negative. */
  lemma RectParticlesCount(x0: real, y0: real, w: real, h: real)
    requires RectDefined(w, h)
    ensures |RectParticles(x0, y0, w, h)| == Steps(CellCount(w)) * Steps(CellCount(h))
    ensures 0 < CellCount(w) && 0 < CellCount(h) ==>
              |RectParticles(x0, y0, w, h)| == CellCount(w) * CellCount(h)
    ensures CellCount(w) < 0 || CellCount(h) < 0 ==> |RectParticles(x0, y0, w, h)| == 0
  {
    ConcatLength(RectColumns(x0, y0, w, h), Steps(CellCount(w)), Steps(CellCount(h)));
  }

  /** The particle at offset `i * h_count + j` of the rectangle is the one
      of column `i` and row `j`. */
  lemma RectParticlesAt(x0: real, y0: real, w: real, h: real, i: nat, j: nat)
    requires RectDefined(w, h) && i < Steps(CellCount(w)) && j < Steps(CellCount(h))
    ensures i * Steps(CellCount(h)) + j < |RectParticles(x0, y0, w, h)|
    ensures RectParticles(x0, y0, w, h)[i * Steps(CellCount(h)) + j] == Particle(x0, y0, w, h, i, j)
  {
    ConcatAt(RectColumns(x0, y0, w, h), Steps(CellCount(w)), Steps(CellCount(h)), i, j);
  }

  /** Every offset into the rectangle's particles is `i * h_count + j` for a
      column `i` and a row `j`. */
  lemma RectOffset(x0: real, y0: real, w: real, h: real, n: nat) returns (i: nat, j: nat)
    requires RectDefined(w, h) && n < |RectParticles(x0, y0, w, h)|
    ensures i < Steps(CellCount(w)) && j < Steps(CellCount(h))
    ensures n == i * Steps(CellCount(h)) + j
    ensures RectParticles(x0, y0, w, h)[n] == Particle(x0, y0, w, h, i, j)
  {
    var cols, rows := Steps(CellCount(w)), Steps(CellCount(h));
    RectParticlesCount(x0, y0, w, h);
    if rows == 0 {
      assert false;
    }
    DivMod(n, rows);
    i, j := n / rows, n % rows;
    if cols <= i {
      MulMonoLeft(cols, i, rows);
      assert false;
    }
    RectParticlesAt(x0, y0, w, h, i, j);
  }

  /** A product of positive reals is positive. */
  lemma RealMulPositive(a: real, b: real)
    requires 0.0 < a && 0.0 < b
    ensures 0.0 < a * b
  {
  }

  /** Multiplying by a positive real keeps a strict order. */
  lemma RealMulStrict(a: real, b: real, p: real)
    requires a < b && 0.0 < p
    ensures a * p < b * p
  {
    RealMulPositive(b - a, p);
    assert b * p - a * p == (b - a) * p;
  }

  /** A non-zero real factor can be cancelled. */
  lemma RealMulCancel(a: real, b: real, p: real)
    requires p != 0.0 && a * p == b * p
    ensures a == b
  {
    assert (a - b) * p == 0.0;
  }

  /** Each of the `CellCount(size)` slots of a side lies strictly inside
      the side. */
  lemma SlotInside(start: real, size: real, i: nat)
    requires 0 < CellCount(size) && i < CellCount(size)
    ensures start < Coord(start, size, i) < start + size
  {
    var n := CellCount(size) as real;
    var p := Pitch(size);
    CellCountPositive(size);
    assert 0.0 < p;
    assert n * p == size;
    RealMulPositive(i as real + 0.5, p);
    RealMulStrict(i as real + 0.5, n, p);
  }

  /** `(x, y)` lies strictly inside the open rectangle from `(x0, y0)` of
      size `w x h`. */
  predicate Inside(p: Pos, x0: real, y0: real, w: real, h: real) {
    x0 < p.x < x0 + w && y0 < p.y < y0 + h
  }

  /** Every particle of a rectangle lies strictly inside it. */
  lemma RectParticlesInside(x0: real, y0: real, w: real, h: real)
    requires RectDefined(w, h)
    ensures forall n :: 0 <= n < |RectParticles(x0, y0, w, h)| ==>
              Inside(RectParticles(x0, y0, w, h)[n], x0, y0, w, h)
  {
    forall n | 0 <= n < |RectParticles(x0, y0, w, h)|
      ensures Inside(RectParticles(x0, y0, w, h)[n], x0, y0, w, h)
    {
      var i, j := RectOffset(x0, y0, w, h, n);
      SlotInside(x0, w, i);
      SlotInside(y0, h, j);
    }
  }

  /** Slots of one side at different indices hold different coordinates. */
  lemma SlotInjective(start: real, size: real, i: nat, i': nat)
    requires CellCount(size) != 0 && Coord(start, size, i) == Coord(start, size, i')
    ensures i == i'
  {
    CellCountZero(size);
    assert Pitch(size) != 0.0;
    RealMulCancel(i as real + 0.5, i' as real + 0.5, Pitch(size));
  }

  /** No two particles of a rectangle share a position. */
  lemma RectParticlesDistinct(x0: real, y0: real, w: real, h: real, n: nat, m: nat)
    requires RectDefined(w, h) && n < |RectParticles(x0, y0, w, h)| && m < |RectParticles(x0, y0, w, h)|
    requires RectParticles(x0, y0, w, h)[n] == RectParticles(x0, y0, w, h)[m]
    ensures n == m
  {
    var i, j := RectOffset(x0, y0, w, h, n);
    var i', j' := RectOffset(x0, y0, w, h, m);
    SlotInjective(x0, w, i, i');
    SlotInjective(y0, h, j, j');
  }

  // ---------------------------------------------------------------------
  // The scene and the simulation's globals.

  /** Appending is associative. */
  lemma AppendAssoc<T>(a: seq<T>, b: seq<T>, c: seq<T>)
    ensures (a + b) + c == a + (b + c)
  {
  }

  /** `n` copies of `v`, the ids appended for `n` particles. */
  function Repeat<T>(v: T, n: nat): (r: seq<T>)
    ensures |r| == n && forall q :: 0 <= q < n ==> r[q] == v
    decreases n
  {
    if n == 0 then [] else Repeat(v, n - 1) + [v]
  }

  /** Copies for `a` particles and then for `b` more are copies for
      `a + b`. */
  lemma {:induction false} RepeatAdd<T>(v: T, a: nat, b: nat)
    ensures Repeat(v, a) + Repeat(v, b) == Repeat(v, a + b)
    decreases b
  {
    if b > 0 {
      RepeatAdd(v, a, b - 1);
      assert Repeat(v, a) + Repeat(v, b) == Repeat(v, a) + Repeat(v, b - 1) + [v];
    } else {
      assert Repeat(v, a) + Repeat(v, b) == Repeat(v, a);
    }
  }

  /** The module-level globals the scene publishes to. */
  class Simulation {
    var nParticles: int

    /** The globals as the module sets them up. */
    constructor ()
      ensures nParticles == InitialParticles
    {
      nParticles := InitialParticles;
    }
  }

  class Scene {
    var nParticles: int
    var x: seq<Pos>
    var actuatorId: seq<int>

    /** The two lists run in parallel and the counter is their length. */
    ghost predicate Valid()
      reads this
    {
      |x| == nParticles && |actuatorId| == nParticles
    }

    /** `Scene()`: no particles yet. */
    constructor ()
      ensures Valid()
      ensures nParticles == 0 && x == [] && actuatorId == []
    {
      nParticles, x, actuatorId := 0, [], [];
    }

    /** `add_rect(x, y, w, h, actuation)`: append the particles of the
        rectangle and as many copies of `actuation`. With a side shorter
        than one grid cell the division by `w_count` or `h_count` fails
        before anything is appended: `ok` is false and nothing changes. */
    method AddRect(x0: real, y0: real, w: real, h: real, actuation: int) returns (ok: bool)
      requires Valid()
      modifies this
      ensures Valid()
      ensures ok <==> RectDefined(w, h)
      ensures ok ==> x == old(x) + RectParticles(x0, y0, w, h)
      ensures ok ==> nParticles == old(nParticles) + Steps(CellCount(w)) * Steps(CellCount(h))
      ensures ok ==> actuatorId == old(actuatorId) + Repeat(actuation, |x| - |old(x)|)
      ensures !ok ==> x == old(x) && actuatorId == old(actuatorId) && nParticles == old(nParticles)
    {
      var wCount := Trunc(w / Dx);
      var hCount := Trunc(h / Dx);
      if wCount == 0 || hCount == 0 {
        return false;
      }
      var realDx := w / wCount as real;
      var realDy := h / hCount as real;
      assert realDx == Pitch(w) && realDy == Pitch(h);
      ghost var cols := RectColumns(x0, y0, w, h);
      ghost var x0s, ids0 := x, actuatorId;
      ghost var added: seq<Pos> := [];
      var i := 0;
      while i < wCount
        invariant 0 <= i <= Steps(wCount)
        invariant Valid()
        invariant added == Concat(cols[..i])
        invariant x == x0s + added
        invariant actuatorId == ids0 + Repeat(actuation, |added|)
      {
        ghost var col := RectColumn(x0, y0, w, h, i);
        assert col == cols[i];
        AddColumn(x0, y0, realDx, realDy, i, hCount, actuation, col);
        AppendAssoc(x0s, added, col);
        AppendAssoc(ids0, Repeat(actuation, |added|), Repeat(actuation, |col|));
        RepeatAdd(actuation, |added|, |col|);
        assert cols[..i + 1] == cols[..i] + [col];
        ConcatAppend(cols[..i], col);
        added := added + col;
        i := i + 1;
      }
      assert cols[..i] == cols;
      RectParticlesCount(x0, y0, w, h);
      ok := true;
    }

    /** The inner loop of `add_rect` for column `i`: append the particles
        `[x + (i + 0.5) * real_dx, y + (j + 0.5) * real_dy]` for `j` in
        `range(h_count)`, here given as `col`, each with the id
        `actuation`. */
    method AddColumn(x0: real, y0: real, realDx: real, realDy: real, i: nat, hCount: int,
                     actuation: int, ghost col: seq<Pos>)
      requires Valid()
      requires |col| == Steps(hCount)
      requires forall j :: 0 <= j < |col| ==> col[j] == Pos(Slot(x0, realDx, i), Slot(y0, realDy, j))
      modifies this
      ensures Valid()
      ensures x == old(x) + col
      ensures actuatorId == old(actuatorId) + Repeat(actuation, |col|)
    {
      var j := 0;
      while j < hCount
        invariant 0 <= j <= |col|
        invariant Valid()
        invariant x == old(x) + col[..j]
        invariant actuatorId == old(actuatorId) + Repeat(actuation, j)
      {
        var p := Pos(Slot(x0, realDx, i), Slot(y0, realDy, j));
        assert col[..j + 1] == col[..j] + [p];
        x := x + [p];
        actuatorId := actuatorId + [actuation];
        nParticles := nParticles + 1;
        j := j + 1;
      }
      assert col[..j] == col;
    }

    /** `finalize()`: publish the particle count to the global
        `n_particles`; the scene itself stays as it is. */
    method Finalize(sim: Simulation)
      modifies sim
      ensures sim.nParticles == nParticles
    {
      sim.nParticles := nParticles;
    }
  }

  /** `int(0.2 / dx)` is 25 and `int(0.5 / dx)` is 64. */
  lemma MainSceneCounts()
    ensures CellCount(0.2) == 25 && CellCount(0.5) == 64
  {
    assert 0.2 / Dx == 25.6;
    assert 0.5 / Dx == 64.0;
  }

  /** The scene `main` builds before the optimisation: a `0.2 x 0.2` block
      at `(0.1, 0.1)` and a `0.5 x 0.2` block at `(0.1, 0.3)`, neither
      actuated. It holds `25 * 25 + 64 * 25` particles. */
  method MainScene(sim: Simulation) returns (scene: Scene)
    modifies sim
    ensures scene.Valid() && scene.nParticles == 2225 && sim.nParticles == 2225
  {
    MainSceneCounts();
    scene := new Scene();
    var ok := scene.AddRect(0.1, 0.1, 0.2, 0.2, -1);
    assert scene.nParticles == 625;
    ok := scene.AddRect(0.1, 0.3, 0.5, 0.2, -1);
    assert scene.nParticles == 625 + 1600;
    scene.Finalize(sim);
  }
}
