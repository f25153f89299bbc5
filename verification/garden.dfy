/** The deterministic bookkeeping of the garden scene: the linear
    congruential generator behind `seededRandom`, the grass blades it scatters,
    the row-major plant grid of each bed and the square-ish layout of a plant
    box. Positions, rotations and heights are floating-point geometry and are
    represented here by the generator states they are drawn from. */
module Garden {
  import opened Arith

  const Modulus: nat := 233280
  const Multiplier: nat := 9301
  const Increment: nat := 49297

  /** `seed = (seed * 9301 + 49297) % 233280`. The products stay far below
      2^53, so the floating-point arithmetic is exact. */
  function NextSeed(seed: nat): (s: nat)
    ensures s < Modulus
  {
    (seed * Multiplier + Increment) % Modulus
  }

  /** The number `seededRandom` returns once it has moved to `seed`. */
  function Fraction(seed: nat): real {
    seed as real / Modulus as real
  }

  /** Every draw lies in [0, 1), whatever non-negative seed the generator
      starts from. */
  lemma DrawInUnitInterval(seed: nat)
    ensures 0.0 <= Fraction(NextSeed(seed)) < 1.0
  {
    var s := NextSeed(seed);
    assert (s as real) < Modulus as real;
  }

  /** The generator state after `n` draws from `seed`. */
  function SeedAfter(seed: nat, n: nat): (s: nat)
    ensures n > 0 ==> s < Modulus
  {
    if n == 0 then seed else NextSeed(SeedAfter(seed, n - 1))
  }

  /** Drawing `m` and then `n` numbers is drawing `m + n`: the sequence depends
      on nothing but the initial seed. */
  lemma {:induction false} SeedAfterAdd(seed: nat, m: nat, n: nat)
    ensures SeedAfter(SeedAfter(seed, m), n) == SeedAfter(seed, m + n)
    decreases n
  {
    if n > 0 {
      SeedAfterAdd(seed, m, n - 1);
    }
  }

  /** The three draws a grid plant makes after the first `3k`. */
  lemma SeedAfterThree(seed: nat, k: nat)
    ensures SeedAfter(seed, 3 * k + 1) == NextSeed(SeedAfter(seed, 3 * k))
    ensures SeedAfter(seed, 3 * k + 2) == NextSeed(SeedAfter(seed, 3 * k + 1))
    ensures SeedAfter(seed, 3 * k + 3) == NextSeed(SeedAfter(seed, 3 * k + 2))
    ensures 3 * (k + 1) == 3 * k + 3
  {
  }

  // ---------------------------------------------------------------- grass

  const GrassCount: nat := 2000
  const GrassSeed: nat := 12345
  const GrassColours: nat := 6

  /** `seededRandom() > 0.9` and `seededRandom() > 0.6` in units of 1/233280:
      0.9 * 233280 = 209952 and 0.6 * 233280 = 139968 are whole numbers, so a
      draw exceeds the threshold exactly when its state exceeds these. */
  const NearPathThreshold: nat := 209952
  const FarThreshold: nat := 139968

  /** The generator states a placed blade was drawn from: position, height,
      tilt and turn. */
  datatype Blade = Blade(xSeed: nat, zSeed: nat, heightSeed: nat, rotYSeed: nat, rotZSeed: nat)

  /** `Math.floor(seededRandom() * 6)`. */
  function ColourIndex(seed: nat): (c: nat)
    requires seed < Modulus
    ensures c < GrassColours
  {
    seed * GrassColours / Modulus
  }

  /** The generator and the two lists `Grassland` builds. */
  datatype GrassState = GrassState(seed: nat, blades: seq<Blade>, colours: seq<nat>)

  /** One iteration of the scattering loop. `valid` is the position test and
      `nearPath` says whether the position is within 2 of a path; both judge the
      position drawn from the two given states. A rejected position consumes two
      draws, a blade lost to the density test three, a placed blade seven. */
  function GrassStep(st: GrassState, valid: (nat, nat) -> bool, nearPath: (nat, nat) -> bool): (st': GrassState)
  {
    var x := NextSeed(st.seed);
    var z := NextSeed(x);
    if !valid(x, z) then st.(seed := z)
    else
      var d := NextSeed(z);
      if d > (if nearPath(x, z) then NearPathThreshold else FarThreshold) then st.(seed := d)
      else
        var h := NextSeed(d);
        var ry := NextSeed(h);
        var rz := NextSeed(ry);
        var c := NextSeed(rz);
        GrassState(c, st.blades + [Blade(x, z, h, ry, rz)], st.colours + [ColourIndex(c)])
  }

  /** The state after `n` iterations from the fixed seed. */
  function GrassAfter(n: nat, valid: (nat, nat) -> bool, nearPath: (nat, nat) -> bool): GrassState {
    if n == 0 then GrassState(GrassSeed, [], [])
    else GrassStep(GrassAfter(n - 1, valid, nearPath), valid, nearPath)
  }

  /** Blades and colours are pushed together, one pair per iteration at most,
      and every colour names one of the six greens. */
  predicate WellFormed(st: GrassState, n: nat) {
    && |st.blades| == |st.colours| <= n
    && (forall k :: 0 <= k < |st.colours| ==> st.colours[k] < GrassColours)
  }

  lemma GrassStepWellFormed(st: GrassState, n: nat, valid: (nat, nat) -> bool, nearPath: (nat, nat) -> bool)
    requires WellFormed(st, n)
    ensures WellFormed(GrassStep(st, valid, nearPath), n + 1)
    ensures GrassStep(st, valid, nearPath).blades[..|st.blades|] == st.blades
  {
  }

  /** After any number of iterations the two lists have equal length, at most
      the number of iterations, and earlier blades are never changed. */
  lemma {:induction false} GrassAfterWellFormed(n: nat, valid: (nat, nat) -> bool, nearPath: (nat, nat) -> bool)
    ensures WellFormed(GrassAfter(n, valid, nearPath), n)
    decreases n
  {
    if n > 0 {
      GrassAfterWellFormed(n - 1, valid, nearPath);
      GrassStepWellFormed(GrassAfter(n - 1, valid, nearPath), n - 1, valid, nearPath);
    }
  }

  /** The memoised computation in `Grassland`: 2000 iterations from seed 12345,
      skipping invalid positions and thinned-out blades. */
  method Grassland(valid: (nat, nat) -> bool, nearPath: (nat, nat) -> bool)
    returns (matrices: seq<Blade>, colours: seq<nat>)
    ensures matrices == GrassAfter(GrassCount, valid, nearPath).blades
    ensures colours == GrassAfter(GrassCount, valid, nearPath).colours
    ensures |matrices| == |colours| <= GrassCount
    ensures forall k :: 0 <= k < |colours| ==> colours[k] < GrassColours
  {
    var seed: nat := GrassSeed;
    matrices, colours := [], [];
    for i := 0 to GrassCount
      invariant GrassState(seed, matrices, colours) == GrassAfter(i, valid, nearPath)
    {
      seed := NextSeed(seed);
      var x := seed;
      seed := NextSeed(seed);
      var z := seed;
      if !valid(x, z) {
        continue;
      }
      var boost := if nearPath(x, z) then NearPathThreshold else FarThreshold;
      seed := NextSeed(seed);
      if seed > boost {
        continue;
      }
      seed := NextSeed(seed);
      var h := seed;
      seed := NextSeed(seed);
      var ry := seed;
      seed := NextSeed(seed);
      var rz := seed;
      matrices := matrices + [Blade(x, z, h, ry, rz)];
      seed := NextSeed(seed);
      colours := colours + [ColourIndex(seed)];
    }
    GrassAfterWellFormed(GrassCount, valid, nearPath);
  }

  // ---------------------------------------------------------------- plant grid

  /** A plant of a bed's grid: its cell and the generator states of its two
      position offsets and its rotation. */
  datatype Placement = Placement(row: nat, col: nat, offsetXSeed: nat, offsetZSeed: nat, rotationSeed: nat)

  /** `modelPath.length * 1000`. */
  function GridSeed(pathLength: nat): nat {
    pathLength * 1000
  }

  /** The plant at position `k` of a row-major grid with `cols` columns. */
  predicate PlacedAt(p: Placement, k: nat, cols: nat, seed: nat)
    requires cols > 0
  {
    && p.row == k / cols
    && p.col == k % cols
    && p.offsetXSeed == SeedAfter(seed, 3 * k + 1)
    && p.offsetZSeed == SeedAfter(seed, 3 * k + 2)
    && p.rotationSeed == SeedAfter(seed, 3 * k + 3)
  }

  /** The inner loop over the columns of one row. */
  method GridRow(row: nat, cols: nat, seed: nat, state: nat, grid: seq<Placement>)
    returns (state': nat, grid': seq<Placement>)
    requires cols > 0
    requires |grid| == row * cols && state == SeedAfter(seed, 3 * |grid|)
    requires forall k :: 0 <= k < |grid| ==> PlacedAt(grid[k], k, cols, seed)
    ensures |grid'| == (row + 1) * cols && state' == SeedAfter(seed, 3 * |grid'|)
    ensures forall k :: 0 <= k < |grid'| ==> PlacedAt(grid'[k], k, cols, seed)
  {
    state', grid' := state, grid;
    for col := 0 to cols
      invariant |grid'| == row * cols + col && state' == SeedAfter(seed, 3 * |grid'|)
      invariant forall k :: 0 <= k < |grid'| ==> PlacedAt(grid'[k], k, cols, seed)
    {
      var ox := NextSeed(state');
      var oz := NextSeed(ox);
      var rot := NextSeed(oz);
      SeedAfterThree(seed, |grid'|);
      DivModUnique(row * cols + col, cols, row, col);
      grid' := grid' + [Placement(row, col, ox, oz, rot)];
      state' := rot;
    }
    MulSucc(row, cols);
  }

  /** `PlantGrid`: `rows * cols` plants in row-major order, plant `k` in cell
      (k / cols, k % cols) and drawing the generator's states 3k+1 .. 3k+3. */
  method PlantGrid(pathLength: nat, rows: nat, cols: nat) returns (grid: seq<Placement>)
    ensures |grid| == rows * cols
    ensures cols > 0 ==> forall k :: 0 <= k < |grid| ==> PlacedAt(grid[k], k, cols, GridSeed(pathLength))
  {
    grid := [];
    if cols == 0 {
      assert rows * cols == 0;
      return;
    }
    var seed := GridSeed(pathLength);
    var state := seed;
    for row := 0 to rows
      invariant |grid| == row * cols && state == SeedAfter(seed, 3 * |grid|)
      invariant forall k :: 0 <= k < |grid| ==> PlacedAt(grid[k], k, cols, seed)
    {
      state, grid := GridRow(row, cols, seed, state, grid);
    }
  }

  // ---------------------------------------------------------------- plant box

  /** `Math.ceil(Math.sqrt(n))`: the least `r` with `r * r >= n`. */
  function CeilSqrt(n: nat): (r: nat)
    ensures r * r >= n
    ensures r == 0 || (r - 1) * (r - 1) < n
  {
    CeilSqrtFrom(n, 0)
  }

  function CeilSqrtFrom(n: nat, r: nat): (s: nat)
    requires r == 0 || (r - 1) * (r - 1) < n
    ensures s * s >= n
    ensures s == 0 || (s - 1) * (s - 1) < n
    decreases n - r
  {
    if r * r >= n then r
    else
      assert r < n by {
        if r >= n {
          MulLe(1, r, r);
        }
      }
      CeilSqrtFrom(n, r + 1)
  }

  /** The rows and columns of a box of `n` plants: `ceil(sqrt(n))` rows and
      `ceil(n / rows)` columns. With no plants the loop never runs, and the
      column count (`0 / 0` in the source) does not matter. */
  function BoxRows(n: nat): nat {
    CeilSqrt(n)
  }

  function BoxCols(n: nat): nat {
    var rows := BoxRows(n);
    if rows == 0 then 0 else (n + rows - 1) / rows
  }

  /** The grid holds every plant: `rows * cols >= n`. */
  lemma BoxGridLargeEnough(n: nat)
    ensures BoxRows(n) * BoxCols(n) >= n
    ensures n > 0 ==> BoxRows(n) > 0 && BoxCols(n) > 0
  {
    var rows := BoxRows(n);
    if rows > 0 {
      var cols := BoxCols(n);
      var rem := (n + rows - 1) % rows;
      assert n + rows - 1 == cols * rows + rem;
    }
  }

  /** Plant `i` of a box of `n` sits in row `i / cols` and column `i % cols`,
      both inside the grid. */
  lemma BoxCellInside(n: nat, i: nat)
    requires i < n
    ensures BoxCols(n) > 0
    ensures i / BoxCols(n) < BoxRows(n) && i % BoxCols(n) < BoxCols(n)
  {
    BoxGridLargeEnough(n);
    var rows, cols := BoxRows(n), BoxCols(n);
    var q := i / cols;
    assert q * cols <= i by {
      assert i == q * cols + i % cols;
    }
    MulLtCancel(q, rows, cols);
  }

  /** Different plants of a box get different cells. */
  lemma BoxCellsDistinct(n: nat, i: nat, j: nat)
    requires i < n && j < n && i != j
    ensures BoxCols(n) > 0
    ensures (i / BoxCols(n), i % BoxCols(n)) != (j / BoxCols(n), j % BoxCols(n))
  {
    BoxGridLargeEnough(n);
    var cols := BoxCols(n);
    assert i == (i / cols) * cols + i % cols;
    assert j == (j / cols) * cols + j % cols;
  }

  /** The cells the box loop computes, one per plant: the stems and the tops
      share them, so both instance lists have `n` entries. */
  method PlantBox(n: nat) returns (cells: seq<(nat, nat)>)
    ensures |cells| == n
    ensures forall i :: 0 <= i < n ==> cells[i] == (i / BoxCols(n), i % BoxCols(n))
    ensures forall i :: 0 <= i < n ==> cells[i].0 < BoxRows(n) && cells[i].1 < BoxCols(n)
    ensures forall i, j :: 0 <= i < j < n ==> cells[i] != cells[j]
  {
    var cols := BoxCols(n);
    cells := [];
    for i := 0 to n
      invariant |cells| == i
      invariant forall j :: 0 <= j < i ==> cells[j] == (j / cols, j % cols)
      invariant forall j :: 0 <= j < i ==> cells[j].0 < BoxRows(n) && cells[j].1 < cols
    {
      BoxCellInside(n, i);
      cells := cells + [(i / cols, i % cols)];
    }
    forall i, j | 0 <= i < j < n
      ensures cells[i] != cells[j]
    {
      BoxCellsDistinct(n, i, j);
    }
  }

  /** `plantType % 6` with JavaScript's truncating remainder: a colour for
      every non-negative plant type, and for a negative one a slot in
      (−6, 0], which names a colour only when it is 0. */
  function ColourSlot(plantType: int): (slot: int)
    ensures plantType >= 0 ==> 0 <= slot < 6
    ensures plantType < 0 ==> -6 < slot <= 0
    ensures (slot - plantType) % 6 == 0
  {
    if plantType >= 0 then plantType % 6 else -((-plantType) % 6)
  }
}
