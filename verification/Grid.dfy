// The index maps of a corner-point grid: cells, active cells, cell corners in
// ZCORN and pillars in COORD.

module Grid {
  import opened Text
  import opened Arith

  // ------------------------------------------------------------------
  // Cells

  datatype Cell = Cell(i: int, j: int, k: int)

  predicate InGrid(nx: int, ny: int, nz: int, c: Cell) {
    0 <= c.i < nx && 0 <= c.j < ny && 0 <= c.k < nz
  }

  /** The number of a cell, i running fastest. */
  function Global(nx: int, ny: int, c: Cell): int {
    c.i + c.j * nx + c.k * nx * ny
  }

  /** The cell with a number. */
  function Ijk(nx: int, ny: int, g: int): Cell
    requires nx > 0 && ny > 0
  {
    AreaPositive(nx, ny);
    var rest := g % (nx * ny);
    Cell(rest % nx, rest / nx, g / (nx * ny))
  }

  lemma AreaPositive(nx: int, ny: int)
    requires nx > 0 && ny > 0
    ensures nx * ny > 0
  {}

  lemma {:induction false} ScaleUp(a: int, b: int, w: nat)
    requires a <= b
    ensures a * w <= b * w
  {}

  // Cells and numbers below nx * ny * nz are in one-to-one correspondence.
  lemma {:induction false} IjkOfGlobal(nx: nat, ny: nat, nz: nat, c: Cell)
    requires InGrid(nx, ny, nz, c)
    ensures 0 <= Global(nx, ny, c) < nx * ny * nz
    ensures Ijk(nx, ny, Global(nx, ny, c)) == c
  {
    var low, area := c.i + c.j * nx, nx * ny;
    AreaPositive(nx, ny);
    ScaleUp(0, c.j, nx);
    ScaleUp(c.j + 1, ny, nx);
    ScaleUp(0, c.k, area);
    ScaleUp(c.k + 1, nz, area);
    Regroup(nx, ny, c.k, nz);
    DivIs(low, nx, c.j, c.i);
    DivIs(Global(nx, ny, c), area, c.k, low);
  }

  lemma Regroup(nx: nat, ny: nat, k: int, nz: nat)
    ensures k * nx * ny == k * (nx * ny) == (nx * ny) * k
    ensures nx * ny * nz == nz * (nx * ny)
  {}

  lemma {:induction false} GlobalOfIjk(nx: nat, ny: nat, nz: nat, g: nat)
    requires nx > 0 && ny > 0 && g < nx * ny * nz
    ensures InGrid(nx, ny, nz, Ijk(nx, ny, g))
    ensures Global(nx, ny, Ijk(nx, ny, g)) == g
  {
    AreaPositive(nx, ny);
    var area := nx * ny;
    var rest := g % area;
    Regroup(nx, ny, g / area, nz);
    Below(g, area, nz);
    Below(rest, nx, ny);
    hide Ijk, Global;
    IjkParts(nx, ny, g);
    assert Global(nx, ny, Ijk(nx, ny, g)) == rest % nx + rest / nx * nx + g / area * area by {
      GlobalParts(nx, ny, Ijk(nx, ny, g));
      Regroup(nx, ny, g / area, nz);
    }
  }

  lemma IjkParts(nx: nat, ny: nat, g: nat)
    requires nx > 0 && ny > 0
    ensures nx * ny > 0
    ensures Ijk(nx, ny, g) == Cell(g % (nx * ny) % nx, g % (nx * ny) / nx, g / (nx * ny))
  {}

  lemma GlobalParts(nx: nat, ny: nat, c: Cell)
    ensures Global(nx, ny, c) == c.i + c.j * nx + c.k * nx * ny
  {}

  lemma {:induction false} Below(a: nat, w: nat, n: nat)
    requires w > 0 && a < w * n
    ensures a / w < n && a == a / w * w + a % w
  {
    if a / w >= n { ScaleUp(n, a / w, w); }
  }

  // ------------------------------------------------------------------
  // Cell corners: a corner is a point of the grid with every side doubled

  /** The place in ZCORN of corner c of a cell: bit 0 of c is the side in i, bit
      1 the side in j and bit 2 the side in k. */
  function CornerPoint(cell: Cell, c: nat): Cell {
    Cell(2 * cell.i + c % 2, 2 * cell.j + c / 2 % 2, 2 * cell.k + c / 4)
  }

  function ZcornIndex(nx: int, ny: int, cell: Cell, c: nat): int {
    Global(2 * nx, 2 * ny, CornerPoint(cell, c))
  }

  /** The place in COORD of the pillar through corner c. */
  function PillarIndex(nx: int, cell: Cell, c: nat): int {
    6 * (cell.i + c % 2 + (cell.j + c / 2 % 2) * (nx + 1))
  }

  function CornerOf(nx: int, ny: int, z: int): (Cell, nat)
    requires nx > 0 && ny > 0
  {
    var p := Ijk(2 * nx, 2 * ny, z);
    (Cell(p.i / 2, p.j / 2, p.k / 2), p.i % 2 + 2 * (p.j % 2) + 4 * (p.k % 2))
  }

  lemma DoubledVolume(nx: nat, ny: nat, nz: nat)
    ensures (2 * nx) * (2 * ny) * (2 * nz) == 8 * nx * ny * nz
  {}

  // Cell and corner to ZCORN is one-to-one, into 8 * nx * ny * nz places ...
  lemma {:induction false} CornerOfZcorn(nx: nat, ny: nat, nz: nat, cell: Cell, c: nat)
    requires InGrid(nx, ny, nz, cell) && c < 8
    ensures 0 <= ZcornIndex(nx, ny, cell, c) < 8 * nx * ny * nz
    ensures CornerOf(nx, ny, ZcornIndex(nx, ny, cell, c)) == (cell, c)
  {
    hide Global, Ijk;
    IjkOfGlobal(2 * nx, 2 * ny, 2 * nz, CornerPoint(cell, c));
    DoubledVolume(nx, ny, nz);
  }

  // ... and onto all of them.
  lemma {:induction false} ZcornOfCorner(nx: nat, ny: nat, nz: nat, z: nat)
    requires nx > 0 && ny > 0 && z < 8 * nx * ny * nz
    ensures var (cell, c) := CornerOf(nx, ny, z);
      InGrid(nx, ny, nz, cell) && c < 8 && ZcornIndex(nx, ny, cell, c) == z
  {
    DoubledVolume(nx, ny, nz);
    GlobalOfIjk(2 * nx, 2 * ny, 2 * nz, z);
    var (cell, c) := CornerOf(nx, ny, z);
    hide Global, Ijk;
    var p := Ijk(2 * nx, 2 * ny, z);
    assert CornerPoint(cell, c) == p by { Bits(p.i % 2, p.j % 2, p.k % 2); }
  }

  lemma Bits(a: nat, b: nat, d: nat)
    requires a < 2 && b < 2 && d < 2
    ensures (a + 2 * b + 4 * d) % 2 == a && (a + 2 * b + 4 * d) / 2 % 2 == b && (a + 2 * b + 4 * d) / 4 == d
  {}

  // A pillar has six numbers within COORD, and corners share a pillar exactly
  // if they are at the same point of the map.
  lemma {:induction false} PillarsFit(nx: nat, ny: nat, nz: nat, a: Cell, c: nat, b: Cell, d: nat)
    requires InGrid(nx, ny, nz, a) && InGrid(nx, ny, nz, b) && c < 8 && d < 8
    ensures 0 <= PillarIndex(nx, a, c) && PillarIndex(nx, a, c) + 5 < 6 * ((nx + 1) * (ny + 1))
    ensures PillarIndex(nx, a, c) == PillarIndex(nx, b, d) <==>
      a.i + c % 2 == b.i + d % 2 && a.j + c / 2 % 2 == b.j + d / 2 % 2
  {
    var p, q := Cell(a.i + c % 2, a.j + c / 2 % 2, 0), Cell(b.i + d % 2, b.j + d / 2 % 2, 0);
    IjkOfGlobal(nx + 1, ny + 1, 1, p);
    IjkOfGlobal(nx + 1, ny + 1, 1, q);
  }

  // ------------------------------------------------------------------
  // Active cells

  /** The tables of a grid with ACTNUM: active cells are numbered in the order
      of their cell numbers, and each table undoes the other. */
  ghost predicate Tables(actnum: seq<int>, act: seq<int>, glob: seq<int>) {
    && |act| == |actnum|
    && (forall i, j :: 0 <= i < j < |glob| ==> glob[i] < glob[j])
    && (forall n :: 0 <= n < |glob| ==> 0 <= glob[n] < |actnum| && actnum[glob[n]] > 0 && act[glob[n]] == n)
    && (forall g :: 0 <= g < |actnum| ==>
          if actnum[g] > 0 then 0 <= act[g] < |glob| && glob[act[g]] == g else act[g] == -1)
  }

  // They are determined by ACTNUM.
  lemma {:induction false} TablesUnique(actnum: seq<int>, a1: seq<int>, g1: seq<int>, a2: seq<int>, g2: seq<int>)
    requires Tables(actnum, a1, g1) && Tables(actnum, a2, g2)
    ensures a1 == a2 && g1 == g2
  {
    SameUpTo(actnum, a1, g1, a2, g2, |g1|);
    if |g1| < |g2| { SameUpTo(actnum, a2, g2, a1, g1, |g2|); }
    forall g | 0 <= g < |actnum| ensures a1[g] == a2[g] {}
  }

  lemma {:induction false} SameUpTo(actnum: seq<int>, a1: seq<int>, g1: seq<int>, a2: seq<int>, g2: seq<int>, n: nat)
    requires Tables(actnum, a1, g1) && Tables(actnum, a2, g2) && n <= |g1|
    ensures n <= |g2| && g1[..n] == g2[..n]
  {
    if n > 0 {
      SameUpTo(actnum, a1, g1, a2, g2, n - 1);
      var g := g1[n - 1];
      var m := a2[g];
      assert g2[m] == g;
      assert g1[..n] == g1[..n - 1] + [g] && g2[..n] == g2[..n - 1] + [g];
    }
  }

  lemma TablesLength(actnum: seq<int>, act: seq<int>, glob: seq<int>)
    requires Tables(actnum, act, glob)
    ensures |act| == |actnum|
  {}

  lemma NoTables()
    ensures Tables([], [], [])
  {}

  lemma {:induction false} MoreTables(actnum: seq<int>, i: nat, act: seq<int>, glob: seq<int>)
    requires i < |actnum| && Tables(actnum[..i], act, glob)
    ensures actnum[i] > 0 ==> Tables(actnum[..i + 1], act + [|glob|], glob + [i])
    ensures actnum[i] <= 0 ==> Tables(actnum[..i + 1], act + [-1], glob)
  {
    assert actnum[..i + 1] == actnum[..i] + [actnum[i]];
  }

  class EGrid {
    const nx: nat
    const ny: nat
    const nz: nat
    ghost const actnum: Option<seq<int>>
    var actIndex: seq<int>
    var globIndex: seq<int>
    var nactive: int

    ghost predicate Valid()
      reads this
    {
      && |actIndex| == nx * ny * nz
      && match actnum
         case Some(a) => Tables(a, actIndex, globIndex) && nactive == |globIndex|
         case None => (|globIndex| == |actIndex| && forall g :: 0 <= g < |actIndex| ==> actIndex[g] == globIndex[g] == g)
    }

    /** The end of the constructor. The number of active cells is left as it was
        when there is no ACTNUM. */
    constructor (nx: nat, ny: nat, nz: nat, actnum: Option<seq<int>>, unset: int)
      requires actnum.Some? ==> |actnum.value| == nx * ny * nz
      ensures Valid() && this.nx == nx && this.ny == ny && this.nz == nz && this.actnum == actnum
      ensures actnum.None? ==> nactive == unset
    {
      this.nx, this.ny, this.nz, this.actnum := nx, ny, nz, actnum;
      actIndex, globIndex, nactive := [], [], unset;
      new;
      hide Tables;
      assert Tables([], [], []) by { NoTables(); }
      if actnum.Some? {
        nactive := 0;
        for i := 0 to |actnum.value|
          invariant nactive == |globIndex|
          invariant Tables(actnum.value[..i], actIndex, globIndex)
        {
          MoreTables(actnum.value, i, actIndex, globIndex);
          if actnum.value[i] > 0 {
            actIndex := actIndex + [nactive];
            globIndex := globIndex + [i];
            nactive := nactive + 1;
          } else {
            actIndex := actIndex + [-1];
          }
        }
        assert actnum.value[..|actnum.value|] == actnum.value;
        TablesLength(actnum.value, actIndex, globIndex);
      } else {
        ScaleUp(0, nx, ny);
        ScaleUp(0, nx * ny, nz);
        actIndex := seq(nx * ny * nz, n => n);
        globIndex := seq(nx * ny * nz, n => n);
      }
    }

    method GlobalIndex(i: int, j: int, k: int) returns (r: Result<int>)
      ensures r.Ok? <==> InGrid(nx, ny, nz, Cell(i, j, k))
      ensures r.Ok? ==> 0 <= r.value < nx * ny * nz && Ijk(nx, ny, r.value) == Cell(i, j, k)
    {
      if i < 0 || i >= nx || j < 0 || j >= ny || k < 0 || k >= nz {
        return Err(BadIndex);
      }
      IjkOfGlobal(nx, ny, nz, Cell(i, j, k));
      r := Ok(i + j * nx + k * nx * ny);
    }

    method IjkFromGlobalIndex(globInd: int) returns (r: Result<Cell>)
      requires nx > 0 && ny > 0
      ensures r.Ok? <==> 0 <= globInd < nx * ny * nz
      ensures r.Ok? ==> InGrid(nx, ny, nz, r.value) && Global(nx, ny, r.value) == globInd
    {
      if globInd < 0 || globInd >= nx * ny * nz {
        return Err(BadIndex);
      }
      GlobalOfIjk(nx, ny, nz, globInd);
      AreaPositive(nx, ny);
      var k := globInd / (nx * ny);
      var rest := globInd % (nx * ny);
      r := Ok(Cell(rest % nx, rest / nx, k));
    }

    method ActiveIndex(i: int, j: int, k: int) returns (r: Result<int>)
      requires Valid()
      ensures r.Ok? <==> InGrid(nx, ny, nz, Cell(i, j, k))
      ensures r.Ok? && actnum.Some? ==>
        (0 <= Global(nx, ny, Cell(i, j, k)) < |actnum.value|
         && (r.value == -1 <==> actnum.value[Global(nx, ny, Cell(i, j, k))] <= 0)
         && (r.value != -1 ==> 0 <= r.value < nactive && globIndex[r.value] == Global(nx, ny, Cell(i, j, k))))
    {
      var n := i + j * nx + k * nx * ny;
      if i < 0 || i >= nx || j < 0 || j >= ny || k < 0 || k >= nz {
        return Err(BadIndex);
      }
      IjkOfGlobal(nx, ny, nz, Cell(i, j, k));
      r := Ok(actIndex[n]);
    }

    method IjkFromActiveIndex(actInd: int) returns (r: Result<Cell>)
      requires Valid() && nx > 0 && ny > 0 && nactive <= |globIndex|
      ensures r.Ok? <==> 0 <= actInd < nactive
      ensures r.Ok? ==> InGrid(nx, ny, nz, r.value) && Global(nx, ny, r.value) == globIndex[actInd]
      ensures r.Ok? && actnum.Some? ==>
        0 <= Global(nx, ny, r.value) < |actIndex| && actIndex[Global(nx, ny, r.value)] == actInd
    {
      if actInd < 0 || actInd >= nactive {
        return Err(BadIndex);
      }
      var glob := globIndex[actInd];
      r := IjkFromGlobalIndex(glob);
    }

    /** The places in COORD that getCellCorners reads: the four pillars of a cell. */
    method PillarPlaces(cell: Cell) returns (pind: seq<int>)
      ensures |pind| == 4 && forall c :: 0 <= c < 4 ==> pind[c] == PillarIndex(nx, cell, c)
    {
      pind := [cell.j * (nx + 1) * 6 + cell.i * 6];
      pind := pind + [pind[0] + 6];
      pind := pind + [pind[0] + (nx + 1) * 6];
      pind := pind + [pind[2] + 6];
      PillarSum(nx, cell);
    }

    /** The places in ZCORN that it reads: the eight corners. */
    method CornerPlaces(cell: Cell) returns (zind: seq<int>)
      ensures |zind| == 8 && forall c :: 0 <= c < 8 ==> zind[c] == ZcornIndex(nx, ny, cell, c)
    {
      hide ZcornIndex;
      var first := cell.k * nx * ny * 8 + cell.j * nx * 4 + cell.i * 2;
      var row, layer := nx * 2, nx * ny * 4;
      zind := [first];
      zind := zind + [zind[0] + 1];
      zind := zind + [zind[0] + row];
      zind := zind + [zind[2] + 1];
      for n := 0 to 4
        invariant |zind| == 4 + n
        invariant zind[..4] == [first, first + 1, first + row, first + row + 1]
        invariant forall m :: 0 <= m < n ==> zind[4 + m] == zind[m] + layer
      {
        zind := zind + [zind[n] + layer];
      }
      forall c | 0 <= c < 8 ensures zind[c] == ZcornIndex(nx, ny, cell, c) {
        ZcornSum(nx, ny, cell, c);
        assert zind[c % 4] == zind[..4][c % 4];
        assert c >= 4 ==> zind[4 + (c - 4)] == zind[c - 4] + layer;
      }
    }
  }

  lemma {:induction false} ZcornSum(nx: int, ny: int, cell: Cell, c: nat)
    requires c < 8
    ensures var first, row, layer := cell.k * nx * ny * 8 + cell.j * nx * 4 + cell.i * 2, nx * 2, nx * ny * 4;
      ZcornIndex(nx, ny, cell, c) == first + c % 2 + (if c / 2 % 2 == 1 then row else 0) + (if c >= 4 then layer else 0)
  {
    var b, d := c / 2 % 2, c / 4;
    Spread(2 * cell.j, b, 2 * nx);
    Spread(2 * cell.k, d, 2 * nx);
    Spread(2 * cell.k * (2 * nx), d * (2 * nx), 2 * ny);
    Fours(cell.j, cell.k, nx, ny);
  }

  lemma Spread(a: int, b: int, w: int)
    ensures (a + b) * w == a * w + b * w
  {}

  lemma Fours(j: int, k: int, nx: int, ny: int)
    ensures 2 * j * (2 * nx) == j * nx * 4
    ensures 2 * k * (2 * nx) * (2 * ny) == k * nx * ny * 8
    ensures 1 * (2 * nx) * (2 * ny) == nx * ny * 4
    ensures 0 * (2 * nx) == 0 && 0 * (2 * nx) * (2 * ny) == 0
  {}

  lemma {:induction false} PillarSum(nx: int, cell: Cell)
    ensures forall c {:trigger PillarIndex(nx, cell, c)} :: 0 <= c < 4 ==>
      PillarIndex(nx, cell, c) == cell.j * (nx + 1) * 6 + cell.i * 6 + c % 2 * 6 + c / 2 * ((nx + 1) * 6)
  {
    forall c: nat | c < 4
      ensures PillarIndex(nx, cell, c) == cell.j * (nx + 1) * 6 + cell.i * 6 + c % 2 * 6 + c / 2 * ((nx + 1) * 6)
    {
      assert (cell.j + c / 2) * (nx + 1) == cell.j * (nx + 1) + c / 2 * (nx + 1);
    }
  }
}
