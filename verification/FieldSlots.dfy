/** The flat, row-major layout of a field on a grid. */
module FieldSlots {
  import opened Arith

  datatype Dimensions = Dimensions(x: nat, y: nat, z: nat)
  {
    function Cells(): nat {
      x * y * z
    }
  }

  datatype Cell = Cell(x: nat, y: nat, z: nat)

  predicate InGrid(d: Dimensions, c: Cell) {
    c.x < d.x && c.y < d.y && c.z < d.z
  }

  /** Row-major number of a cell. */
  function CellNumber(d: Dimensions, c: Cell): nat {
    (c.x * d.y + c.y) * d.z + c.z
  }

  /** Component c of the cell with number s, with w components a cell. */
  function Place(w: nat, s: nat, c: nat): nat {
    s * w + c
  }

  /** The position of component j of a cell. */
  function SlotOf(d: Dimensions, N: nat, c: Cell, j: nat): nat {
    Place(N, CellNumber(d, c), j)
  }

  function SlotCount(d: Dimensions, N: nat): nat {
    d.Cells() * N
  }

  /** The index as the code computes it. */
  lemma SlotFormula(d: Dimensions, N: nat, c: Cell, j: nat)
    ensures c.x * d.y * d.z * N + c.y * d.z * N + c.z * N + j == SlotOf(d, N, c, j)
  {
    Distributes(c.x * d.y, c.y, d.z);
    Distributes(c.x * d.y * d.z + c.y * d.z, c.z, N);
    Distributes(c.x * d.y * d.z, c.y * d.z, N);
  }

  lemma RowBelow(a: nat, b: nat, n: nat, r: nat)
    requires a < b && r < n
    ensures a * n + r < b * n
  {
    MulStrict(a, b, n);
  }

  lemma RowUnique(a: nat, b: nat, n: nat, r: nat, s: nat)
    requires r < n && s < n && a * n + r == b * n + s
    ensures a == b && r == s
  {
    if a < b {
      RowBelow(a, b, n, r);
    } else if b < a {
      RowBelow(b, a, n, s);
    }
  }

  lemma CellBelow(d: Dimensions, c: Cell)
    requires InGrid(d, c)
    ensures CellNumber(d, c) < d.Cells()
  {
    RowBelow(c.x, d.x, d.y, c.y);
    RowBelow(c.x * d.y + c.y, d.x * d.y, d.z, c.z);
  }

  lemma SlotBelow(d: Dimensions, N: nat, c: Cell, j: nat)
    requires InGrid(d, c) && j < N
    ensures SlotOf(d, N, c, 0) + N <= d.Cells() * N && SlotOf(d, N, c, j) < d.Cells() * N
  {
    CellBelow(d, c);
    MulStrict(CellNumber(d, c), d.Cells(), N);
  }

  /** No two components share a slot. */
  lemma SlotUnique(d: Dimensions, N: nat, c: Cell, j: nat, c': Cell, j': nat)
    requires InGrid(d, c) && InGrid(d, c') && j < N && j' < N && SlotOf(d, N, c, j) == SlotOf(d, N, c', j')
    ensures c == c' && j == j'
  {
    RowUnique(CellNumber(d, c), CellNumber(d, c'), N, j, j');
    RowUnique(c.x * d.y + c.y, c'.x * d.y + c'.y, d.z, c.z, c'.z);
    RowUnique(c.x, c'.x, d.y, c.y, c'.y);
  }

  /** Every slot belongs to a component. */
  lemma SlotCovered(d: Dimensions, N: nat, s: nat) returns (c: Cell, j: nat)
    requires s < d.Cells() * N
    ensures InGrid(d, c) && j < N && SlotOf(d, N, c, j) == s
  {
    Positive(d.Cells(), N, s);
    var cell := s / N;
    j := s % N;
    DivMod(s, N);
    Quotient(s, d.Cells(), N);
    Positive(d.x * d.y, d.z, cell);
    var row, z := cell / d.z, cell % d.z;
    DivMod(cell, d.z);
    Quotient(cell, d.x * d.y, d.z);
    Positive(d.x, d.y, row);
    var x, y := row / d.y, row % d.y;
    DivMod(row, d.y);
    Quotient(row, d.x, d.y);
    c := Cell(x, y, z);
  }

  lemma Positive(a: nat, b: nat, s: nat)
    requires s < a * b
    ensures a > 0 && b > 0
  {}

  lemma Quotient(s: nat, a: nat, b: nat)
    requires b > 0 && s < a * b
    ensures s / b < a
  {
    DivMod(s, b);
    if s / b >= a {
      MulMonotone(a, s / b, b);
    }
  }
}
