/** The INIT text format: writing a field and parsing it back. */
module FieldParser {
  import opened Arith
  import opened FieldSlots

  /** What operator>> finds in the file: text, an integer, or a number. */
  datatype Token = Text(s: string) | Index(n: nat) | Number(r: real)

  datatype FieldData = FieldData(header: string, dimensions: Dimensions, sizeX: real, sizeY: real, sizeZ: real,
                                 data: seq<real>, norm: real)

  /** The first line, and the tokens after it. */
  datatype File = File(header: string, tokens: seq<Token>)

  /** Unchecked: the code goes on without looking, with an index 0 that wraps
      around, or with a last component that could not be read. */
  datatype ParseResult = Parsed(field: FieldData) | InvalidData | Unchecked

  // ----- data lines

  /** A line of the data block: a cell and its N values. */
  datatype Line = Line(cell: Cell, values: seq<real>)

  ghost predicate Proper(d: Dimensions, N: nat, lines: seq<Line>) {
    forall i :: 0 <= i < |lines| ==> InGrid(d, lines[i].cell) && |lines[i].values| == N
  }

  ghost predicate DistinctCells(lines: seq<Line>) {
    forall i, j :: 0 <= i < j < |lines| ==> lines[i].cell != lines[j].cell
  }

  function Numbers(values: seq<real>): (t: seq<Token>)
    ensures |t| == |values|
  {
    seq(|values|, i requires 0 <= i < |values| => Number(values[i]))
  }

  /** Indices in the file start at one. */
  function LineTokens(l: Line): seq<Token> {
    [Index(l.cell.x + 1), Index(l.cell.y + 1), Index(l.cell.z + 1)] + Numbers(l.values)
  }

  function BlockTokens(lines: seq<Line>): seq<Token> {
    if lines == [] then [] else LineTokens(lines[0]) + BlockTokens(lines[1..])
  }

  /** A value in internal units. */
  function Internal(v: real, factor: real): real {
    v * factor
  }

  /** The values scaled from the units of the file to internal units. */
  function ScaledBy(values: seq<real>, factor: real): (s: seq<real>)
    ensures |s| == |values|
  {
    seq(|values|, i requires 0 <= i < |values| => Internal(values[i], factor))
  }

  /** The field with the line stored. */
  function Stored(field: seq<real>, d: Dimensions, N: nat, factor: real, l: Line): (f: seq<real>)
    requires InGrid(d, l.cell) && |l.values| == N && |field| == SlotCount(d, N)
    ensures |f| == |field|
  {
    if N == 0 then field else
    SlotBelow(d, N, l.cell, 0);
    var base := SlotOf(d, N, l.cell, 0);
    field[..base] + ScaledBy(l.values, factor) + field[base + N..]
  }

  function AllStored(field: seq<real>, d: Dimensions, N: nat, factor: real, lines: seq<Line>): (f: seq<real>)
    requires forall i :: 0 <= i < |lines| ==> InGrid(d, lines[i].cell) && |lines[i].values| == N
    requires |field| == SlotCount(d, N)
    ensures |f| == |field|
    decreases |lines|
  {
    if lines == [] then field else AllStored(Stored(field, d, N, factor, lines[0]), d, N, factor, lines[1..])
  }

  function Zeros(n: nat): (z: seq<real>)
    ensures |z| == n && forall i :: 0 <= i < n ==> z[i] == 0.0
  {
    seq(n, _ => 0.0)
  }

  // ----- parsing

  /** A token that reads as a number. */
  function NumberIn(t: Token): Token {
    if t.Index? then Number(t.n as real) else t
  }

  predicate AllNumbers(tokens: seq<Token>) {
    forall i :: 0 <= i < |tokens| ==> NumberIn(tokens[i]).Number?
  }

  function ValuesIn(tokens: seq<Token>): (v: seq<real>)
    requires AllNumbers(tokens)
    ensures |v| == |tokens|
  {
    seq(|tokens|, i requires 0 <= i < |tokens| => NumberIn(tokens[i]).r)
  }

  datatype BlockResult = Block(field: seq<real>) | BadBlock | UncheckedBlock

  predicate StartsLine(tokens: seq<Token>) {
    |tokens| >= 3 && tokens[0].Index? && tokens[1].Index? && tokens[2].Index?
  }

  predicate InSize(tokens: seq<Token>, d: Dimensions)
    requires StartsLine(tokens)
  {
    tokens[0].n <= d.x && tokens[1].n <= d.y && tokens[2].n <= d.z
  }

  predicate HasZero(tokens: seq<Token>)
    requires StartsLine(tokens)
  {
    tokens[0].n == 0 || tokens[1].n == 0 || tokens[2].n == 0
  }

  predicate Complete(tokens: seq<Token>, N: nat) {
    |tokens| >= 3 + N && AllNumbers(tokens[3..3 + N])
  }

  /** The loop over the lines comes to its end without an exception, whatever it
      writes on the way. */
  predicate Goes(tokens: seq<Token>, left: nat, d: Dimensions, N: nat) {
    left == 0 ||
    (StartsLine(tokens) && InSize(tokens, d) &&
     if Complete(tokens, N) then Goes(tokens[3 + N..], left - 1, d, N) else left == 1)
  }

  /** Reading `left` more data lines into the field. Behind a line with an index
      zero, which wraps around, the code reads on; what the wrapped index writes,
      possibly outside the field, is not followed. */
  function ParseBlock(tokens: seq<Token>, left: nat, d: Dimensions, N: nat, factor: real, field: seq<real>): BlockResult
    requires |field| == SlotCount(d, N)
  {
    if left == 0 then Block(field)
    else if !StartsLine(tokens) || !InSize(tokens, d) then BadBlock
    else if !Complete(tokens, N) then (if left == 1 then UncheckedBlock else BadBlock)
    else if HasZero(tokens) then (if Goes(tokens[3 + N..], left - 1, d, N) then UncheckedBlock else BadBlock)
    else
      var l := Line(Cell(tokens[0].n - 1, tokens[1].n - 1, tokens[2].n - 1), ValuesIn(tokens[3..3 + N]));
      ParseBlock(tokens[3 + N..], left - 1, d, N, factor, Stored(field, d, N, factor, l))
  }

  lemma BlockUnfold(tokens: seq<Token>, left: nat, d: Dimensions, N: nat, factor: real, field: seq<real>)
    requires |field| == SlotCount(d, N)
    ensures left == 0 ==> ParseBlock(tokens, left, d, N, factor, field) == Block(field)
    ensures left > 0 && !StartsLine(tokens) ==> ParseBlock(tokens, left, d, N, factor, field) == BadBlock
    ensures left > 0 && StartsLine(tokens) ==>
      ParseBlock(tokens, left, d, N, factor, field)
      == if !InSize(tokens, d) then BadBlock
         else if !Complete(tokens, N) then (if left == 1 then UncheckedBlock else BadBlock)
         else if HasZero(tokens) then (if Goes(tokens[3 + N..], left - 1, d, N) then UncheckedBlock else BadBlock)
         else ParseBlock(tokens[3 + N..], left - 1, d, N, factor,
                         Stored(field, d, N, factor,
                                Line(Cell(tokens[0].n - 1, tokens[1].n - 1, tokens[2].n - 1),
                                     ValuesIn(tokens[3..3 + N]))))
  {
    hide Stored, AllNumbers, ValuesIn, Goes;
  }

  lemma LineRead(l: Line, rest: seq<Token>, N: nat)
    requires |l.values| == N
    ensures var t := LineTokens(l) + rest;
      && |t| >= 3 + N && t[0] == Index(l.cell.x + 1) && t[1] == Index(l.cell.y + 1) && t[2] == Index(l.cell.z + 1)
      && AllNumbers(t[3..3 + N]) && ValuesIn(t[3..3 + N]) == l.values && t[3 + N..] == rest
  {
    var t := LineTokens(l) + rest;
    assert t[3..3 + N] == Numbers(l.values);
  }

  /** The first line is read. */
  lemma ParseLine(lines: seq<Line>, rest: seq<Token>, d: Dimensions, N: nat, factor: real, field: seq<real>)
    requires Proper(d, N, lines) && |field| == SlotCount(d, N) && lines != []
    ensures InGrid(d, lines[0].cell) && |lines[0].values| == N
    ensures ParseBlock(LineTokens(lines[0]) + rest, |lines|, d, N, factor, field)
         == ParseBlock(rest, |lines| - 1, d, N, factor, Stored(field, d, N, factor, lines[0]))
  {
    var l, t := lines[0], LineTokens(lines[0]) + rest;
    assert InGrid(d, l.cell) && |l.values| == N;
    hide *;
    LineRead(l, rest, N);
    ParseGood(t, |lines|, d, N, factor, field, l);
  }

  lemma ParseGood(t: seq<Token>, left: nat, d: Dimensions, N: nat, factor: real, field: seq<real>, l: Line)
    requires |field| == SlotCount(d, N) && left > 0 && InGrid(d, l.cell) && |l.values| == N && |t| >= 3 + N
    requires t[0] == Index(l.cell.x + 1) && t[1] == Index(l.cell.y + 1) && t[2] == Index(l.cell.z + 1)
    requires AllNumbers(t[3..3 + N]) && ValuesIn(t[3..3 + N]) == l.values
    ensures ParseBlock(t, left, d, N, factor, field)
         == ParseBlock(t[3 + N..], left - 1, d, N, factor, Stored(field, d, N, factor, l))
  {
    hide ParseBlock, Stored, SlotCount, AllNumbers, ValuesIn;
    BlockUnfold(t, left, d, N, factor, field);
    assert l == Line(Cell(t[0].n - 1, t[1].n - 1, t[2].n - 1), ValuesIn(t[3..3 + N]));
  }

  /** Parsing a block of proper lines stores each of them. */
  lemma {:induction false} BlockParses(lines: seq<Line>, d: Dimensions, N: nat, factor: real, field: seq<real>)
    requires Proper(d, N, lines) && |field| == SlotCount(d, N)
    ensures ParseBlock(BlockTokens(lines), |lines|, d, N, factor, field) == Block(AllStored(field, d, N, factor, lines))
    decreases |lines|
  {
    hide LineTokens, Stored, SlotCount, ParseBlock;
    if lines == [] {
      BlockUnfold([], 0, d, N, factor, field);
    } else {
      BlockParses(lines[1..], d, N, factor, Stored(field, d, N, factor, lines[0]));
      ParseLine(lines, BlockTokens(lines[1..]), d, N, factor, field);
    }
  }

  // ----- what a block of lines leaves in the field

  lemma StoredAt(field: seq<real>, d: Dimensions, N: nat, factor: real, l: Line, c: Cell, j: nat)
    requires InGrid(d, l.cell) && |l.values| == N && |field| == SlotCount(d, N) && InGrid(d, c) && j < N
    ensures SlotOf(d, N, c, j) < |field|
    ensures Stored(field, d, N, factor, l)[SlotOf(d, N, c, j)]
         == if c == l.cell then Internal(l.values[j], factor) else field[SlotOf(d, N, c, j)]
  {
    SlotBelow(d, N, c, j);
    SlotBelow(d, N, l.cell, 0);
    var base, s := SlotOf(d, N, l.cell, 0), SlotOf(d, N, c, j);
    assert SlotOf(d, N, l.cell, j) == base + j;
    if c != l.cell && base <= s < base + N {
      assert SlotOf(d, N, l.cell, s - base) == s;
      SlotUnique(d, N, c, j, l.cell, s - base);
    }
    hide SlotOf, SlotCount;
  }

  /** Each component has the value of the line of its cell, or is as before. */
  lemma {:induction false} AllStoredAt(field: seq<real>, d: Dimensions, N: nat, factor: real, lines: seq<Line>,
                                       c: Cell, j: nat)
    requires Proper(d, N, lines) && DistinctCells(lines) && |field| == SlotCount(d, N) && InGrid(d, c) && j < N
    ensures SlotOf(d, N, c, j) < |field|
    ensures forall i :: 0 <= i < |lines| && lines[i].cell == c ==>
      AllStored(field, d, N, factor, lines)[SlotOf(d, N, c, j)] == Internal(lines[i].values[j], factor)
    ensures (forall i :: 0 <= i < |lines| ==> lines[i].cell != c) ==>
      AllStored(field, d, N, factor, lines)[SlotOf(d, N, c, j)] == field[SlotOf(d, N, c, j)]
    decreases |lines|
  {
    SlotBelow(d, N, c, j);
    hide Stored, SlotOf, SlotCount, Internal, InGrid;
    if lines == [] {
    } else {
      var rest := lines[1..];
      assert InGrid(d, lines[0].cell);
      StoredAt(field, d, N, factor, lines[0], c, j);
      AllStoredAt(Stored(field, d, N, factor, lines[0]), d, N, factor, rest, c, j);
      assert forall i :: 0 < i < |lines| ==> rest[i - 1] == lines[i];
      assert lines[0].cell == c ==> forall k :: 0 <= k < |rest| ==> rest[k].cell != c;
    }
  }

  /** The order of the data lines does not matter. */
  lemma OrderIrrelevant(field: seq<real>, d: Dimensions, N: nat, factor: real, lines: seq<Line>, lines': seq<Line>)
    requires Proper(d, N, lines) && Proper(d, N, lines') && DistinctCells(lines) && DistinctCells(lines')
    requires multiset(lines) == multiset(lines') && |field| == SlotCount(d, N)
    ensures AllStored(field, d, N, factor, lines) == AllStored(field, d, N, factor, lines')
  {
    var f, f' := AllStored(field, d, N, factor, lines), AllStored(field, d, N, factor, lines');
    forall s | 0 <= s < |field| ensures f[s] == f'[s] {
      var c, j := SlotCovered(d, N, s);
      AllStoredAt(field, d, N, factor, lines, c, j);
      AllStoredAt(field, d, N, factor, lines', c, j);
      hide SlotOf, SlotCount, AllStored, Internal, InGrid;
      if i :| 0 <= i < |lines| && lines[i].cell == c {
        assert lines[i] in multiset(lines');
        var k :| 0 <= k < |lines'| && lines'[k] == lines[i];
      } else {
        forall k | 0 <= k < |lines'| ensures lines'[k].cell != c {
          assert lines'[k] in multiset(lines);
        }
      }
    }
  }

  // ----- the whole file

  function Get(t: seq<Token>, i: nat): Token {
    if i < |t| then NumberIn(t[i]) else Text("")
  }

  /** parse_init_file: values are multiplied by the factor of the field units, the
      size by that of micrometers. */
  function Parse(file: File, N: nat, factor: real, um: real): ParseResult {
    var t := file.tokens;
    // 0: units, 1: norm, 2-4: pion direction, 5-7: magnetic field, 8-10: size, 11-14: unused, 15-17: dimensions,
    // 18: unused
    if |t| < 19 || !Get(t, 8).Number? || !Get(t, 9).Number? || !Get(t, 10).Number?
      || !t[15].Index? || !t[16].Index? || !t[17].Index? then InvalidData
    else
      var norm := if Get(t, 1).Number? then Get(t, 1).r else 1.0;
      var d := Dimensions(t[15].n, t[16].n, t[17].n);
      match ParseBlock(t[19..], d.Cells(), d, N, factor, Zeros(SlotCount(d, N)))
      case Block(field) =>
        Parsed(FieldData(file.header, d, Internal(Get(t, 9).r, um), Internal(Get(t, 10).r, um),
                         Internal(Get(t, 8).r, um), field, norm))
      case BadBlock => InvalidData
      case UncheckedBlock => Unchecked
  }

  /** The header that is written, up to the dimensions. */
  function HeaderTokens(f: FieldData, units: string, um: real): seq<Token>
    requires um != 0.0
  {
    [Text(if units != "" then units else "internal"), Number(f.norm),
     Text("##TURN##"), Text("##TILT##"), Number(1.0),
     Number(0.0), Number(0.0), Number(0.0),
     Number(f.sizeZ / um), Number(f.sizeX / um), Number(f.sizeY / um),
     Number(0.0), Number(0.0), Number(0.0), Number(0.0),
     Index(f.dimensions.x), Index(f.dimensions.y), Index(f.dimensions.z),
     Number(0.0)]
  }

  /** The values of a cell in the units of the file. */
  function ValuesOf(f: FieldData, N: nat, factor: real, c: Cell): (v: seq<real>)
    requires factor != 0.0 && |f.data| == SlotCount(f.dimensions, N) && InGrid(f.dimensions, c)
    ensures |v| == N
  {
    seq(N, j requires 0 <= j < N => SlotBelow(f.dimensions, N, c, j); f.data[SlotOf(f.dimensions, N, c, j)] / factor)
  }

  function LineOf(f: FieldData, N: nat, factor: real, c: Cell): Line
    requires factor != 0.0 && |f.data| == SlotCount(f.dimensions, N) && InGrid(f.dimensions, c)
  {
    Line(c, ValuesOf(f, N, factor, c))
  }

  /** The lines of the cells before cell (x, y, z), in row-major order. */
  function LinesBefore(f: FieldData, N: nat, factor: real, x: nat, y: nat, z: nat): (lines: seq<Line>)
    requires factor != 0.0 && |f.data| == SlotCount(f.dimensions, N)
    requires x <= f.dimensions.x && y <= f.dimensions.y && z <= f.dimensions.z
    requires (y > 0 || z > 0 ==> x < f.dimensions.x) && (z > 0 ==> y < f.dimensions.y)
    decreases x, y, z
  {
    if z > 0 then LinesBefore(f, N, factor, x, y, z - 1) + [LineOf(f, N, factor, Cell(x, y, z - 1))]
    else if y > 0 then LinesBefore(f, N, factor, x, y - 1, f.dimensions.z)
    else if x > 0 then LinesBefore(f, N, factor, x - 1, f.dimensions.y, 0)
    else []
  }

  function Written(f: FieldData, N: nat, units: string, factor: real, um: real): File
    requires um != 0.0 && factor != 0.0 && |f.data| == SlotCount(f.dimensions, N)
  {
    File(f.header, HeaderTokens(f, units, um) + BlockTokens(LinesBefore(f, N, factor, f.dimensions.x, 0, 0)))
  }

  // ----- round trip

  lemma CountFacts(d: Dimensions, x: nat, y: nat, z: nat)
    ensures CellNumber(d, Cell(0, 0, 0)) == 0 && CellNumber(d, Cell(d.x, 0, 0)) == d.Cells()
    ensures CellNumber(d, Cell(x, y, z + 1)) == CellNumber(d, Cell(x, y, z)) + 1
    ensures CellNumber(d, Cell(x, y + 1, 0)) == CellNumber(d, Cell(x, y, d.z))
    ensures CellNumber(d, Cell(x + 1, 0, 0)) == CellNumber(d, Cell(x, d.y, 0))
  {
    Distributes(x * d.y + y, 1, d.z);
    Distributes(x, 1, d.y);
  }

  /** Line i is the line of the i-th cell. */
  ghost predicate InOrder(f: FieldData, N: nat, factor: real, lines: seq<Line>)
    requires factor != 0.0 && |f.data| == SlotCount(f.dimensions, N)
  {
    forall i :: 0 <= i < |lines| ==>
      InGrid(f.dimensions, lines[i].cell) && CellNumber(f.dimensions, lines[i].cell) == i &&
      lines[i] == LineOf(f, N, factor, lines[i].cell)
  }

  lemma {:induction false} LinesInOrder(f: FieldData, N: nat, factor: real, x: nat, y: nat, z: nat)
    requires factor != 0.0 && |f.data| == SlotCount(f.dimensions, N)
    requires x <= f.dimensions.x && y <= f.dimensions.y && z <= f.dimensions.z
    requires (y > 0 || z > 0 ==> x < f.dimensions.x) && (z > 0 ==> y < f.dimensions.y)
    ensures |LinesBefore(f, N, factor, x, y, z)| == CellNumber(f.dimensions, Cell(x, y, z))
    ensures InOrder(f, N, factor, LinesBefore(f, N, factor, x, y, z))
    decreases x, y, z
  {
    var d := f.dimensions;
    if z > 0 {
      LinesInOrder(f, N, factor, x, y, z - 1);
      CountFacts(d, x, y, z - 1);
      var c := Cell(x, y, z - 1);
      hide SlotCount, ValuesOf, CellNumber;
    } else if y > 0 {
      LinesInOrder(f, N, factor, x, y - 1, d.z);
      CountFacts(d, x, y - 1, 0);
    } else if x > 0 {
      LinesInOrder(f, N, factor, x - 1, d.y, 0);
      CountFacts(d, x - 1, 0, 0);
    } else {
      CountFacts(d, 0, 0, 0);
    }
  }

  lemma NumberUnique(d: Dimensions, c: Cell, c': Cell)
    requires InGrid(d, c) && InGrid(d, c') && CellNumber(d, c) == CellNumber(d, c')
    ensures c == c'
  {
    SlotUnique(d, 1, c, 0, c', 0);
  }

  lemma BackAgain(v: real, factor: real)
    requires factor != 0.0
    ensures Internal(v / factor, factor) == v
  {}

  /** All lines stored, the field is the one written. */
  lemma AllLinesStored(f: FieldData, N: nat, factor: real, field: seq<real>)
    requires factor != 0.0 && |f.data| == SlotCount(f.dimensions, N) == |field|
    ensures var lines := LinesBefore(f, N, factor, f.dimensions.x, 0, 0);
      Proper(f.dimensions, N, lines) && |lines| == f.dimensions.Cells() &&
      AllStored(field, f.dimensions, N, factor, lines) == f.data
  {
    var d, lines := f.dimensions, LinesBefore(f, N, factor, f.dimensions.x, 0, 0);
    LinesInOrder(f, N, factor, d.x, 0, 0);
    CountFacts(d, 0, 0, 0);
    hide LinesBefore, SlotCount, CellNumber, InGrid, Dimensions.Cells, Internal, SlotOf;
    var back := AllStored(field, d, N, factor, lines);
    forall s | 0 <= s < |field| ensures back[s] == f.data[s] {
      SlotsCount(d, N, s);
      var c, j := SlotCovered(d, N, s);
      AllStoredAt(field, d, N, factor, lines, c, j);
      CellBelow(d, c);
      var i := CellNumber(d, c);
      NumberUnique(d, lines[i].cell, c);
      BackAgain(f.data[s], factor);
      hide AllStored;
    }
  }

  lemma SlotsCount(d: Dimensions, N: nat, s: nat)
    requires s < SlotCount(d, N)
    ensures s < d.Cells() * N
  {}

  /** What parsing makes of a block behind the header of f. */
  function Outcome(f: FieldData, r: BlockResult): ParseResult {
    match r
    case Block(data) => Parsed(f.(data := data))
    case BadBlock => InvalidData
    case UncheckedBlock => Unchecked
  }

  /** The header is read back, and the block is left to parse. */
  lemma HeaderParses(f: FieldData, N: nat, units: string, factor: real, um: real, block: seq<Token>)
    requires um != 0.0
    ensures Parse(File(f.header, HeaderTokens(f, units, um) + block), N, factor, um)
         == Outcome(f,
                    ParseBlock(block, f.dimensions.Cells(), f.dimensions, N, factor,
                               Zeros(SlotCount(f.dimensions, N))))
  {
    hide ParseBlock, SlotCount, Zeros, Dimensions.Cells, Internal;
    BackAgain(f.sizeX, um);
    BackAgain(f.sizeY, um);
    BackAgain(f.sizeZ, um);
    var t := HeaderTokens(f, units, um) + block;
    assert t[19..] == block;
    assert t[1] == Number(f.norm) && t[8] == Number(f.sizeZ / um) && t[9] == Number(f.sizeX / um);
    assert t[10] == Number(f.sizeY / um);
    assert t[15] == Index(f.dimensions.x) && t[16] == Index(f.dimensions.y) && t[17] == Index(f.dimensions.z);
    hide HeaderTokens;
  }

  /** Parsing what was written gives back the field: header, dimensions, size,
      norm and every component. */
  lemma RoundTrip(f: FieldData, N: nat, units: string, factor: real, um: real)
    requires um != 0.0 && factor != 0.0 && |f.data| == SlotCount(f.dimensions, N)
    ensures Parse(Written(f, N, units, factor, um), N, factor, um) == Parsed(f)
  {
    hide LinesBefore, BlockTokens, ParseBlock, SlotCount, AllStored, Zeros, Dimensions.Cells, Parse, HeaderTokens,
         Proper;
    var d := f.dimensions;
    var lines := LinesBefore(f, N, factor, d.x, 0, 0);
    AllLinesStored(f, N, factor, Zeros(SlotCount(d, N)));
    BlockParses(lines, d, N, factor, Zeros(SlotCount(d, N)));
    HeaderParses(f, N, units, factor, um, BlockTokens(lines));
  }
}
