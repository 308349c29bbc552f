/** Where everything stands in an INIT file, token by token. */
module FieldLayout {
  import opened Arith
  import opened FieldSlots
  import opened FieldParser
  import opened FieldFaults

  /** The number that a token stands for; an integer is one, too. */
  function Num(t: Token): real
    requires !t.Text?
  {
    match t
    case Number(r) => r
    case Index(n) => n as real
  }

  /** Where line i starts. */
  function LineAt(N: nat, i: nat): nat {
    19 + i * (3 + N)
  }

  /** Line i is one of cell (x, y, z). */
  ghost predicate LineFor(t: seq<Token>, N: nat, i: nat, x: nat, y: nat, z: nat) {
    var p := LineAt(N, i);
    p + 3 + N <= |t| && t[p] == Index(x + 1) && t[p + 1] == Index(y + 1) && t[p + 2] == Index(z + 1)
  }

  /** The slot of the first component of a cell. */
  function FirstSlot(d: Dimensions, N: nat, x: nat, y: nat, z: nat): nat {
    x * d.y * d.z * N + y * d.z * N + z * N
  }

  /** The value is the number of the token times the factor. */
  predicate Scales(t: Token, factor: real, v: real) {
    !t.Text? && v == Num(t) * factor
  }

  /** N components from slot s on are the numbers from token p on, times the factor. */
  ghost predicate Copied(t: seq<Token>, p: nat, N: nat, factor: real, data: seq<real>, s: nat) {
    && p + N <= |t| && s + N <= |data|
    && forall k :: s <= k < s + N ==> Scales(t[p + (k - s)], factor, data[k])
  }

  /** And the other way round. */
  ghost predicate WrittenOut(t: seq<Token>, p: nat, N: nat, factor: real, data: seq<real>, s: nat)
    requires factor != 0.0
  {
    && p + N <= |t| && s + N <= |data|
    && forall k :: s <= k < s + N ==> t[p + (k - s)] == Number(data[k] / factor)
  }

  /** No component of the cell has been set. */
  ghost predicate Unset(data: seq<real>, N: nat, s: nat) {
    s + N <= |data| && forall k :: s <= k < s + N ==> data[k] == 0.0
  }

  // ----- what is read

  /** The header: the first line, the norm at 1 if there is a number, the size at 8 to
      10 in the order z, x, y, and the dimensions at 15 to 17. */
  ghost predicate HeaderFrom(file: File, um: real, f: FieldData) {
    var t := file.tokens;
    && f.header == file.header && |t| >= 19
    && f.norm == (if t[1].Text? then 1.0 else Num(t[1]))
    && !t[8].Text? && f.sizeZ == Num(t[8]) * um
    && !t[9].Text? && f.sizeX == Num(t[9]) * um
    && !t[10].Text? && f.sizeY == Num(t[10]) * um
    && t[15] == Index(f.dimensions.x) && t[16] == Index(f.dimensions.y) && t[17] == Index(f.dimensions.z)
  }

  /** Line i is the last one of cell (x, y, z). */
  ghost predicate LastFor(t: seq<Token>, N: nat, n: nat, i: nat, x: nat, y: nat, z: nat) {
    i < n && LineFor(t, N, i, x, y, z) && forall k: nat :: i < k < n ==> !LineFor(t, N, k, x, y, z)
  }

  ghost predicate ForSome(t: seq<Token>, d: Dimensions, N: nat, i: nat) {
    exists c: Cell :: InGrid(d, c) && LineFor(t, N, i, c.x, c.y, c.z)
  }

  /** The data: a line for each cell, though not for a different one each; the last one
      of a cell counts, and a cell without a line has zeros. */
  ghost predicate DataFrom(t: seq<Token>, d: Dimensions, N: nat, factor: real, data: seq<real>) {
    var n := d.x * d.y * d.z;
    && |data| == n * N
    && (forall i: nat :: i < n ==> ForSome(t, d, N, i))
    && (forall i: nat, x: nat, y: nat, z: nat :: LastFor(t, N, n, i, x, y, z) ==>
          Copied(t, LineAt(N, i) + 3, N, factor, data, FirstSlot(d, N, x, y, z)))
    && (forall x: nat, y: nat, z: nat {:trigger FirstSlot(d, N, x, y, z)} ::
          InGrid(d, Cell(x, y, z)) && (forall i: nat :: i < n ==> !LineFor(t, N, i, x, y, z)) ==>
          Unset(data, N, FirstSlot(d, N, x, y, z)))
  }

  lemma SlotsFrom(d: Dimensions, N: nat, c: Cell, k: nat)
    requires InGrid(d, c) && FirstSlot(d, N, c.x, c.y, c.z) <= k < FirstSlot(d, N, c.x, c.y, c.z) + N
    ensures k == SlotOf(d, N, c, k - FirstSlot(d, N, c.x, c.y, c.z)) < SlotCount(d, N)
  {
    SlotFormula(d, N, c, k - FirstSlot(d, N, c.x, c.y, c.z));
    SlotBelow(d, N, c, k - FirstSlot(d, N, c.x, c.y, c.z));
  }

  lemma FirstFits(d: Dimensions, N: nat, c: Cell)
    requires InGrid(d, c)
    ensures FirstSlot(d, N, c.x, c.y, c.z) + N <= SlotCount(d, N)
  {
    if N == 0 {
      SlotFormula(d, N, c, 0);
    } else {
      SlotFormula(d, N, c, 0);
      SlotBelow(d, N, c, N - 1);
      SlotBelow(d, N, c, 0);
    }
  }

  /** The last line of a cell decides what is left in the field, or nothing has
      changed. */
  lemma {:induction false} LastStored(field: seq<real>, d: Dimensions, N: nat, factor: real, lines: seq<Line>,
                                      c: Cell, j: nat)
    requires Proper(d, N, lines) && |field| == SlotCount(d, N) && InGrid(d, c) && j < N
    ensures SlotOf(d, N, c, j) < |field|
    ensures forall i :: 0 <= i < |lines| && lines[i].cell == c
                        && (forall k :: i < k < |lines| ==> lines[k].cell != c) ==>
      AllStored(field, d, N, factor, lines)[SlotOf(d, N, c, j)] == Internal(lines[i].values[j], factor)
    ensures (forall i :: 0 <= i < |lines| ==> lines[i].cell != c) ==>
      AllStored(field, d, N, factor, lines)[SlotOf(d, N, c, j)] == field[SlotOf(d, N, c, j)]
    decreases |lines|
  {
    SlotBelow(d, N, c, j);
    hide Stored, SlotOf, SlotCount, Internal, InGrid;
    if lines == [] {
    } else {
      var rest := lines[1..];
      assert InGrid(d, lines[0].cell);
      StoredAt(field, d, N, factor, lines[0], c, j);
      LastStored(Stored(field, d, N, factor, lines[0]), d, N, factor, rest, c, j);
      assert forall i :: 0 < i < |lines| ==> rest[i - 1] == lines[i];
    }
  }

  /** The line read at i, in terms of the whole file. */
  lemma LineIsAt(t: seq<Token>, d: Dimensions, N: nat, i: nat)
    requires |t| >= 19 && GoodAt(t[19..], d, N, i)
    ensures var l, p := LineIn(From(t[19..], N, i), d, N), LineAt(N, i);
      && p + 3 + N <= |t| && t[p] == Index(l.cell.x + 1) && t[p + 1] == Index(l.cell.y + 1)
      && t[p + 2] == Index(l.cell.z + 1)
      && |l.values| == N && Carries(t, p + 3, l.values)
  {
    FromAt(t, N, i);
    hide From, LineAt, GoodLine, LineIn;
    var line := From(t[19..], N, i);
    LineInIs(line, d, N);
    CarriedOn(t, LineAt(N, i), LineAt(N, i) + 3, line, LineIn(line, d, N).values);
  }

  lemma LineInIs(line: seq<Token>, d: Dimensions, N: nat)
    requires GoodLine(line, d, N)
    ensures var l := LineIn(line, d, N);
      && |line| >= 3 + N && line[0] == Index(l.cell.x + 1) && line[1] == Index(l.cell.y + 1)
      && line[2] == Index(l.cell.z + 1) && |l.values| == N && Carries(line, 3, l.values)
  {
    forall j: nat | j < N ensures CarriesAt(line, 3, LineIn(line, d, N).values, j) {
      assert line[3..3 + N][j] == line[3 + j];
    }
  }

  lemma CarriedOn(t: seq<Token>, p: nat, s: nat, line: seq<Token>, values: seq<real>)
    requires p <= |t| && s == p + 3 && line == t[p..] && Carries(line, 3, values)
    ensures Carries(t, s, values)
  {
    forall j: nat | j < |values| ensures CarriesAt(t, s, values, j) {
      assert CarriesAt(line, 3, values, j) && line[3 + j] == t[s + j];
    }
  }

  /** The values stand at the tokens from p on. */
  ghost predicate Carries(t: seq<Token>, p: nat, values: seq<real>) {
    && p + |values| <= |t|
    && forall j: nat :: j < |values| ==> CarriesAt(t, p, values, j)
  }

  predicate CarriesAt(t: seq<Token>, p: nat, values: seq<real>, j: nat)
    requires j < |values| && p + |values| <= |t|
  {
    !t[p + j].Text? && values[j] == Num(t[p + j])
  }

  /** A line is for the cell it was read for, and for no other. */
  lemma ForCell(t: seq<Token>, d: Dimensions, N: nat, n: nat, i: nat, x: nat, y: nat, z: nat)
    requires |t| >= 19 && AllGood(t[19..], d, N, n) && i < n
    ensures LineFor(t, N, i, x, y, z) <==> LinesIn(t[19..], d, N, n)[i].cell == Cell(x, y, z)
  {
    assert GoodAt(t[19..], d, N, i);
    hide GoodAt;
    LineIsAt(t, d, N, i);
    hide LineIn, From, LineAt;
  }

  /** What is stored for the last line of a cell. */
  lemma LastCopied(t: seq<Token>, d: Dimensions, N: nat, factor: real, field: seq<real>, n: nat, i: nat, x: nat, y: nat,
                   z: nat)
    requires |t| >= 19 && AllGood(t[19..], d, N, n) && |field| == SlotCount(d, N) && LastFor(t, N, n, i, x, y, z)
    ensures Copied(t, LineAt(N, i) + 3, N, factor, AllStored(field, d, N, factor, LinesIn(t[19..], d, N, n)),
                   FirstSlot(d, N, x, y, z))
  {
    hide NoneAfter, LineFor, AllStored, SlotCount, FirstSlot, GoodAt, LineAt, LineIn, From, InGrid, Copied;
    LastIs(t, d, N, n, i, Cell(x, y, z));
    LineCopied(t, LineAt(N, i) + 3, N, factor, field, d, LinesIn(t[19..], d, N, n), i, Cell(x, y, z));
  }

  lemma LastIs(t: seq<Token>, d: Dimensions, N: nat, n: nat, i: nat, c: Cell)
    requires |t| >= 19 && AllGood(t[19..], d, N, n) && LastFor(t, N, n, i, c.x, c.y, c.z)
    ensures var lines, p := LinesIn(t[19..], d, N, n), LineAt(N, i) + 3;
      && NoneAfter(lines, i, c) && InGrid(d, c) && |lines[i].values| == N && Carries(t, p, lines[i].values)
  {
    hide Carries, LineFor, LinesIn, GoodAt, LineIn, From, LineAt;
    var lines := LinesIn(t[19..], d, N, n);
    ForCell(t, d, N, n, i, c.x, c.y, c.z);
    LineOfList(t, d, N, n, i);
    LineIsAt(t, d, N, i);
    assert InGrid(d, lines[i].cell) && |lines[i].values| == N;
    forall k: nat | i < k < n ensures lines[k].cell != c {
      ForCell(t, d, N, n, k, c.x, c.y, c.z);
    }
  }

  lemma LineCopied(t: seq<Token>, p: nat, N: nat, factor: real, field: seq<real>, d: Dimensions, lines: seq<Line>,
                   i: nat, c: Cell)
    requires Proper(d, N, lines) && |field| == SlotCount(d, N) && InGrid(d, c) && NoneAfter(lines, i, c)
    requires |lines[i].values| == N && Carries(t, p, lines[i].values)
    ensures Copied(t, p, N, factor, AllStored(field, d, N, factor, lines), FirstSlot(d, N, c.x, c.y, c.z))
  {
    var s := FirstSlot(d, N, c.x, c.y, c.z);
    var data := AllStored(field, d, N, factor, lines);
    hide AllStored, SlotCount, FirstSlot, NoneAfter, Proper, InGrid, Scales, Carries;
    FirstFits(d, N, c);
    CarriedFits(t, p, lines[i].values);
    forall k | s <= k < s + N ensures Scales(t[p + (k - s)], factor, data[k]) {
      SlotsFrom(d, N, c, k);
      ComponentCopied(t, p, N, factor, field, d, lines, i, c, k - s);
    }
  }

  lemma CarriedFits(t: seq<Token>, p: nat, values: seq<real>)
    requires Carries(t, p, values)
    ensures p + |values| <= |t|
  {}

  lemma ComponentCopied(t: seq<Token>, p: nat, N: nat, factor: real, field: seq<real>, d: Dimensions, lines: seq<Line>,
                        i: nat, c: Cell, j: nat)
    requires Proper(d, N, lines) && |field| == SlotCount(d, N) && InGrid(d, c) && NoneAfter(lines, i, c)
    requires j < |lines[i].values| == N && Carries(t, p, lines[i].values)
    ensures SlotOf(d, N, c, j) < |field| && p + j < |t|
    ensures Scales(t[p + j], factor, AllStored(field, d, N, factor, lines)[SlotOf(d, N, c, j)])
  {
    hide AllStored, SlotOf, SlotCount, Proper, InGrid;
    ValueLeft(field, d, N, factor, lines, c, i, j);
    assert CarriesAt(t, p, lines[i].values, j);
  }

  ghost predicate NoneAfter(lines: seq<Line>, i: nat, c: Cell) {
    i < |lines| && lines[i].cell == c && forall k: nat :: i < k < |lines| ==> lines[k].cell != c
  }

  lemma ValueLeft(field: seq<real>, d: Dimensions, N: nat, factor: real, lines: seq<Line>, c: Cell, i: nat, j: nat)
    requires Proper(d, N, lines) && |field| == SlotCount(d, N) && InGrid(d, c) && j < N && NoneAfter(lines, i, c)
    ensures SlotOf(d, N, c, j) < |field| && |lines[i].values| == N
    ensures AllStored(field, d, N, factor, lines)[SlotOf(d, N, c, j)] == lines[i].values[j] * factor
  {
    hide AllStored, SlotOf, SlotCount;
    LastStored(field, d, N, factor, lines, c, j);
  }

  lemma LineOfList(t: seq<Token>, d: Dimensions, N: nat, n: nat, i: nat)
    requires |t| >= 19 && AllGood(t[19..], d, N, n) && i < n
    ensures GoodAt(t[19..], d, N, i) && LinesIn(t[19..], d, N, n)[i] == LineIn(From(t[19..], N, i), d, N)
  {
    assert GoodAt(t[19..], d, N, i);
    hide GoodAt, LineIn;
  }

  /** A cell that no line is for. */
  lemma NoneCopied(t: seq<Token>, d: Dimensions, N: nat, factor: real, n: nat, x: nat, y: nat, z: nat)
    requires |t| >= 19 && AllGood(t[19..], d, N, n) && InGrid(d, Cell(x, y, z))
    requires forall i: nat :: i < n ==> !LineFor(t, N, i, x, y, z)
    ensures Unset(AllStored(Zeros(SlotCount(d, N)), d, N, factor, LinesIn(t[19..], d, N, n)), N,
                  FirstSlot(d, N, x, y, z))
  {
    var lines, c, s := LinesIn(t[19..], d, N, n), Cell(x, y, z), FirstSlot(d, N, x, y, z);
    hide LineFor, LinesIn, AllStored, SlotCount, FirstSlot, GoodAt;
    forall k: nat | k < n ensures lines[k].cell != c {
      ForCell(t, d, N, n, k, x, y, z);
    }
    FirstFits(d, N, c);
    forall k | s <= k < s + N
      ensures AllStored(Zeros(SlotCount(d, N)), d, N, factor, lines)[k] == 0.0
    {
      SlotsFrom(d, N, c, k);
      LastStored(Zeros(SlotCount(d, N)), d, N, factor, lines, c, k - s);
    }
  }

  /** A file that is read, token by token. */
  lemma ReadFrom(file: File, N: nat, factor: real, um: real)
    requires Parse(file, N, factor, um).Parsed?
    ensures HeaderFrom(file, um, Parse(file, N, factor, um).field)
    ensures var f := Parse(file, N, factor, um).field; DataFrom(file.tokens, f.dimensions, N, factor, f.data)
  {
    hide *;
    ParsedIff(file, N, factor, um);
    var t := file.tokens;
    var d := SizeIn(t);
    HeaderIs(file, N, factor, um);
    BlockRead(t[19..], d.Cells(), d, N, factor, Zeros(SlotCount(d, N)));
    BlockData(t, d, N, factor);
  }

  lemma HeaderIs(file: File, N: nat, factor: real, um: real)
    requires Parse(file, N, factor, um).Parsed?
    ensures HeaderReads(file.tokens) && |file.tokens| >= 19
    ensures HeaderFrom(file, um, Parse(file, N, factor, um).field)
    ensures var t, f := file.tokens, Parse(file, N, factor, um).field;
      && f.dimensions == SizeIn(t)
      && ParseBlock(t[19..], SizeIn(t).Cells(), SizeIn(t), N, factor, Zeros(SlotCount(SizeIn(t), N))) == Block(f.data)
  {
    hide ParseBlock, Zeros, SlotCount, Dimensions.Cells;
  }

  lemma SomeCell(t: seq<Token>, d: Dimensions, N: nat, n: nat, i: nat)
    requires |t| >= 19 && AllGood(t[19..], d, N, n) && i < n
    ensures ForSome(t, d, N, i)
  {
    hide LineFor, GoodAt, InGrid;
    var c := LinesIn(t[19..], d, N, n)[i].cell;
    ForCell(t, d, N, n, i, c.x, c.y, c.z);
    assert InGrid(d, c) && LineFor(t, N, i, c.x, c.y, c.z);
  }

  lemma BlockData(t: seq<Token>, d: Dimensions, N: nat, factor: real)
    requires |t| >= 19 && AllGood(t[19..], d, N, d.Cells())
    ensures DataFrom(t, d, N, factor,
                     AllStored(Zeros(SlotCount(d, N)), d, N, factor, LinesIn(t[19..], d, N, d.Cells())))
  {
    var n := d.Cells();
    var lines := LinesIn(t[19..], d, N, n);
    var data := AllStored(Zeros(SlotCount(d, N)), d, N, factor, lines);
    assert n == d.x * d.y * d.z && |data| == n * N;
    hide Zeros, ForSome, LineIn, From, LineFor, LastFor, Copied, Unset, LinesIn, AllStored, SlotCount, FirstSlot,
         GoodAt, Dimensions.Cells, LineAt;
    forall i: nat | i < n ensures ForSome(t, d, N, i) {
      SomeCell(t, d, N, n, i);
    }
    forall i: nat, x: nat, y: nat, z: nat | LastFor(t, N, n, i, x, y, z)
      ensures Copied(t, LineAt(N, i) + 3, N, factor, data, FirstSlot(d, N, x, y, z))
    {
      LastCopied(t, d, N, factor, Zeros(SlotCount(d, N)), n, i, x, y, z);
    }
    forall x: nat, y: nat, z: nat
      | InGrid(d, Cell(x, y, z)) && (forall i: nat :: i < n ==> !LineFor(t, N, i, x, y, z))
      ensures Unset(data, N, FirstSlot(d, N, x, y, z))
    {
      NoneCopied(t, d, N, factor, n, x, y, z);
    }
  }

  // ----- what is rejected

  /** The sizes are numbers and the dimensions integers; nothing else is asked of the
      header but its length. */
  predicate HeaderOpen(t: seq<Token>) {
    |t| >= 19 && !t[8].Text? && !t[9].Text? && !t[10].Text? && t[15].Index? && t[16].Index? && t[17].Index?
  }

  /** Line i starts with three integers. */
  predicate LineOpen(t: seq<Token>, N: nat, i: nat) {
    var p := LineAt(N, i);
    p + 3 <= |t| && t[p].Index? && t[p + 1].Index? && t[p + 2].Index?
  }

  /** N numbers follow them. */
  predicate LineFull(t: seq<Token>, N: nat, i: nat) {
    var p := LineAt(N, i) + 3;
    p + N <= |t| && forall k :: p <= k < p + N ==> !t[k].Text?
  }

  /** None of the three exceeds the size. */
  predicate LineInside(t: seq<Token>, N: nat, i: nat, x: nat, y: nat, z: nat)
    requires LineOpen(t, N, i)
  {
    var p := LineAt(N, i);
    t[p].n <= x && t[p + 1].n <= y && t[p + 2].n <= z
  }

  predicate LineZero(t: seq<Token>, N: nat, i: nat)
    requires LineOpen(t, N, i)
  {
    var p := LineAt(N, i);
    t[p].n == 0 || t[p + 1].n == 0 || t[p + 2].n == 0
  }

  /** The code throws at line i of n, or on going on to the next one. */
  predicate Throws(t: seq<Token>, d: Dimensions, N: nat, n: nat, i: nat) {
    !LineOpen(t, N, i) || !LineInside(t, N, i, d.x, d.y, d.z) || (i + 1 < n && !LineFull(t, N, i))
  }

  lemma FromAt(t: seq<Token>, N: nat, i: nat)
    requires |t| >= 19
    ensures From(t[19..], N, i) == if LineAt(N, i) <= |t| then t[LineAt(N, i)..] else []
  {
    assert LineStart(N, i) + 19 == LineAt(N, i);
  }

  lemma OpenIs(t: seq<Token>, N: nat, i: nat)
    requires |t| >= 19
    ensures LineOpen(t, N, i) <==> StartsLine(From(t[19..], N, i))
    ensures LineFull(t, N, i) <==> Complete(From(t[19..], N, i), N)
  {
    FromAt(t, N, i);
    var p, line := LineAt(N, i), From(t[19..], N, i);
    hide From, LineAt;
    if p + 3 + N <= |t| {
      assert line[3..3 + N] == t[p + 3..p + 3 + N];
      NumbersAt(t, p + 3, p + 3 + N);
    }
  }

  lemma NumbersAt(t: seq<Token>, p: nat, q: nat)
    requires p <= q <= |t|
    ensures AllNumbers(t[p..q]) <==> forall k :: p <= k < q ==> !t[k].Text?
  {
    if AllNumbers(t[p..q]) {
      forall k | p <= k < q ensures !t[k].Text? {
        assert NumberIn(t[p..q][k - p]).Number?;
      }
    }
  }

  lemma ThrowsIs(t: seq<Token>, d: Dimensions, N: nat, n: nat, i: nat)
    requires |t| >= 19 && i < n
    ensures Throws(t, d, N, n, i) <==> StopsAt(t[19..], d, N, n, i)
    ensures LineOpen(t, N, i) ==> (LineZero(t, N, i) <==> HasZero(From(t[19..], N, i)))
  {
    OpenIs(t, N, i);
    FromAt(t, N, i);
    hide From, LineAt, Complete, LineFull;
  }

  /** Exactly which files are rejected, token by token. */
  lemma RejectedIff(file: File, N: nat, factor: real, um: real)
    ensures var t := file.tokens;
      Parse(file, N, factor, um).InvalidData? <==>
        !HeaderOpen(t) ||
        var d := Dimensions(t[15].n, t[16].n, t[17].n);
        exists i: nat :: i < d.x * d.y * d.z && Throws(t, d, N, d.x * d.y * d.z, i)
    ensures var t := file.tokens;
      Parse(file, N, factor, um).Parsed? <==>
        HeaderOpen(t) &&
        var d := Dimensions(t[15].n, t[16].n, t[17].n);
        forall i: nat :: i < d.x * d.y * d.z ==>
          LineOpen(t, N, i) && LineInside(t, N, i, d.x, d.y, d.z) && !LineZero(t, N, i) && LineFull(t, N, i)
  {
    ParsedIff(file, N, factor, um);
    var t := file.tokens;
    assert HeaderOpen(t) <==> HeaderReads(t);
    if HeaderOpen(t) {
      var d := SizeIn(t);
      var n := d.x * d.y * d.z;
      hide Parse, StopsAt, Throws, LineOpen, LineFull, LineInside, LineZero, GoodAt, Overlooked;
      forall i: nat | i < n
        ensures Throws(t, d, N, n, i) <==> StopsAt(t[19..], d, N, n, i)
        ensures GoodAt(t[19..], d, N, i) <==>
          LineOpen(t, N, i) && LineInside(t, N, i, d.x, d.y, d.z) && !LineZero(t, N, i) && LineFull(t, N, i)
      {
        ThrowsIs(t, d, N, n, i);
        GoodIs(t, d, N, i);
      }
    }
  }

  lemma GoodIs(t: seq<Token>, d: Dimensions, N: nat, i: nat)
    requires |t| >= 19
    ensures GoodAt(t[19..], d, N, i) <==>
      LineOpen(t, N, i) && LineInside(t, N, i, d.x, d.y, d.z) && !LineZero(t, N, i) && LineFull(t, N, i)
  {
    OpenIs(t, N, i);
    FromAt(t, N, i);
    hide From, LineAt, Complete, LineFull;
  }

  // ----- what is written

  /** The header begins with the units and the norm. */
  ghost predicate UnitsTo(t: seq<Token>, units: string, f: FieldData) {
    && |t| >= 19 && t[0] == Text(if units == "" then "internal" else units) && t[1] == Number(f.norm)
    && t[2] == Text("##TURN##") && t[3] == Text("##TILT##") && t[4] == Number(1.0)
    && t[5] == Number(0.0) && t[6] == Number(0.0) && t[7] == Number(0.0)
  }

  /** The size follows at 8 to 10, in the order z, x, y. */
  ghost predicate SizeTo(t: seq<Token>, um: real, f: FieldData)
    requires um != 0.0
  {
    && |t| >= 19 && t[8] == Number(f.sizeZ / um) && t[9] == Number(f.sizeX / um) && t[10] == Number(f.sizeY / um)
    && t[11] == Number(0.0) && t[12] == Number(0.0) && t[13] == Number(0.0) && t[14] == Number(0.0)
  }

  /** The dimensions come at 15 to 17, and the data after 18. */
  ghost predicate DimensionsTo(t: seq<Token>, d: Dimensions) {
    |t| >= 19 && t[15] == Index(d.x) && t[16] == Index(d.y) && t[17] == Index(d.z) && t[18] == Number(0.0)
  }

  ghost predicate HeaderTo(t: seq<Token>, units: string, um: real, f: FieldData)
    requires um != 0.0
  {
    UnitsTo(t, units, f) && SizeTo(t, um, f) && DimensionsTo(t, f.dimensions)
  }

  /** The data: a line for each cell, in row-major order. */
  ghost predicate DataTo(t: seq<Token>, N: nat, factor: real, f: FieldData)
    requires factor != 0.0
  {
    var d := f.dimensions;
    && |t| == 19 + d.x * d.y * d.z * (3 + N)
    && forall x: nat, y: nat, z: nat {:trigger CellNumber(d, Cell(x, y, z))} :: InGrid(d, Cell(x, y, z)) ==>
         var i := CellNumber(d, Cell(x, y, z));
         && LineFor(t, N, i, x, y, z)
         && WrittenOut(t, LineAt(N, i) + 3, N, factor, f.data, FirstSlot(d, N, x, y, z))
  }

  lemma {:induction false} BlockAt(lines: seq<Line>, N: nat, i: nat)
    requires (forall k :: 0 <= k < |lines| ==> |lines[k].values| == N) && i < |lines|
    ensures |BlockTokens(lines)| == |lines| * (3 + N) && LineStart(N, i + 1) <= |BlockTokens(lines)|
    ensures BlockTokens(lines)[LineStart(N, i)..LineStart(N, i + 1)] == LineTokens(lines[i])
  {
    hide LineTokens, LineStart;
    var head, rest := LineTokens(lines[0]), BlockTokens(lines[1..]);
    LineLength(lines[0], N);
    NextStart(N, i);
    NextStart(N, 0);
    BlockTotal(lines, N);
    if i == 0 {
    } else {
      var j: nat := i - 1;
      BlockAt(lines[1..], N, j);
      NextStart(N, j);
      var a, b := LineStart(N, j), LineStart(N, j + 1);
      Shifted(head, rest, a, b);
    }
  }

  lemma Shifted(head: seq<Token>, rest: seq<Token>, a: nat, b: nat)
    requires a <= b <= |rest|
    ensures (head + rest)[|head| + a..|head| + b] == rest[a..b]
  {}

  lemma {:induction false} BlockTotal(lines: seq<Line>, N: nat)
    requires forall k :: 0 <= k < |lines| ==> |lines[k].values| == N
    ensures |BlockTokens(lines)| == |lines| * (3 + N)
  {
    hide LineTokens;
    if lines == [] {
    } else {
      LineLength(lines[0], N);
      BlockTotal(lines[1..], N);
      Row(|lines| - 1, 3 + N);
    }
  }

  lemma Row(m: nat, w: nat)
    ensures (m + 1) * w == m * w + w
  {}

  /** The line of a cell, in terms of the whole file. */
  lemma LineOut(f: FieldData, N: nat, factor: real, t: seq<Token>, lines: seq<Line>, x: nat, y: nat, z: nat)
    requires factor != 0.0 && |f.data| == SlotCount(f.dimensions, N) && InOrder(f, N, factor, lines)
    requires |t| >= 19 && t[19..] == BlockTokens(lines) && InGrid(f.dimensions, Cell(x, y, z))
    requires |lines| == f.dimensions.Cells()
    ensures var d := f.dimensions;
      var i := CellNumber(d, Cell(x, y, z));
      && LineFor(t, N, i, x, y, z)
      && WrittenOut(t, LineAt(N, i) + 3, N, factor, f.data, FirstSlot(d, N, x, y, z))
  {
    var d, c := f.dimensions, Cell(x, y, z);
    var i := CellNumber(d, c);
    LineOfCell(f, N, factor, lines, c);
    assert forall k :: 0 <= k < |lines| ==> |lines[k].values| == N;
    BlockAt(lines, N, i);
    hide InOrder, CellNumber, SlotCount, Dimensions.Cells, BlockTokens;
    FirstFits(d, N, c);
    LineWritten(t, N, i, LineOf(f, N, factor, c));
    hide LineTokens, LineStart, LineAt, LineFor, FirstSlot;
    ValuesWritten(f, N, factor, t, LineAt(N, i) + 3, c);
  }

  lemma ValueAt(f: FieldData, N: nat, factor: real, c: Cell, j: nat)
    requires factor != 0.0 && |f.data| == SlotCount(f.dimensions, N) && InGrid(f.dimensions, c) && j < N
    ensures SlotOf(f.dimensions, N, c, j) < |f.data|
    ensures ValuesOf(f, N, factor, c)[j] == f.data[SlotOf(f.dimensions, N, c, j)] / factor
  {
    SlotBelow(f.dimensions, N, c, j);
  }

  lemma ValuesWritten(f: FieldData, N: nat, factor: real, t: seq<Token>, p: nat, c: Cell)
    requires factor != 0.0 && |f.data| == SlotCount(f.dimensions, N) && InGrid(f.dimensions, c) && p + N <= |t|
    requires var values := LineOf(f, N, factor, c).values;
      |values| == N && forall j: nat {:trigger values[j]} :: j < N ==> t[p + j] == Number(values[j])
    ensures WrittenOut(t, p, N, factor, f.data, FirstSlot(f.dimensions, N, c.x, c.y, c.z))
  {
    var s, values := FirstSlot(f.dimensions, N, c.x, c.y, c.z), ValuesOf(f, N, factor, c);
    assert LineOf(f, N, factor, c).values == values;
    hide LineOf, SlotCount, FirstSlot, InGrid, ValuesOf;
    FirstFits(f.dimensions, N, c);
    forall k | s <= k < s + N ensures t[p + (k - s)] == Number(f.data[k] / factor) {
      SlotsFrom(f.dimensions, N, c, k);
      ValueAt(f, N, factor, c, k - s);
      assert t[p + (k - s)] == Number(values[k - s]);
    }
  }

  lemma LineOfCell(f: FieldData, N: nat, factor: real, lines: seq<Line>, c: Cell)
    requires factor != 0.0 && |f.data| == SlotCount(f.dimensions, N) && InOrder(f, N, factor, lines)
    requires InGrid(f.dimensions, c) && |lines| == f.dimensions.Cells()
    ensures CellNumber(f.dimensions, c) < |lines| && lines[CellNumber(f.dimensions, c)] == LineOf(f, N, factor, c)
  {
    CellBelow(f.dimensions, c);
    var i := CellNumber(f.dimensions, c);
    hide SlotCount, Dimensions.Cells, CellNumber, LineOf;
    NumberUnique(f.dimensions, lines[i].cell, c);
  }

  lemma LineWritten(t: seq<Token>, N: nat, i: nat, l: Line)
    requires |t| >= 19 && |l.values| == N && LineStart(N, i + 1) <= |t[19..]|
    requires t[19..][LineStart(N, i)..LineStart(N, i + 1)] == LineTokens(l)
    ensures LineFor(t, N, i, l.cell.x, l.cell.y, l.cell.z) && LineAt(N, i) + 3 + N <= |t|
    ensures forall j: nat {:trigger l.values[j]} :: j < N ==> t[LineAt(N, i) + 3 + j] == Number(l.values[j])
  {
    NextStart(N, i);
    var p, a, b := LineAt(N, i), LineStart(N, i), LineStart(N, i + 1);
    assert p == 19 + a && b == a + 3 + N;
    assert t[19..][a..b] == t[p..p + 3 + N];
    hide LineAt, LineStart;
    var u := t[p..p + 3 + N];
    assert u == LineTokens(l);
    assert u[0] == t[p] && u[1] == t[p + 1] && u[2] == t[p + 2];
    forall j: nat | j < N ensures t[p + 3 + j] == Number(l.values[j]) {
      assert u[3 + j] == t[p + 3 + j];
    }
    assert LineFor(t, N, i, l.cell.x, l.cell.y, l.cell.z) by { ForLine(t, N, i, p, l.cell); }
  }

  lemma ForLine(t: seq<Token>, N: nat, i: nat, p: nat, c: Cell)
    requires p == LineAt(N, i) && p + 3 + N <= |t|
    requires t[p] == Index(c.x + 1) && t[p + 1] == Index(c.y + 1) && t[p + 2] == Index(c.z + 1)
    ensures LineFor(t, N, i, c.x, c.y, c.z)
  {
    hide LineAt;
  }

  /** A file that is written, token by token. */
  lemma WrittenTo(f: FieldData, N: nat, units: string, factor: real, um: real)
    requires um != 0.0 && factor != 0.0 && |f.data| == SlotCount(f.dimensions, N)
    ensures var file := Written(f, N, units, factor, um);
      file.header == f.header && HeaderTo(file.tokens, units, um, f) && DataTo(file.tokens, N, factor, f)
  {
    hide *;
    var d := f.dimensions;
    var lines := LinesBefore(f, N, factor, d.x, 0, 0);
    var file := Written(f, N, units, factor, um);
    HeaderOut(f, N, units, factor, um);
    LinesOut(f, N, factor);
    assert DataTo(file.tokens, N, factor, f) by { AllLinesOut(f, N, factor, file.tokens, lines); }
  }

  lemma HeaderOut(f: FieldData, N: nat, units: string, factor: real, um: real)
    requires um != 0.0 && factor != 0.0 && |f.data| == SlotCount(f.dimensions, N)
    ensures var file := Written(f, N, units, factor, um);
      var block := BlockTokens(LinesBefore(f, N, factor, f.dimensions.x, 0, 0));
      && file.header == f.header && HeaderTo(file.tokens, units, um, f)
      && |file.tokens| == 19 + |block| && file.tokens[19..] == block
  {
    hide BlockTokens, LinesBefore, SlotCount, HeaderTo, HeaderTokens;
    var head, block := HeaderTokens(f, units, um), BlockTokens(LinesBefore(f, N, factor, f.dimensions.x, 0, 0));
    HeaderAlone(f, units, um);
    HeaderFirst(head, block, units, um, f);
  }

  lemma HeaderAlone(f: FieldData, units: string, um: real)
    requires um != 0.0
    ensures |HeaderTokens(f, units, um)| == 19 && HeaderTo(HeaderTokens(f, units, um), units, um, f)
  {
    hide UnitsTo, SizeTo, DimensionsTo;
    UnitsAlone(f, units, um);
    SizeAlone(f, units, um);
    DimensionsAlone(f, units, um);
    hide HeaderTokens;
  }

  lemma UnitsAlone(f: FieldData, units: string, um: real)
    requires um != 0.0
    ensures |HeaderTokens(f, units, um)| == 19 && UnitsTo(HeaderTokens(f, units, um), units, f)
  {
    TextsAlone(f, units, um);
    ZerosAlone(f, units, um);
    hide HeaderTokens;
  }

  lemma TextsAlone(f: FieldData, units: string, um: real)
    requires um != 0.0
    ensures var t := HeaderTokens(f, units, um);
      && |t| == 19 && t[0] == Text(if units == "" then "internal" else units) && t[1] == Number(f.norm)
      && t[2] == Text("##TURN##") && t[3] == Text("##TILT##")
  {}

  lemma ZerosAlone(f: FieldData, units: string, um: real)
    requires um != 0.0
    ensures var t := HeaderTokens(f, units, um);
      && |t| == 19 && t[4] == Number(1.0)
      && t[5] == Number(0.0) && t[6] == Number(0.0) && t[7] == Number(0.0)
  {}

  lemma DimensionsAlone(f: FieldData, units: string, um: real)
    requires um != 0.0
    ensures DimensionsTo(HeaderTokens(f, units, um), f.dimensions)
  {}

  lemma SizeAlone(f: FieldData, units: string, um: real)
    requires um != 0.0
    ensures SizeTo(HeaderTokens(f, units, um), um, f)
  {}

  lemma HeaderFirst(head: seq<Token>, block: seq<Token>, units: string, um: real, f: FieldData)
    requires um != 0.0 && |head| == 19 && HeaderTo(head, units, um, f)
    ensures HeaderTo(head + block, units, um, f) && (head + block)[19..] == block
  {
    assert forall i :: 0 <= i < 19 ==> (head + block)[i] == head[i];
  }

  lemma LinesOut(f: FieldData, N: nat, factor: real)
    requires factor != 0.0 && |f.data| == SlotCount(f.dimensions, N)
    ensures var lines, d := LinesBefore(f, N, factor, f.dimensions.x, 0, 0), f.dimensions;
      && InOrder(f, N, factor, lines) && |lines| == d.x * d.y * d.z && |BlockTokens(lines)| == d.x * d.y * d.z * (3 + N)
  {
    var d := f.dimensions;
    var lines := LinesBefore(f, N, factor, d.x, 0, 0);
    LinesInOrder(f, N, factor, d.x, 0, 0);
    CountFacts(d, 0, 0, 0);
    hide LinesBefore, BlockTokens, CellNumber, SlotCount;
    assert forall k :: 0 <= k < |lines| ==> |lines[k].values| == N;
    BlockTotal(lines, N);
  }

  lemma AllLinesOut(f: FieldData, N: nat, factor: real, t: seq<Token>, lines: seq<Line>)
    requires factor != 0.0 && |f.data| == SlotCount(f.dimensions, N) && InOrder(f, N, factor, lines)
    requires |t| >= 19 && t[19..] == BlockTokens(lines)
    requires var d := f.dimensions; |lines| == d.x * d.y * d.z && |BlockTokens(lines)| == d.x * d.y * d.z * (3 + N)
    ensures DataTo(t, N, factor, f)
  {
    var d := f.dimensions;
    assert |lines| == d.Cells();
    hide BlockTokens, CellNumber, SlotCount, LineFor, WrittenOut, InOrder, FirstSlot, LineAt, Dimensions.Cells;
    forall x: nat, y: nat, z: nat | InGrid(d, Cell(x, y, z))
      ensures var i := CellNumber(d, Cell(x, y, z));
        LineFor(t, N, i, x, y, z) && WrittenOut(t, LineAt(N, i) + 3, N, factor, f.data, FirstSlot(d, N, x, y, z))
    {
      LineOut(f, N, factor, t, lines, x, y, z);
    }
  }
}
