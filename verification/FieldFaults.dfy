/** Which INIT files are read, which are rejected, and which are neither. */
module FieldFaults {
  import opened FieldSlots
  import opened FieldParser

  // ----- one line

  /** Three indices, each from one to the size, and N numbers. */
  predicate GoodLine(tokens: seq<Token>, d: Dimensions, N: nat) {
    StartsLine(tokens) && InSize(tokens, d) && !HasZero(tokens) && Complete(tokens, N)
  }

  /** The loop stops at this line with an exception, at once or, when components
      are missing, on going on to the next one. */
  predicate Stops(tokens: seq<Token>, d: Dimensions, N: nat, last: bool) {
    !StartsLine(tokens) || !InSize(tokens, d) || (!last && !Complete(tokens, N))
  }

  /** A fault at which it does not stop. */
  predicate Faulty(tokens: seq<Token>, N: nat, last: bool) {
    StartsLine(tokens) && (HasZero(tokens) || (last && !Complete(tokens, N)))
  }

  lemma GoodOrNot(tokens: seq<Token>, d: Dimensions, N: nat, last: bool)
    ensures GoodLine(tokens, d, N) <==> !Stops(tokens, d, N, last) && !Faulty(tokens, N, last)
  {}

  function LineIn(tokens: seq<Token>, d: Dimensions, N: nat): (l: Line)
    requires GoodLine(tokens, d, N)
    ensures InGrid(d, l.cell) && |l.values| == N
  {
    Line(Cell(tokens[0].n - 1, tokens[1].n - 1, tokens[2].n - 1), ValuesIn(tokens[3..3 + N]))
  }

  // ----- the lines of a block

  /** Where line i starts. */
  function LineStart(N: nat, i: nat): nat {
    i * (3 + N)
  }

  lemma NextStart(N: nat, i: nat)
    ensures LineStart(N, 0) == 0 && LineStart(N, i + 1) == LineStart(N, i) + 3 + N
  {}

  /** The tokens from line i on. */
  function From(tokens: seq<Token>, N: nat, i: nat): seq<Token> {
    if LineStart(N, i) <= |tokens| then tokens[LineStart(N, i)..] else []
  }

  predicate GoodAt(tokens: seq<Token>, d: Dimensions, N: nat, i: nat) {
    GoodLine(From(tokens, N, i), d, N)
  }

  ghost predicate AllGood(tokens: seq<Token>, d: Dimensions, N: nat, n: nat) {
    forall i: nat :: i < n ==> GoodAt(tokens, d, N, i)
  }

  function LinesIn(tokens: seq<Token>, d: Dimensions, N: nat, n: nat): (lines: seq<Line>)
    requires forall i: nat :: i < n ==> GoodAt(tokens, d, N, i)
    ensures |lines| == n && Proper(d, N, lines)
  {
    seq(n, i requires 0 <= i < n => assert GoodAt(tokens, d, N, i); LineIn(From(tokens, N, i), d, N))
  }

  lemma FromFirst(tokens: seq<Token>, N: nat)
    ensures From(tokens, N, 0) == tokens
  {
    NextStart(N, 0);
  }

  lemma FromNext(tokens: seq<Token>, N: nat, i: nat)
    requires |tokens| >= 3 + N
    ensures From(tokens, N, i + 1) == From(tokens[3 + N..], N, i)
  {
    NextStart(N, i);
  }

  /** One good line is stored. */
  lemma LineStored(tokens: seq<Token>, left: nat, d: Dimensions, N: nat, factor: real, field: seq<real>)
    requires |field| == SlotCount(d, N) && left > 0 && GoodAt(tokens, d, N, 0)
    ensures GoodLine(tokens, d, N) && |tokens| >= 3 + N
    ensures ParseBlock(tokens, left, d, N, factor, field)
         == ParseBlock(tokens[3 + N..], left - 1, d, N, factor, Stored(field, d, N, factor, LineIn(tokens, d, N)))
  {
    FromFirst(tokens, N);
    hide ParseBlock, Stored, SlotCount;
    BlockUnfold(tokens, left, d, N, factor, field);
  }

  lemma GoodNext(tokens: seq<Token>, d: Dimensions, N: nat, i: nat)
    requires |tokens| >= 3 + N
    ensures GoodAt(tokens[3 + N..], d, N, i) == GoodAt(tokens, d, N, i + 1)
  {
    FromNext(tokens, N, i);
  }

  /** A block of good lines is read, and each of its lines stored. */
  lemma {:induction false} BlockRead(tokens: seq<Token>, left: nat, d: Dimensions, N: nat, factor: real,
                                     field: seq<real>)
    requires |field| == SlotCount(d, N) && AllGood(tokens, d, N, left)
    ensures ParseBlock(tokens, left, d, N, factor, field)
         == Block(AllStored(field, d, N, factor, LinesIn(tokens, d, N, left)))
    decreases left
  {
    hide GoodAt, Stored, SlotCount, GoodLine;
    if left == 0 {
    } else {
      LineStored(tokens, left, d, N, factor, field);
      var rest := tokens[3 + N..];
      forall i: nat | i < left - 1 ensures GoodAt(rest, d, N, i) {
        GoodNext(tokens, d, N, i);
      }
      BlockRead(rest, left - 1, d, N, factor, Stored(field, d, N, factor, LineIn(tokens, d, N)));
      LinesTail(tokens, left, d, N);
      hide ParseBlock;
    }
  }

  lemma LinesTail(tokens: seq<Token>, left: nat, d: Dimensions, N: nat)
    requires left > 0 && AllGood(tokens, d, N, left) && GoodLine(tokens, d, N)
    requires |tokens| >= 3 + N && AllGood(tokens[3 + N..], d, N, left - 1)
    ensures LinesIn(tokens, d, N, left)[0] == LineIn(tokens, d, N)
    ensures LinesIn(tokens, d, N, left)[1..] == LinesIn(tokens[3 + N..], d, N, left - 1)
  {
    hide GoodLine, LineIn;
    FromFirst(tokens, N);
    var all, rest := LinesIn(tokens, d, N, left), LinesIn(tokens[3 + N..], d, N, left - 1);
    forall i: nat | i < left - 1 ensures all[1..][i] == rest[i] {
      FromNext(tokens, N, i);
      assert all[1..][i] == all[i + 1];
      assert GoodAt(tokens, d, N, i + 1) && GoodAt(tokens[3 + N..], d, N, i);
    }
  }

  predicate StopsAt(tokens: seq<Token>, d: Dimensions, N: nat, n: nat, i: nat) {
    Stops(From(tokens, N, i), d, N, i + 1 == n)
  }

  predicate FaultyAt(tokens: seq<Token>, N: nat, n: nat, i: nat) {
    Faulty(From(tokens, N, i), N, i + 1 == n)
  }

  lemma StopsNext(tokens: seq<Token>, d: Dimensions, N: nat, n: nat, i: nat)
    requires |tokens| >= 3 + N && n > 0
    ensures StopsAt(tokens[3 + N..], d, N, n - 1, i) == StopsAt(tokens, d, N, n, i + 1)
  {
    FromNext(tokens, N, i);
  }

  /** The loop comes to its end if and only if it stops at none of the lines. */
  lemma {:induction false} GoesIff(tokens: seq<Token>, n: nat, d: Dimensions, N: nat)
    ensures Goes(tokens, n, d, N) <==> forall i: nat :: i < n ==> !StopsAt(tokens, d, N, n, i)
    decreases n
  {
    if n == 0 {
    } else {
      FromFirst(tokens, N);
      assert StopsAt(tokens, d, N, n, 0) == Stops(tokens, d, N, n == 1);
      GoesUnfold(tokens, n, d, N);
      hide *;
      if |tokens| >= 3 + N {
        GoesIff(tokens[3 + N..], n - 1, d, N);
        GoesRest(tokens, n, tokens[3 + N..], n - 1, d, N);
      }
    }
  }

  lemma GoesUnfold(tokens: seq<Token>, n: nat, d: Dimensions, N: nat)
    requires n > 0
    ensures Goes(tokens, n, d, N) ==> !Stops(tokens, d, N, n == 1)
    ensures !Stops(tokens, d, N, n == 1) && n > 1 ==>
      |tokens| >= 3 + N && Goes(tokens, n, d, N) == Goes(tokens[3 + N..], n - 1, d, N)
    ensures !Stops(tokens, d, N, n == 1) && n == 1 ==> Goes(tokens, n, d, N)
  {
    hide AllNumbers;
  }

  lemma GoesRest(tokens: seq<Token>, n: nat, rest: seq<Token>, m: nat, d: Dimensions, N: nat)
    requires |tokens| >= 3 + N && rest == tokens[3 + N..] && n == m + 1
    ensures (forall i: nat :: i < n ==> !StopsAt(tokens, d, N, n, i)) <==>
      !StopsAt(tokens, d, N, n, 0) && forall i: nat :: i < m ==> !StopsAt(rest, d, N, m, i)
  {
    hide StopsAt;
    forall i: nat | i < m ensures StopsAt(rest, d, N, m, i) == StopsAt(tokens, d, N, n, i + 1) {
      StopsNext(tokens, d, N, n, i);
    }
    if j: nat :| j < n && StopsAt(tokens, d, N, n, j) {
      assert j > 0 ==> StopsAt(rest, d, N, m, j - 1);
    }
  }

  /** An exception is thrown if and only if the loop stops. */
  lemma {:induction false} BadIff(tokens: seq<Token>, left: nat, d: Dimensions, N: nat, factor: real, field: seq<real>)
    requires |field| == SlotCount(d, N)
    ensures ParseBlock(tokens, left, d, N, factor, field).BadBlock? <==> !Goes(tokens, left, d, N)
    decreases left
  {
    hide Stored, SlotCount, AllNumbers, ValuesIn;
    if left == 0 {
    } else if StartsLine(tokens) && InSize(tokens, d) && Complete(tokens, N) && !HasZero(tokens) {
      BadIff(tokens[3 + N..], left - 1, d, N, factor, Stored(field, d, N, factor, LineIn(tokens, d, N)));
    }
  }

  /** A block that is read has good lines only. */
  lemma {:induction false} ReadIsGood(tokens: seq<Token>, left: nat, d: Dimensions, N: nat, factor: real,
                                      field: seq<real>)
    requires |field| == SlotCount(d, N) && ParseBlock(tokens, left, d, N, factor, field).Block?
    ensures AllGood(tokens, d, N, left)
    decreases left
  {
    if left == 0 {
    } else {
      FromFirst(tokens, N);
      FirstIsGood(tokens, left, d, N, factor, field);
      hide *;
      ReadIsGood(tokens[3 + N..], left - 1, d, N, factor, Stored(field, d, N, factor, LineIn(tokens, d, N)));
      RestGood(tokens, d, N, left);
    }
  }

  lemma FirstIsGood(tokens: seq<Token>, left: nat, d: Dimensions, N: nat, factor: real, field: seq<real>)
    requires |field| == SlotCount(d, N) && left > 0 && ParseBlock(tokens, left, d, N, factor, field).Block?
    ensures GoodLine(tokens, d, N) && |tokens| >= 3 + N && GoodAt(tokens, d, N, 0)
    ensures ParseBlock(tokens[3 + N..], left - 1, d, N, factor,
                       Stored(field, d, N, factor, LineIn(tokens, d, N))).Block?
  {
    FromFirst(tokens, N);
    hide Stored, SlotCount, AllNumbers, ValuesIn, From, Goes;
  }

  lemma RestGood(tokens: seq<Token>, d: Dimensions, N: nat, n: nat)
    requires n > 0 && |tokens| >= 3 + N && GoodAt(tokens, d, N, 0) && AllGood(tokens[3 + N..], d, N, n - 1)
    ensures AllGood(tokens, d, N, n)
  {
    hide GoodAt;
    forall i: nat | i < n ensures GoodAt(tokens, d, N, i) {
      if i > 0 {
        GoodNext(tokens, d, N, i - 1);
      }
    }
  }

  /** No line stops the loop, but some line is at fault: it has an index zero, or is
      the last one and incomplete. */
  ghost predicate Overlooked(tokens: seq<Token>, d: Dimensions, N: nat, n: nat) {
    && (forall i: nat :: i < n ==> !StopsAt(tokens, d, N, n, i))
    && exists i: nat :: i < n && FaultyAt(tokens, N, n, i)
  }

  /** Exactly when a block is rejected, read, and passes with a fault. */
  lemma BlockIff(tokens: seq<Token>, n: nat, d: Dimensions, N: nat, factor: real, field: seq<real>)
    requires |field| == SlotCount(d, N)
    ensures ParseBlock(tokens, n, d, N, factor, field).BadBlock? <==>
      exists i: nat :: i < n && StopsAt(tokens, d, N, n, i)
    ensures ParseBlock(tokens, n, d, N, factor, field).Block? <==> AllGood(tokens, d, N, n)
    ensures ParseBlock(tokens, n, d, N, factor, field).UncheckedBlock? <==> Overlooked(tokens, d, N, n)
  {
    hide ParseBlock, GoodAt, StopsAt, FaultyAt, SlotCount, Goes;
    BadIff(tokens, n, d, N, factor, field);
    GoesIff(tokens, n, d, N);
    if AllGood(tokens, d, N, n) {
      BlockRead(tokens, n, d, N, factor, field);
    }
    if ParseBlock(tokens, n, d, N, factor, field).Block? {
      ReadIsGood(tokens, n, d, N, factor, field);
    }
    forall i: nat | i < n
      ensures GoodAt(tokens, d, N, i) <==> !StopsAt(tokens, d, N, n, i) && !FaultyAt(tokens, N, n, i)
    {
      GoodAtIff(tokens, d, N, n, i);
    }
  }

  lemma GoodAtIff(tokens: seq<Token>, d: Dimensions, N: nat, n: nat, i: nat)
    ensures GoodAt(tokens, d, N, i) <==> !StopsAt(tokens, d, N, n, i) && !FaultyAt(tokens, N, n, i)
  {
    hide From, GoodLine, Stops, Faulty;
    GoodOrNot(From(tokens, N, i), d, N, i + 1 == n);
  }

  // ----- the file

  /** The first 19 tokens can be read as a header. */
  predicate HeaderReads(t: seq<Token>) {
    && |t| >= 19 && Get(t, 8).Number? && Get(t, 9).Number? && Get(t, 10).Number?
    && t[15].Index? && t[16].Index? && t[17].Index?
  }

  function SizeIn(t: seq<Token>): Dimensions
    requires HeaderReads(t)
  {
    Dimensions(t[15].n, t[16].n, t[17].n)
  }

  /** Exactly which files are rejected, which are read, and which pass with a fault. */
  lemma ParsedIff(file: File, N: nat, factor: real, um: real)
    ensures var t := file.tokens;
      Parse(file, N, factor, um).InvalidData? <==>
        !HeaderReads(t) ||
        exists i: nat :: i < SizeIn(t).Cells() && StopsAt(t[19..], SizeIn(t), N, SizeIn(t).Cells(), i)
    ensures var t := file.tokens;
      Parse(file, N, factor, um).Parsed? <==> HeaderReads(t) && AllGood(t[19..], SizeIn(t), N, SizeIn(t).Cells())
    ensures var t := file.tokens;
      Parse(file, N, factor, um).Unchecked? <==>
        HeaderReads(t) && Overlooked(t[19..], SizeIn(t), N, SizeIn(t).Cells())
  {
    hide ParseBlock, SlotCount, Zeros, Dimensions.Cells, AllGood, Overlooked, Internal, StopsAt;
    var t := file.tokens;
    if HeaderReads(t) {
      var d := SizeIn(t);
      BlockIff(t[19..], d.Cells(), d, N, factor, Zeros(SlotCount(d, N)));
    }
  }

  // ----- a file that has been cut off

  lemma BlockLength(lines: seq<Line>, d: Dimensions, N: nat)
    requires Proper(d, N, lines) && lines != []
    ensures |LineTokens(lines[0])| == 3 + N && Proper(d, N, lines[1..])
    ensures |BlockTokens(lines)| == 3 + N + |BlockTokens(lines[1..])|
    ensures |lines| > 1 ==> |BlockTokens(lines[1..])| >= 3 + N
  {
    hide LineTokens;
    LineLength(lines[0], N);
    if |lines| > 1 {
      LineLength(lines[1], N);
      assert lines[1..][0] == lines[1];
    }
  }

  lemma LineLength(l: Line, N: nat)
    requires |l.values| == N
    ensures |LineTokens(l)| == 3 + N
  {}

  /** A block cut off behind its first p tokens is rejected, unless all that is
      missing are components of its last line. */
  lemma {:induction false} CutBlock(lines: seq<Line>, p: nat, d: Dimensions, N: nat, factor: real, field: seq<real>)
    requires Proper(d, N, lines) && |field| == SlotCount(d, N) && p < |BlockTokens(lines)|
    ensures ParseBlock(BlockTokens(lines)[..p], |lines|, d, N, factor, field)
         == if p + N >= |BlockTokens(lines)| then UncheckedBlock else BadBlock
    decreases |lines|
  {
    NoLines();
    hide *;
    if lines == [] {
    } else {
      BlockLength(lines, d, N);
      var head, rest := LineTokens(lines[0]), BlockTokens(lines[1..]);
      BlockJoin(lines);
      if p < 3 + N {
        assert |lines| == 1 ==> lines[1..] == [];
        CutFirst(lines, p, d, N, factor, field);
      } else {
        TakeBehind(head, rest, p);
        ParseLine(lines, rest[..p - (3 + N)], d, N, factor, field);
        CutBlock(lines[1..], p - (3 + N), d, N, factor, Stored(field, d, N, factor, lines[0]));
      }
    }
  }

  lemma NoLines()
    ensures BlockTokens([]) == []
  {}

  lemma BlockJoin(lines: seq<Line>)
    requires lines != []
    ensures BlockTokens(lines) == LineTokens(lines[0]) + BlockTokens(lines[1..])
  {}

  lemma TakeBehind(head: seq<Token>, rest: seq<Token>, p: nat)
    requires |head| <= p < |head + rest|
    ensures (head + rest)[..p] == head + rest[..p - |head|]
  {}

  /** The cut is in the first line. */
  lemma CutFirst(lines: seq<Line>, p: nat, d: Dimensions, N: nat, factor: real, field: seq<real>)
    requires Proper(d, N, lines) && |field| == SlotCount(d, N) && lines != [] && p < 3 + N
    requires |LineTokens(lines[0])| == 3 + N && p < |BlockTokens(lines)|
    ensures ParseBlock(BlockTokens(lines)[..p], |lines|, d, N, factor, field)
         == if p >= 3 && |lines| == 1 then UncheckedBlock else BadBlock
  {
    var t := BlockTokens(lines)[..p];
    assert t == LineTokens(lines[0])[..p];
    assert InGrid(d, lines[0].cell);
    hide ParseBlock, Stored, SlotCount, BlockTokens;
    BlockUnfold(t, |lines|, d, N, factor, field);
  }

  /** A written file cut off behind its first p tokens: it is rejected, unless all
      that is missing are components of its last line. */
  lemma CutFile(f: FieldData, N: nat, units: string, factor: real, um: real, p: nat)
    requires um != 0.0 && factor != 0.0 && |f.data| == SlotCount(f.dimensions, N)
    requires p < |Written(f, N, units, factor, um).tokens|
    ensures var t := Written(f, N, units, factor, um).tokens;
      Parse(File(f.header, t[..p]), N, factor, um) == if p >= 19 && p + N >= |t| then Unchecked else InvalidData
  {
    var d := f.dimensions;
    var lines := LinesBefore(f, N, factor, d.x, 0, 0);
    var head, block := HeaderTokens(f, units, um), BlockTokens(lines);
    assert |head| == 19;
    hide LinesBefore, BlockTokens, ParseBlock, SlotCount, AllStored, Zeros, Dimensions.Cells, HeaderTokens, Proper,
         Internal;
    var t := Written(f, N, units, factor, um).tokens;
    assert t == head + block;
    if p >= 19 {
      hide Parse;
      assert t[..p] == head + block[..p - 19];
      AllLinesStored(f, N, factor, Zeros(SlotCount(d, N)));
      CutBlock(lines, p - 19, d, N, factor, Zeros(SlotCount(d, N)));
      HeaderParses(f, N, units, factor, um, block[..p - 19]);
    }
  }

  /** A file of one cell with three components, the last one cut off. */
  lemma CutOffUnnoticed(f: FieldData) returns (t: seq<Token>)
    requires f == FieldData("", Dimensions(1, 1, 1), 1.0, 1.0, 1.0, [2.0, 3.0, 4.0], 1.0)
    ensures t < Written(f, 3, "", 1.0, 1.0).tokens && Parse(File("", t), 3, 1.0, 1.0) == Unchecked
  {
    assert f.dimensions.Cells() == 1 && SlotCount(f.dimensions, 3) == 3;
    hide *;
    var all := Written(f, 3, "", 1.0, 1.0).tokens;
    t := all[..|all| - 1];
    OneCellLength(f, 3, "", 1.0, 1.0);
    CutFile(f, 3, "", 1.0, 1.0, |all| - 1);
  }

  lemma OneCellLength(f: FieldData, N: nat, units: string, factor: real, um: real)
    requires um != 0.0 && factor != 0.0 && |f.data| == SlotCount(f.dimensions, N) && f.dimensions.Cells() == 1
    ensures |Written(f, N, units, factor, um).tokens| == 19 + 3 + N
  {
    hide *;
    var lines := LinesBefore(f, N, factor, f.dimensions.x, 0, 0);
    AllLinesStored(f, N, factor, f.data);
    WrittenLength(f, N, units, factor, um, lines);
    BlockLength(lines, f.dimensions, N);
    NoLines();
    assert lines[1..] == [];
  }

  lemma WrittenLength(f: FieldData, N: nat, units: string, factor: real, um: real, lines: seq<Line>)
    requires um != 0.0 && factor != 0.0 && |f.data| == SlotCount(f.dimensions, N)
    requires lines == LinesBefore(f, N, factor, f.dimensions.x, 0, 0)
    ensures |Written(f, N, units, factor, um).tokens| == 19 + |BlockTokens(lines)|
  {
    hide LinesBefore, BlockTokens, SlotCount;
  }

  /** An index zero is not noticed, as long as no line stops the loop. */
  lemma ZeroUnnoticed(file: File, N: nat, factor: real, um: real, i: nat)
    requires HeaderReads(file.tokens) && i < SizeIn(file.tokens).Cells()
    requires var d, block := SizeIn(file.tokens), file.tokens[19..];
      && (forall k: nat :: k < d.Cells() ==> !StopsAt(block, d, N, d.Cells(), k))
      && StartsLine(From(block, N, i)) && HasZero(From(block, N, i))
    ensures Parse(file, N, factor, um) == Unchecked
  {
    hide Parse, StopsAt, From, HasZero, StartsLine, Dimensions.Cells;
    ParsedIff(file, N, factor, um);
    var d, block := SizeIn(file.tokens), file.tokens[19..];
    assert FaultyAt(block, N, d.Cells(), i);
  }

  /** Two lines with an index zero each: behind one of them the file is rejected for
      an index that is too large, behind the other it is not. */
  lemma ZeroFiles(f: FieldData) returns (bad: File, passed: File)
    requires f == FieldData("", Dimensions(2, 1, 1), 1.0, 1.0, 1.0, [2.0, 3.0], 1.0)
    ensures bad.tokens == HeaderTokens(f, "", 1.0)
      + [Index(2), Index(1), Index(0), Number(5.0), Index(3), Index(1), Index(1), Number(1.0)]
    ensures passed.tokens == HeaderTokens(f, "", 1.0)
      + [Index(2), Index(1), Index(0), Number(5.0), Index(2), Index(1), Index(1), Number(1.0)]
    ensures Parse(bad, 1, 1.0, 1.0) == InvalidData && Parse(passed, 1, 1.0, 1.0) == Unchecked
  {
    var line := [Index(2), Index(1), Index(0), Number(5.0)];
    var high, low := [Index(3), Index(1), Index(1), Number(1.0)], [Index(2), Index(1), Index(1), Number(1.0)];
    bad := File("", HeaderTokens(f, "", 1.0) + (line + high));
    passed := File("", HeaderTokens(f, "", 1.0) + (line + low));
    assert f.dimensions.Cells() == 2;
    ZeroBlock(line, high, f.dimensions, Zeros(SlotCount(f.dimensions, 1)));
    ZeroBlock(line, low, f.dimensions, Zeros(SlotCount(f.dimensions, 1)));
    assert line + high == [Index(2), Index(1), Index(0), Number(5.0), Index(3), Index(1), Index(1), Number(1.0)];
    assert line + low == [Index(2), Index(1), Index(0), Number(5.0), Index(2), Index(1), Index(1), Number(1.0)];
    hide ParseBlock, HeaderTokens, Parse;
    HeaderParses(f, 1, "", 1.0, 1.0, line + high);
    HeaderParses(f, 1, "", 1.0, 1.0, line + low);
  }

  /** Two lines of one component, the first with an index zero. */
  lemma ZeroBlock(line: seq<Token>, next: seq<Token>, d: Dimensions, field: seq<real>)
    requires |line| == 4 == |next| && StartsLine(line) && StartsLine(next) && line[3].Number? && next[3].Number?
    requires InSize(line, d) && HasZero(line) && |field| == SlotCount(d, 1)
    ensures ParseBlock(line + next, 2, d, 1, 1.0, field) == if InSize(next, d) then UncheckedBlock else BadBlock
  {
    var t := line + next;
    assert StartsLine(t) && InSize(t, d) && HasZero(t) && t[3..4] == [line[3]] && t[4..] == next;
    assert next[3..4] == [next[3]] && Complete(next, 1) && Complete(t, 1);
    GoesOne(next, d);
    hide ParseBlock, Goes, SlotCount;
    BlockUnfold(t, 2, d, 1, 1.0, field);
  }

  lemma GoesOne(next: seq<Token>, d: Dimensions)
    requires StartsLine(next) && Complete(next, 1)
    ensures Goes(next, 1, d, 1) <==> InSize(next, d)
  {
    assert Goes(next[4..], 0, d, 1);
  }

  // ----- where a wrapped index writes

  const SIZE_T: nat := 0x1_0000_0000_0000_0000

  /** n-- on a size_t. */
  function Decremented(n: nat): nat {
    (n + SIZE_T - 1) % SIZE_T
  }

  /** The slot of component j as the code computes it, without and with wrap-around. */
  function PlainSlot(d: Dimensions, N: nat, x: int, y: int, z: int, j: nat): int {
    x * (d.y * d.z * N) + y * (d.z * N) + z * N + j
  }

  function WrappedSlot(d: Dimensions, N: nat, x: nat, y: nat, z: nat, j: nat): nat {
    PlainSlot(d, N, Decremented(x), Decremented(y), Decremented(z), j) % SIZE_T
  }

  /** For indices in the file that are not too large, the slot is inside the field if
      and only if it is not negative before it wraps around. Anything else is a write
      outside the field, which is undefined behaviour. */
  lemma WrappedInside(d: Dimensions, N: nat, x: nat, y: nat, z: nat, j: nat)
    requires x <= d.x && y <= d.y && z <= d.z && j < N && d.Cells() > 0 && 4 * SlotCount(d, N) <= SIZE_T
    ensures WrappedSlot(d, N, x, y, z, j) < SlotCount(d, N) <==> PlainSlot(d, N, x - 1, y - 1, z - 1, j) >= 0
    ensures PlainSlot(d, N, x - 1, y - 1, z - 1, j) >= 0 ==>
      WrappedSlot(d, N, x, y, z, j) == PlainSlot(d, N, x - 1, y - 1, z - 1, j)
  {
    SlotBounds(d, N, x, y, z, j);
    hide SlotCount, Dimensions.Cells;
    SlotWraps(d, N, x, y, z, j);
    hide *;
    Remainder(PlainSlot(d, N, x - 1, y - 1, z - 1, j), SlotCount(d, N));
  }

  lemma SlotBounds(d: Dimensions, N: nat, x: nat, y: nat, z: nat, j: nat)
    requires x <= d.x && y <= d.y && z <= d.z && j < N && d.Cells() > 0 && 4 * SlotCount(d, N) <= SIZE_T
    ensures x < SIZE_T && y < SIZE_T && z < SIZE_T
    ensures -3 * SlotCount(d, N) <= PlainSlot(d, N, x - 1, y - 1, z - 1, j) < SlotCount(d, N)
  {
    var b := d.z * N;
    var a := d.y * b;
    Positive3(d.x, d.y, d.z);
    Regroup(d.x, d.y, d.z, N);
    AtLeast(d.z, N);
    AtLeast(d.y, b);
    AtLeast(d.x, a);
    Below(x, d.x, a);
    Below(y, d.y, b);
    Below(z, d.z, N);
    assert d.y * d.z * N == a;
  }

  lemma Positive3(x: nat, y: nat, z: nat)
    requires x * y * z > 0
    ensures x > 0 && y > 0 && z > 0
  {}

  lemma Regroup(x: nat, y: nat, z: nat, n: nat)
    ensures x * y * z * n == x * (y * (z * n)) && y * z * n == y * (z * n)
  {}

  lemma AtLeast(k: nat, a: nat)
    requires k > 0 && a > 0
    ensures k * a >= a && k * a >= k
  {}

  lemma Below(n: nat, k: nat, a: nat)
    requires n <= k
    ensures 0 - a <= (n - 1) * a <= k * a - a
  {}

  lemma Remainder(v: int, s: nat)
    requires 4 * s <= SIZE_T && -3 * s <= v < s
    ensures v % SIZE_T == if v >= 0 then v else v + SIZE_T
    ensures v % SIZE_T < s <==> v >= 0
  {}

  lemma DecrementedIs(n: nat)
    requires n < SIZE_T
    ensures Decremented(n) == if n == 0 then n - 1 + SIZE_T else n - 1
  {}

  lemma SlotWraps(d: Dimensions, N: nat, x: nat, y: nat, z: nat, j: nat)
    requires x < SIZE_T && y < SIZE_T && z < SIZE_T
    ensures WrappedSlot(d, N, x, y, z, j) == PlainSlot(d, N, x - 1, y - 1, z - 1, j) % SIZE_T
  {
    DecrementedIs(x);
    DecrementedIs(y);
    DecrementedIs(z);
    hide Decremented;
    var a, b := d.y * d.z * N, d.z * N;
    var p, q, r := if x == 0 then 1 else 0, if y == 0 then 1 else 0, if z == 0 then 1 else 0;
    Shifted(x - 1, p, a);
    Shifted(y - 1, q, b);
    Shifted(z - 1, r, N);
    Multiple(PlainSlot(d, N, x - 1, y - 1, z - 1, j), p * a + q * b + r * N);
  }

  lemma Shifted(n: int, k: nat, a: nat)
    requires k <= 1
    ensures (n + k * SIZE_T) * a == n * a + k * a * SIZE_T
  {}

  lemma Multiple(v: int, k: nat)
    ensures (v + k * SIZE_T) % SIZE_T == v % SIZE_T
  {}
}
