/** The loops of parse_init_file. */
module FieldReader {
  import opened FieldSlots
  import opened FieldParser
  import opened FieldFaults
  import opened FieldLayout

  /** parse_init_file: which files it reads, which it rejects, and which pass with a
      fault; and what it reads, token by token. */
  method ParseInit(file: File, N: nat, factor: real, um: real) returns (r: ParseResult)
    ensures r == Parse(file, N, factor, um)
    ensures r.Parsed? ==>
      HeaderFrom(file, um, r.field) && DataFrom(file.tokens, r.field.dimensions, N, factor, r.field.data)
    ensures r.InvalidData? <==>
      !HeaderOpen(file.tokens) ||
      var t := file.tokens;
      var d := Dimensions(t[15].n, t[16].n, t[17].n);
      exists i: nat :: i < d.x * d.y * d.z && Throws(t, d, N, d.x * d.y * d.z, i)
    ensures r.InvalidData? <==>
      !HeaderReads(file.tokens) ||
      var n := SizeIn(file.tokens).Cells();
      exists i: nat :: i < n && StopsAt(file.tokens[19..], SizeIn(file.tokens), N, n, i)
    ensures r.Parsed? <==>
      HeaderReads(file.tokens) && AllGood(file.tokens[19..], SizeIn(file.tokens), N, SizeIn(file.tokens).Cells())
    ensures r.Unchecked? <==>
      HeaderReads(file.tokens) && Overlooked(file.tokens[19..], SizeIn(file.tokens), N, SizeIn(file.tokens).Cells())
  {
    hide AllGood, Overlooked, StopsAt, HeaderFrom, DataFrom, Throws;
    ParsedIff(file, N, factor, um);
    RejectedIff(file, N, factor, um);
    if Parse(file, N, factor, um).Parsed? {
      ReadFrom(file, N, factor, um);
    }
    var t := file.tokens;
    if |t| < 19 || !Get(t, 8).Number? || !Get(t, 9).Number? || !Get(t, 10).Number?
      || !t[15].Index? || !t[16].Index? || !t[17].Index? {
      return InvalidData;
    }
    var norm := 1.0;
    if Get(t, 1).Number? {
      norm := Get(t, 1).r;
    }
    var thickness, xpixsz, ypixsz := Internal(Get(t, 8).r, um), Internal(Get(t, 9).r, um), Internal(Get(t, 10).r, um);
    var d := Dimensions(t[15].n, t[16].n, t[17].n);
    var block := ReadBlock(t[19..], d, N, factor);
    hide ParseBlock, Internal, SlotCount, Dimensions.Cells;
    match block
    case Block(field) => return Parsed(FieldData(file.header, d, xpixsz, ypixsz, thickness, field, norm));
    case BadBlock => return InvalidData;
    case UncheckedBlock => return Unchecked;
  }

  /** The loop over the data lines. */
  method ReadBlock(tokens: seq<Token>, d: Dimensions, N: nat, factor: real) returns (r: BlockResult)
    ensures r == ParseBlock(tokens, d.Cells(), d, N, factor, Zeros(SlotCount(d, N)))
  {
    hide SlotCount, Stored, Dimensions.Cells, AllNumbers, ParseBlock, Zeros, ValuesIn, Goes;
    var vertices := d.Cells();
    var field := Zeros(SlotCount(d, N));
    var rest := tokens;
    var faulty := false;
    ghost var outcome := ParseBlock(tokens, vertices, d, N, factor, field);
    for i := 0 to vertices
      invariant |field| == SlotCount(d, N)
      invariant !faulty ==> ParseBlock(rest, vertices - i, d, N, factor, field) == outcome
      invariant faulty ==> outcome == if Goes(rest, vertices - i, d, N) then UncheckedBlock else BadBlock
    {
      BlockUnfold(rest, vertices - i, d, N, factor, field);
      GoesStep(rest, vertices - i, d, N);
      if |rest| < 3 || !rest[0].Index? || !rest[1].Index? || !rest[2].Index? {
        return BadBlock;
      }
      var x, y, z := rest[0].n, rest[1].n, rest[2].n;
      if x > d.x || y > d.y || z > d.z {
        return BadBlock;
      }
      var complete;
      if x == 0 || y == 0 || z == 0 {
        complete := SkipComponents(rest[3..], N);
        faulty := true;
      } else {
        complete, field := ReadComponents(rest[3..], d, N, factor, Cell(x - 1, y - 1, z - 1), field);
      }
      assert |rest| >= 3 + N ==> rest[3..][..N] == rest[3..3 + N];
      if !complete {
        return if i + 1 == vertices then UncheckedBlock else BadBlock;
      }
      rest := rest[3 + N..];
    }
    BlockUnfold(rest, 0, d, N, factor, field);
    GoesStep(rest, 0, d, N);
    return if faulty then UncheckedBlock else Block(field);
  }

  lemma GoesStep(tokens: seq<Token>, left: nat, d: Dimensions, N: nat)
    ensures left == 0 ==> Goes(tokens, left, d, N)
    ensures left > 0 && (!StartsLine(tokens) || !InSize(tokens, d)) ==> !Goes(tokens, left, d, N)
    ensures left > 0 && StartsLine(tokens) && InSize(tokens, d) ==>
      Goes(tokens, left, d, N) == if Complete(tokens, N) then Goes(tokens[3 + N..], left - 1, d, N) else left == 1
  {
    hide AllNumbers;
  }

  /** The loop over the components for an index that has wrapped around: they are
      read, but where they are written is not followed. */
  method SkipComponents(tokens: seq<Token>, N: nat) returns (complete: bool)
    ensures complete <==> |tokens| >= N && AllNumbers(tokens[..N])
  {
    for j := 0 to N
      invariant j <= |tokens| && AllNumbers(tokens[..j])
    {
      if j >= |tokens| {
        return false;
      }
      if !NumberIn(tokens[j]).Number? {
        assert |tokens| >= N ==> tokens[..N][j] == tokens[j];
        return false;
      }
      assert tokens[..j + 1] == tokens[..j] + [tokens[j]];
    }
    return true;
  }

  /** The loop over the components of one line; incomplete when one cannot be read. */
  method ReadComponents(tokens: seq<Token>, d: Dimensions, N: nat, factor: real, c: Cell, field0: seq<real>)
    returns (complete: bool, field: seq<real>)
    requires InGrid(d, c) && |field0| == SlotCount(d, N)
    ensures complete <==> |tokens| >= N && AllNumbers(tokens[..N])
    ensures complete ==> field == Stored(field0, d, N, factor, Line(c, ValuesIn(tokens[..N])))
  {
    field := field0;
    if N == 0 {
      return true, field;
    }
    ghost var base := SlotOf(d, N, c, 0);
    BaseFits(d, N, c);
    hide SlotOf, SlotCount, Internal, InGrid;
    for j := 0 to N
      invariant j <= |tokens| && AllNumbers(tokens[..j]) && base + N <= |field0|
      invariant field == field0[..base] + ScaledBy(ValuesIn(tokens[..j]), factor) + field0[base + j..]
    {
      if j >= |tokens| {
        return false, field;
      }
      if !NumberIn(tokens[j]).Number? {
        assert |tokens| >= N ==> tokens[..N][j] == tokens[j];
        return false, field;
      }
      SlotFormula(d, N, c, j);
      SlotFromBase(d, N, c, j);
      var input := NumberIn(tokens[j]).r;
      field := field[(c.x * d.y * d.z * N) + (c.y * d.z * N) + (c.z * N) + j := Internal(input, factor)];
      ComponentStored(field0, base, tokens, j, N, factor);
    }
    return true, field;
  }

  lemma BaseFits(d: Dimensions, N: nat, c: Cell)
    requires InGrid(d, c) && N > 0
    ensures SlotOf(d, N, c, 0) + N <= SlotCount(d, N)
  {
    SlotBelow(d, N, c, 0);
  }

  lemma SlotFromBase(d: Dimensions, N: nat, c: Cell, j: nat)
    ensures SlotOf(d, N, c, j) == SlotOf(d, N, c, 0) + j
  {}

  lemma ComponentStored(field0: seq<real>, base: nat, tokens: seq<Token>, j: nat, N: nat, factor: real)
    requires j < |tokens| && j < N && base + N <= |field0| && AllNumbers(tokens[..j]) && NumberIn(tokens[j]).Number?
    ensures AllNumbers(tokens[..j + 1])
    ensures var before := field0[..base] + ScaledBy(ValuesIn(tokens[..j]), factor) + field0[base + j..];
      before[base + j := Internal(NumberIn(tokens[j]).r, factor)]
         == field0[..base] + ScaledBy(ValuesIn(tokens[..j + 1]), factor) + field0[base + (j + 1)..]
  {
    hide Internal;
    assert forall i :: 0 <= i < j ==> tokens[..j][i] == tokens[..j + 1][i];
    assert ValuesIn(tokens[..j + 1]) == ValuesIn(tokens[..j]) + [NumberIn(tokens[j]).r];
    assert ScaledBy(ValuesIn(tokens[..j + 1]), factor)
        == ScaledBy(ValuesIn(tokens[..j]), factor) + [Internal(NumberIn(tokens[j]).r, factor)];
  }
}
