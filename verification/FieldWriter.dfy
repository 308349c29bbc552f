/** The loops of write_init_file. */
module FieldWriter {
  import opened FieldSlots
  import opened FieldParser
  import opened FieldLayout

  lemma {:induction false} BlockMore(lines: seq<Line>, l: Line)
    ensures BlockTokens(lines + [l]) == BlockTokens(lines) + LineTokens(l)
  {
    hide LineTokens;
    if lines == [] {
      assert lines + [l] == [l] && BlockTokens([l]) == LineTokens(l) + BlockTokens([]);
    } else {
      BlockMore(lines[1..], l);
      assert (lines + [l])[1..] == lines[1..] + [l];
    }
  }

  datatype WriteResult = Wrote(file: File) | InvalidDimensions

  /** writeFile with the INIT format. */
  method WriteInit(f: FieldData, N: nat, units: string, factor: real, um: real) returns (r: WriteResult)
    requires um != 0.0 && factor != 0.0
    ensures r.InvalidDimensions? <==> |f.data| != SlotCount(f.dimensions, N)
    ensures r.Wrote? ==> r.file == Written(f, N, units, factor, um)
    ensures r.Wrote? ==>
      r.file.header == f.header && HeaderTo(r.file.tokens, units, um, f) && DataTo(r.file.tokens, N, factor, f)
  {
    hide HeaderTo, DataTo, SlotCount, LinesBefore, BlockTokens, ValuesOf, HeaderTokens, SlotOf;
    var d := f.dimensions;
    if |f.data| != SlotCount(d, N) {
      return InvalidDimensions;
    }
    var head := HeaderTokens(f, units, um);
    var block: seq<Token> := [];
    LinesStart(f, N, factor);
    for x := 0 to d.x
      invariant block == BlockTokens(LinesBefore(f, N, factor, x, 0, 0))
    {
      for y := 0 to d.y
        invariant block == BlockTokens(LinesBefore(f, N, factor, x, y, 0))
      {
        for z := 0 to d.z
          invariant block == BlockTokens(LinesBefore(f, N, factor, x, y, z))
        {
          ghost var before := block;
          ghost var c := Cell(x, y, z);
          block := block + [Index(x + 1), Index(y + 1), Index(z + 1)];
          ghost var values := ValuesOf(f, N, factor, c);
          for j := 0 to N
            invariant block == before + [Index(x + 1), Index(y + 1), Index(z + 1)] + Numbers(values[..j])
          {
            SlotFormula(d, N, c, j);
            ValueAt(f, N, factor, c, j);
            block := block + [Number(f.data[x * d.y * d.z * N + y * d.z * N + z * N + j] / factor)];
            NumbersMore(values, j);
          }
          assert values[..N] == values;
          LinesNext(f, N, factor, x, y, z);
          BlockMore(LinesBefore(f, N, factor, x, y, z), LineOf(f, N, factor, c));
        }
        LinesTurn(f, N, factor, x, y);
      }
      LinesTurn(f, N, factor, x, 0);
    }
    WrittenTo(f, N, units, factor, um);
    return Wrote(File(f.header, head + block));
  }

  lemma NumbersMore(values: seq<real>, j: nat)
    requires j < |values|
    ensures Numbers(values[..j + 1]) == Numbers(values[..j]) + [Number(values[j])]
  {}

  lemma LinesStart(f: FieldData, N: nat, factor: real)
    requires factor != 0.0 && |f.data| == SlotCount(f.dimensions, N)
    ensures LinesBefore(f, N, factor, 0, 0, 0) == [] && BlockTokens([]) == []
  {}

  lemma LinesNext(f: FieldData, N: nat, factor: real, x: nat, y: nat, z: nat)
    requires factor != 0.0 && |f.data| == SlotCount(f.dimensions, N) && InGrid(f.dimensions, Cell(x, y, z))
    ensures LinesBefore(f, N, factor, x, y, z + 1)
         == LinesBefore(f, N, factor, x, y, z) + [LineOf(f, N, factor, Cell(x, y, z))]
  {}

  lemma LinesTurn(f: FieldData, N: nat, factor: real, x: nat, y: nat)
    requires factor != 0.0 && |f.data| == SlotCount(f.dimensions, N) && x < f.dimensions.x
    ensures y < f.dimensions.y ==>
      LinesBefore(f, N, factor, x, y + 1, 0) == LinesBefore(f, N, factor, x, y, f.dimensions.z)
    ensures LinesBefore(f, N, factor, x + 1, 0, 0) == LinesBefore(f, N, factor, x, f.dimensions.y, 0)
  {}
}
