// The EGM84 vertical datum's height field: the 721 × 361 geoid grid, read
// west to east from longitude 0 and north to south from latitude 90, is
// re-indexed into a height field whose origin is at longitude −180 and
// latitude −90, and the first column is copied into the last so that the
// field wraps around the globe.

module EGM84 {

  /** The grid's size: 721 columns of longitude and 361 rows of latitude,
      half a degree apart. */
  const Columns: nat := 721
  const Rows: nat := 361
  const ColumnStep: real := 0.5
  const RowStep: real := 0.5

  /** The height field's origin: longitude −180, latitude −90. */
  const OriginX: real := -180.0
  const OriginY: real := -90.0

  // ---------------------------------------------------------------------
  // The re-indexing

  /** The longitude of source column `c`, moved into −180..180. Every value
      here and below is a multiple of one half well within the precision
      of a float, so the exact arithmetic is the float arithmetic. */
  function InputLon(c: nat): real {
    var lon := 0.0 + c as real * ColumnStep;
    if lon >= 180.0 then lon - 360.0 else lon
  }

  /** The latitude of source row `r`: row 0 is the north pole. */
  function InputLat(r: nat): real {
    90.0 - r as real * RowStep
  }

  /** The output column of source column `c`, as the constructor computes
      it; the unsigned conversion of a positive value is its floor. */
  function OutColumn(c: nat): int {
    ((InputLon(c) - OriginX) / ColumnStep).Floor
  }

  /** The output row of source row `r`. */
  function OutRow(r: nat): int {
    ((InputLat(r) - OriginY) / RowStep).Floor
  }

  /** The source column each output column below 720 comes from. */
  function SourceColumn(oc: nat): nat {
    if oc >= 360 then oc - 360 else oc + 360
  }

  /** The source row each output row comes from. */
  function SourceRow(or: nat): int {
    360 - or
  }

  /** The position in the source table of the height at source column `c`
      and row `r`. */
  function SourceIndex(c: nat, r: nat): nat {
    r * Columns + c
  }

  /** The first half of the source columns, east of Greenwich, go to the
      second half of the output columns, and the second half, west of
      it, to the first. */
  lemma OutColumnValue(c: nat)
    requires c < Columns - 1
    ensures OutColumn(c) == if c < 360 then c + 360 else c - 360
  {
    var lon := InputLon(c);
    if c < 360 {
      assert lon == c as real * 0.5;
      assert (lon - OriginX) / ColumnStep == (c + 360) as real;
    } else {
      assert lon == c as real * 0.5 - 360.0;
      assert (lon - OriginX) / ColumnStep == (c - 360) as real;
    }
  }

  /** Source row `r` goes to output row `360 − r`. */
  lemma OutRowValue(r: nat)
    requires r < Rows
    ensures OutRow(r) == 360 - r
  {
    assert (InputLat(r) - OriginY) / RowStep == (360 - r) as real;
  }

  /** The column re-indexing is a bijection on 0..719 whose inverse is
      `SourceColumn`. */
  lemma ColumnsBijective(c: nat, c': nat, oc: nat)
    requires c < Columns - 1 && c' < Columns - 1 && oc < Columns - 1
    ensures 0 <= OutColumn(c) < Columns - 1
    ensures SourceColumn(OutColumn(c) as nat) == c
    ensures SourceColumn(oc) < Columns - 1 && OutColumn(SourceColumn(oc)) == oc
    ensures OutColumn(c) == OutColumn(c') ==> c == c'
  {
    OutColumnValue(c);
    OutColumnValue(c');
    OutColumnValue(SourceColumn(oc));
  }

  /** The row re-indexing is a bijection on 0..360, its own inverse. */
  lemma RowsBijective(r: nat, r': nat)
    requires r < Rows && r' < Rows
    ensures 0 <= OutRow(r) < Rows
    ensures OutRow(OutRow(r) as nat) == r
    ensures SourceRow(OutRow(r) as nat) == r
    ensures OutRow(r) == OutRow(r') ==> r == r'
  {
    OutRowValue(r);
    OutRowValue(r');
    OutRowValue(OutRow(r) as nat);
  }

  /** Every height the constructor reads lies inside the source table. */
  lemma SourceIndexInRange(c: nat, r: nat)
    requires c < Columns - 1 && r < Rows
    ensures SourceIndex(c, r) < Columns * Rows
    ensures SourceIndex(c, r) % Columns == c && SourceIndex(c, r) / Columns == r
  {
  }

  /** The heights the constructor writes: the source table's centimetres as
      metres. */
  function Meters(cm: int): real {
    cm as real / 100.0
  }

  // ---------------------------------------------------------------------
  // The height field

  /** An `osg::HeightField`: its origin, its spacing, and its heights by
      column and row. */
  class HeightField {
    var originX: real
    var originY: real
    var xInterval: real
    var yInterval: real
    const heights: array2<real>

    /** `allocate(cols, rows)`: every height zero. */
    constructor Allocate(cols: nat, rows: nat)
      ensures fresh(heights)
      ensures heights.Length0 == cols && heights.Length1 == rows
      ensures forall c, r :: 0 <= c < cols && 0 <= r < rows ==> heights[c, r] == 0.0
      ensures originX == 0.0 && originY == 0.0 && xInterval == 1.0 && yInterval == 1.0
    {
      originX, originY := 0.0, 0.0;
      xInterval, yInterval := 1.0, 1.0;
      heights := new real[cols, rows]((c, r) => 0.0);
    }

    function GetHeight(c: nat, r: nat): real
      requires c < heights.Length0 && r < heights.Length1
      reads heights
    {
      heights[c, r]
    }

    /** `setHeight(c, r, h)`: that one height changes. */
    method SetHeight(c: nat, r: nat, h: real)
      requires c < heights.Length0 && r < heights.Length1
      modifies heights
      ensures heights[c, r] == h
      ensures forall c', r' :: 0 <= c' < heights.Length0 && 0 <= r' < heights.Length1 && (c', r') != (c, r) ==>
        heights[c', r'] == old(heights[c', r'])
    {
      heights[c, r] := h;
    }
  }

  /** The height the constructor leaves at output column `oc` and row `or`
      once the source columns below `done` are written, before the wrap
      column is copied. */
  function Expected(grid: seq<int>, done: nat, oc: nat, or: nat): real
    requires |grid| == Columns * Rows && oc < Columns && or < Rows
  {
    if oc < Columns - 1 && SourceColumn(oc) < done then Meters(grid[SourceIndex(SourceColumn(oc), SourceRow(or) as nat)])
    else 0.0
  }

  /** The body of the constructor's outer loop: source column `c`, row by
      row, written to its output column. */
  method WriteColumn(hf: HeightField, grid: seq<int>, c: nat)
    requires |grid| == Columns * Rows && c < Columns - 1
    requires hf.heights.Length0 == Columns && hf.heights.Length1 == Rows
    modifies hf.heights
    ensures forall oc, or :: 0 <= oc < Columns && 0 <= or < Rows ==>
      hf.heights[oc, or] == (if oc == OutColumn(c) then Meters(grid[SourceIndex(c, SourceRow(or) as nat)]) else old(hf.heights[oc, or]))
  {
    OutColumnValue(c);
    var inputLon := InputLon(c);
    var outc := ((inputLon - OriginX) / ColumnStep).Floor;
    for r := 0 to Rows
      invariant forall oc, or :: 0 <= oc < Columns && 0 <= or < Rows ==>
        hf.heights[oc, or] == (if oc == outc && SourceRow(or) < r then Meters(grid[SourceIndex(c, SourceRow(or) as nat)]) else old(hf.heights[oc, or]))
    {
      OutRowValue(r);
      SourceIndexInRange(c, r);
      var inputLat := InputLat(r);
      var outr := ((inputLat - OriginY) / RowStep).Floor;
      hf.SetHeight(outc as nat, outr as nat, Meters(grid[r * Columns + c]));
    }
  }

  /** The constructor of the EGM84 vertical datum: a 721 × 361 height
      field at origin (−180, −90) with half-degree spacing, each output
      column below 720 holding its source column upside down, and column
      720 a copy of column 0. */
  method BuildHeightField(grid: seq<int>) returns (hf: HeightField)
    requires |grid| == Columns * Rows
    ensures fresh(hf) && fresh(hf.heights)
    ensures hf.heights.Length0 == Columns && hf.heights.Length1 == Rows
    ensures hf.originX == OriginX && hf.originY == OriginY && hf.xInterval == ColumnStep && hf.yInterval == RowStep
    ensures forall oc, or :: 0 <= oc < Columns - 1 && 0 <= or < Rows ==>
      hf.heights[oc, or] == Meters(grid[SourceIndex(SourceColumn(oc), SourceRow(or) as nat)])
    ensures forall or :: 0 <= or < Rows ==> hf.heights[Columns - 1, or] == hf.heights[0, or]
  {
    hf := new HeightField.Allocate(Columns, Rows);
    hf.originX, hf.originY := OriginX, OriginY;
    hf.xInterval, hf.yInterval := ColumnStep, RowStep;
    for c := 0 to Columns - 1
      invariant hf.originX == OriginX && hf.originY == OriginY && hf.xInterval == ColumnStep && hf.yInterval == RowStep
      invariant forall oc, or :: 0 <= oc < Columns && 0 <= or < Rows ==> hf.heights[oc, or] == Expected(grid, c, oc, or)
    {
      WriteColumn(hf, grid, c);
      ColumnsBijective(c, c, 0);
      forall oc: nat | oc < Columns - 1
        ensures oc == OutColumn(c) <==> SourceColumn(oc) == c
      {
        ColumnsBijective(c, c, oc);
      }
    }
    for r := 0 to Rows
      invariant hf.originX == OriginX && hf.originY == OriginY && hf.xInterval == ColumnStep && hf.yInterval == RowStep
      invariant forall oc, or :: 0 <= oc < Columns - 1 && 0 <= or < Rows ==> hf.heights[oc, or] == Expected(grid, Columns - 1, oc, or)
      invariant forall or :: 0 <= or < r ==> hf.heights[Columns - 1, or] == hf.heights[0, or]
    {
      hf.SetHeight(Columns - 1, r, hf.GetHeight(0, r));
    }
  }
}
