/**
 * Square-tile packing of the member mosaic: one tile side shared by all
 * members, chosen so that a grid of `byRow` columns fills the canvas width and
 * the rows fit its height, then a row-major position per member.
 *
 * Sizes are exact reals. The ideal side, the square root of the area per
 * member, is an input: the model has no square root and does not follow the
 * rounding of floating point.
 */
module Packing {

  import opened Arith

  /** Rounding up to an integer, as Math.ceil does on a finite number. */
  function Ceil(x: real): (r: int)
    ensures (r - 1) as real < x <= r as real
  {
    if x.Floor as real == x then x.Floor else x.Floor + 1
  }

  /** A tile's top-left corner on the canvas. */
  datatype Position = Position(x: real, y: real)

  /** Scaling both sides of `c / w <= n` by a positive w. */
  lemma BelowQuotientBound(c: real, w: real, n: real)
    requires w > 0.0 && c / w <= n
    ensures c <= n * w
  {
    MulLe(c / w, n, w);
  }

  /** Scaling both sides of `m < c / w` by a positive w. */
  lemma AboveQuotientBound(c: real, w: real, m: real)
    requires w > 0.0 && m < c / w
    ensures m * w < c
  {
    MulLt(m, c / w, w);
  }

  /** The column count is the fewest tiles of the ideal side spanning the width. */
  lemma ColumnCount(maxWidth: real, idealSide: real, byRow: int)
    requires maxWidth > 0.0 && idealSide > 0.0 && byRow == Ceil(maxWidth / idealSide)
    ensures byRow >= 1
    ensures (byRow - 1) as real * idealSide < maxWidth <= byRow as real * idealSide
    ensures maxWidth / byRow as real <= idealSide
  {
    AboveQuotientBound(maxWidth, idealSide, (byRow - 1) as real);
    BelowQuotientBound(maxWidth, idealSide, byRow as real);
  }

  /** Shrinking by the overshoot share makes byRow tiles span the width exactly. */
  lemma WidthCorrection(side: real, maxWidth: real, byRow: int)
    requires byRow >= 1
    ensures side - (side * byRow as real - maxWidth) / byRow as real == maxWidth / byRow as real
  {
  }

  /** The row count is the fewest rows of byRow tiles that hold every member. */
  lemma RowCount(count: nat, byRow: int, numberOfRows: int)
    requires byRow >= 1 && numberOfRows == Ceil(count as real / byRow as real)
    ensures numberOfRows >= 0
    ensures (numberOfRows - 1) * byRow < count <= numberOfRows * byRow
    ensures count == 0 <==> numberOfRows == 0
  {
    var w, n := byRow as real, numberOfRows;
    assert 0.0 <= count as real / w;
    AboveQuotientBound(count as real, w, (n - 1) as real);
    CastMul(n - 1, byRow);
    BelowQuotientBound(count as real, w, n as real);
    CastMul(n, byRow);
  }

  /** Shrinking by the overflow share makes the rows span the height exactly. */
  lemma HeightCorrection(side: real, maxHeight: real, numberOfRows: int)
    requires numberOfRows >= 1
    ensures side - (side * numberOfRows as real - maxHeight) / numberOfRows as real == maxHeight / numberOfRows as real
  {
  }

  /** The height-fitted side is below the width-fitted one and still positive. */
  lemma HeightFittedSide(maxWidth: real, maxHeight: real, byRow: int, numberOfRows: int)
    requires maxHeight > 0.0 && byRow >= 1 && numberOfRows >= 1
    requires numberOfRows as real * (maxWidth / byRow as real) > maxHeight
    ensures 0.0 < maxHeight / numberOfRows as real < maxWidth / byRow as real
    ensures numberOfRows as real * (maxHeight / numberOfRows as real) == maxHeight
  {
  }

  /**
   * The tile side and grid of the mosaic. The locals are reassigned in the
   * order the program does it: ideal side, column count, width correction,
   * row count, and a height correction only when the rows overflow.
   */
  method Pack(count: nat, maxWidth: real, maxHeight: real, idealSide: real)
    returns (byRow: nat, numberOfRows: nat, memberSide: real)
    requires maxWidth > 0.0 && maxHeight > 0.0 && idealSide > 0.0
    // the fewest columns of the ideal side that span the width
    ensures byRow >= 1
    ensures (byRow - 1) as real * idealSide < maxWidth <= byRow as real * idealSide
    // the fewest rows of byRow tiles that hold every member
    ensures (numberOfRows - 1) * byRow < count <= numberOfRows * byRow
    ensures count == 0 <==> numberOfRows == 0
    // the side: width-fitted, and height-fitted exactly when the rows overflowed
    ensures numberOfRows as real * (maxWidth / byRow as real) <= maxHeight ==> memberSide == maxWidth / byRow as real
    ensures numberOfRows as real * (maxWidth / byRow as real) > maxHeight ==> memberSide == maxHeight / numberOfRows as real
    ensures count > 0 ==> memberSide == MinReal(maxWidth / byRow as real, maxHeight / numberOfRows as real)
    ensures 0.0 < memberSide <= idealSide
    ensures byRow as real * memberSide <= maxWidth
    ensures numberOfRows as real * memberSide <= maxHeight
    ensures FitsCanvas(count, maxWidth, maxHeight, byRow, numberOfRows, memberSide)
  {
    var maxMemberSide := idealSide;
    var cols := Ceil(maxWidth / maxMemberSide);
    ColumnCount(maxWidth, idealSide, cols);
    byRow := cols;
    var totalWidth := maxMemberSide * byRow as real;
    WidthCorrection(maxMemberSide, maxWidth, byRow);
    maxMemberSide := maxMemberSide - (totalWidth - maxWidth) / byRow as real;

    var rows := Ceil(count as real / byRow as real);
    RowCount(count, byRow, rows);
    numberOfRows := rows;
    var totalHeight := maxMemberSide * numberOfRows as real;

    if totalHeight > maxHeight {
      HeightCorrection(maxMemberSide, maxHeight, numberOfRows);
      HeightFittedSide(maxWidth, maxHeight, byRow, numberOfRows);
      maxMemberSide := maxMemberSide - (totalHeight - maxHeight) / numberOfRows as real;
    }
    memberSide := maxMemberSide;
  }

  /** Column and row of the member at a flattened index. */
  function Column(i: nat, byRow: nat): (c: nat)
    requires byRow >= 1
    ensures c < byRow
  {
    i % byRow
  }

  function Row(i: nat, byRow: nat): (r: nat)
    requires byRow >= 1
    ensures r * byRow <= i < (r + 1) * byRow
  {
    i / byRow
  }

  /** The position of every member, index-aligned with the members; the first one at the origin. */
  function Positions(count: nat, byRow: nat, side: real): (ps: seq<Position>)
    requires byRow >= 1
    ensures |ps| == count
    ensures count >= 1 ==> ps[0] == Position(0.0, 0.0)
  {
    seq(count, i requires 0 <= i < count => Position(Column(i, byRow) as real * side, Row(i, byRow) as real * side))
  }

  /** A grid as the packing leaves it: enough cells, each dimension within the canvas. */
  predicate FitsCanvas(count: nat, maxWidth: real, maxHeight: real, byRow: nat, numberOfRows: nat, side: real) {
    byRow >= 1 && side > 0.0 && count <= numberOfRows * byRow
    && byRow as real * side <= maxWidth && numberOfRows as real * side <= maxHeight
  }

  lemma RowBelowCount(i: nat, count: nat, byRow: nat, numberOfRows: nat)
    requires byRow >= 1 && i < count <= numberOfRows * byRow
    ensures Row(i, byRow) < numberOfRows
  {
    var q := Row(i, byRow);
    assert q * byRow <= i;
    MulMonoInt(numberOfRows, q, byRow);
  }

  /** A cell whose index is below the cell count lies within count * side. */
  lemma CellInside(k: nat, n: nat, side: real, limit: real)
    requires k < n && side > 0.0 && n as real * side <= limit
    ensures 0.0 <= k as real * side
    ensures k as real * side + side <= limit
  {
    assert k as real * side + side == (k + 1) as real * side;
    MulLe((k + 1) as real, n as real, side);
    MulLe(0.0, k as real, side);
  }

  /** Every tile lies inside the canvas. */
  lemma TilesInsideCanvas(count: nat, maxWidth: real, maxHeight: real, byRow: nat, numberOfRows: nat, side: real, i: nat)
    requires FitsCanvas(count, maxWidth, maxHeight, byRow, numberOfRows, side)
    requires i < count
    ensures Column(i, byRow) < byRow && Row(i, byRow) < numberOfRows
    ensures 0.0 <= Positions(count, byRow, side)[i].x
    ensures Positions(count, byRow, side)[i].x + side <= maxWidth
    ensures 0.0 <= Positions(count, byRow, side)[i].y
    ensures Positions(count, byRow, side)[i].y + side <= maxHeight
  {
    var c, r := Column(i, byRow), Row(i, byRow);
    RowBelowCount(i, count, byRow, numberOfRows);
    assert Positions(count, byRow, side)[i] == Position(c as real * side, r as real * side);
    CellInside(c, byRow, side, maxWidth);
    CellInside(r, numberOfRows, side, maxHeight);
  }

  /**
   * Row-major order: the next member sits one tile to the right, or at the
   * start of the next row once a row holds byRow members.
   */
  lemma PositionsRowMajor(count: nat, byRow: nat, side: real, i: nat)
    requires byRow >= 1 && i + 1 < count
    ensures var ps := Positions(count, byRow, side);
      if (i + 1) % byRow != 0 then ps[i + 1] == Position(ps[i].x + side, ps[i].y)
      else ps[i + 1] == Position(0.0, ps[i].y + side)
  {
    var q, c := i / byRow, i % byRow;
    if c + 1 < byRow {
      DivModUnique(i + 1, byRow, q, c + 1);
    } else {
      DivModUnique(i + 1, byRow, q + 1, 0);
    }
  }

  /** Different members get different grid cells, so their tiles do not overlap. */
  lemma CellsDistinct(byRow: nat, i: nat, j: nat)
    requires byRow >= 1 && i != j
    ensures Column(i, byRow) != Column(j, byRow) || Row(i, byRow) != Row(j, byRow)
  {
    assert i == Row(i, byRow) * byRow + Column(i, byRow);
    assert j == Row(j, byRow) * byRow + Column(j, byRow);
  }

  /** All the tiles together cover no more than the canvas. */
  lemma TotalAreaFits(count: nat, maxWidth: real, maxHeight: real, byRow: nat, numberOfRows: nat, side: real)
    requires FitsCanvas(count, maxWidth, maxHeight, byRow, numberOfRows, side)
    ensures count as real * side * side <= maxWidth * maxHeight
  {
    var w, h := byRow as real, numberOfRows as real;
    MulLe(count as real, h * w, side * side);
    assert h * w * (side * side) == (w * side) * (h * side);
    MulLe(w * side, maxWidth, h * side);
    MulLe(h * side, maxHeight, maxWidth);
  }

  /** A member together with the top-left corner of its tile. */
  datatype Tile<T> = Tile(member: T, at: Position)

  /**
   * The whole mosaic: the packing for as many tiles as there are members, and
   * each member placed at the position of its own index.
   */
  method Layout<T>(members: seq<T>, maxWidth: real, maxHeight: real, idealSide: real)
    returns (byRow: nat, numberOfRows: nat, memberSide: real, tiles: seq<Tile<T>>)
    requires maxWidth > 0.0 && maxHeight > 0.0 && idealSide > 0.0
    // the grid and side are those of the packing
    ensures byRow >= 1
    ensures (byRow - 1) as real * idealSide < maxWidth <= byRow as real * idealSide
    ensures (numberOfRows - 1) * byRow < |members| <= numberOfRows * byRow
    ensures |members| == 0 <==> numberOfRows == 0
    ensures numberOfRows as real * (maxWidth / byRow as real) <= maxHeight ==> memberSide == maxWidth / byRow as real
    ensures numberOfRows as real * (maxWidth / byRow as real) > maxHeight ==> memberSide == maxHeight / numberOfRows as real
    ensures |members| > 0 ==> memberSide == MinReal(maxWidth / byRow as real, maxHeight / numberOfRows as real)
    ensures 0.0 < memberSide <= idealSide
    ensures FitsCanvas(|members|, maxWidth, maxHeight, byRow, numberOfRows, memberSide)
    // each member at the position of its own index, inside the canvas
    ensures |tiles| == |members|
    ensures forall i :: 0 <= i < |tiles| ==>
      tiles[i] == Tile(members[i], Positions(|members|, byRow, memberSide)[i])
    ensures forall i :: 0 <= i < |tiles| ==>
      0.0 <= tiles[i].at.x && tiles[i].at.x + memberSide <= maxWidth &&
      0.0 <= tiles[i].at.y && tiles[i].at.y + memberSide <= maxHeight
  {
    byRow, numberOfRows, memberSide := Pack(|members|, maxWidth, maxHeight, idealSide);
    var ps := Positions(|members|, byRow, memberSide);
    tiles := seq(|members|, i requires 0 <= i < |members| => Tile(members[i], ps[i]));
    forall i | 0 <= i < |tiles|
      ensures 0.0 <= tiles[i].at.x && tiles[i].at.x + memberSide <= maxWidth
      ensures 0.0 <= tiles[i].at.y && tiles[i].at.y + memberSide <= maxHeight
    {
      TilesInsideCanvas(|members|, maxWidth, maxHeight, byRow, numberOfRows, memberSide, i);
    }
  }

  /** Four members on a 200 x 100 canvas, ideal side 70.71: three columns, two rows, side 50. */
  method FourOnTwoHundredByHundred() returns (side: real, ps: seq<Position>)
    ensures side == 50.0
    ensures ps == [Position(0.0, 0.0), Position(50.0, 0.0), Position(100.0, 0.0), Position(0.0, 50.0)]
  {
    var byRow, rows;
    byRow, rows, side := Pack(4, 200.0, 100.0, 70.71);
    assert byRow == 3;
    assert rows == 2;
    ps := Positions(4, byRow, side);
  }
}
