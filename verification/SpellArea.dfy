/** Areas of effect (src/combat.h, src/combat.cpp): bitmaps with a centre, turned and mirrored for the
    other directions, and the list of tiles an area covers around a target. */
module SpellArea {
  import Arithmetic

  type Coord = c: int | 0 <= c < 0x1_0000

  datatype Position = Position(x: Coord, y: Coord, z: int)

  datatype Direction = North | East | South | West | SouthWest | SouthEast | NorthWest | NorthEast

  datatype Operation = Copy | Mirror | Flip | Rotate90 | Rotate180 | Rotate270

  datatype Option<+T> = None | Some(value: T)

  function Wrap16(c: int): Coord {
    c % 0x1_0000
  }

  function Max(a: nat, b: nat): nat {
    if a > b then a else b
  }

  /** Cosine and sine of the angle of a rotation, exact at the quarter turns. */
  function Cos(op: Operation): int {
    if op == Rotate180 then -1 else if op == Rotate90 || op == Rotate270 then 0 else 1
  }

  function Sin(op: Operation): int {
    if op == Rotate90 then 1 else if op == Rotate270 then -1 else 0
  }

  /** Where the rotation takes the offset (x, y); y grows southwards. */
  function RotatedX(op: Operation, x: int, y: int): int {
    match op
    case Rotate90 => -y
    case Rotate180 => -x
    case Rotate270 => y
    case _ => x
  }

  function RotatedY(op: Operation, x: int, y: int): int {
    match op
    case Rotate90 => x
    case Rotate180 => -y
    case Rotate270 => -x
    case _ => y
  }

  /** These are the products with the rotation matrix that the code rounds to integers. */
  lemma RotationMatrix(op: Operation, x: int, y: int)
    ensures RotatedX(op, x, y) == x * Cos(op) + y * -Sin(op)
    ensures RotatedY(op, x, y) == x * Sin(op) + y * Cos(op)
  {
  }

  predicate IsRotation(op: Operation) {
    op == Rotate90 || op == Rotate180 || op == Rotate270
  }

  /** The bits of an area, row by row. */
  type Cells = seq<seq<bool>>

  class MatrixArea {
    var centerX: int
    var centerY: int
    const rows: nat
    const cols: nat
    const data: array2<bool>

    constructor (rows: nat, cols: nat)
      ensures Valid() && fresh(data)
      ensures this.rows == rows && this.cols == cols && centerX == centerY == 0
      ensures Blank()
    {
      this.rows := rows;
      this.cols := cols;
      centerX, centerY := 0, 0;
      data := new bool[rows, cols]((_, _) => false);
    }

    predicate Valid() {
      data.Length0 == rows && data.Length1 == cols
    }

    ghost predicate Blank()
      requires Valid()
      reads data
    {
      forall y, x :: 0 <= y < rows && 0 <= x < cols ==> !data[y, x]
    }

    predicate CenterInside()
      reads this
    {
      0 <= centerX < cols && 0 <= centerY < rows
    }

    /** The centre lies inside the square of the greater side, in which the area is turned; an area without cells
        needs none. */
    predicate CenterInSquare()
      reads this
    {
      rows > 0 && cols > 0 ==> 0 <= centerX < Max(cols, rows) && 0 <= centerY < Max(cols, rows)
    }

    ghost function Cells(): (cells: Cells)
      requires Valid()
      reads data
      ensures |cells| == rows && forall y :: 0 <= y < rows ==> |cells[y]| == cols
      ensures forall y, x :: 0 <= y < rows && 0 <= x < cols ==> cells[y][x] == data[y, x]
    {
      seq(rows, y requires 0 <= y < rows reads data => seq(cols, x requires 0 <= x < cols reads data => data[y, x]))
    }

    /** What the bitmap means: the offset (dx, dy) from the centre is covered. */
    predicate Covers(dx: int, dy: int)
      requires Valid()
      reads this, data
    {
      0 <= centerX + dx < cols && 0 <= centerY + dy < rows && data[centerY + dy, centerX + dx]
    }

    method SetCenter(y: int, x: int)
      modifies this
      ensures centerX == x && centerY == y
    {
      centerX := x;
      centerY := y;
    }

    method SetValue(row: nat, col: nat, value: bool)
      requires Valid() && row < rows && col < cols
      modifies data
      ensures forall y, x :: 0 <= y < rows && 0 <= x < cols ==>
                data[y, x] == if y == row && x == col then value else old(data[y, x])
    {
      data[row, col] := value;
    }
  }

  /** The output holds the turned image of the input columns before `x`, and of column `x` above row `y`. */
  ghost predicate TurnedUpTo(output: MatrixArea, rc: int, cells: Cells, cx: int, cy: int, op: Operation, x: int, y: int)
    requires output.Valid() && IsRotation(op)
    reads output.data
  {
    forall u, v {:trigger Turned(cells, cx, cy, op, u, v, x, y)} ::
        0 <= rc + v < output.rows && 0 <= rc + u < output.cols ==>
      output.data[rc + v, rc + u] == Turned(cells, cx, cy, op, u, v, x, y)
  }

  method RotateCell(input: MatrixArea, output: MatrixArea, op: Operation, rc: int, x: nat, y: nat, ghost cells: Cells)
    requires input.Valid() && output.Valid() && input != output && input.data != output.data
    requires IsRotation(op) && output.rows == output.cols == 2 * Max(input.cols, input.rows)
             && rc == Max(input.cols, input.rows) - 1
    requires input.CenterInSquare() && x < input.cols && y < input.rows && cells == input.Cells()
    requires TurnedUpTo(output, rc, cells, input.centerX, input.centerY, op, x, y)
    modifies output.data
    ensures TurnedUpTo(output, rc, cells, input.centerX, input.centerY, op, x, y + 1)
  {
    var cx, cy, value := input.centerX, input.centerY, input.data[y, x];
    assert value == cells[y][x];
    var rotatedX := RotatedX(op, x - cx, y - cy);
    var rotatedY := RotatedY(op, x - cx, y - cy);
    InsideTwice(op, x - cx, y - cy, input.cols, input.rows);
    output.SetValue(rotatedY + rc, rotatedX + rc, value);
    forall u, v {:trigger Turned(cells, cx, cy, op, u, v, x, y + 1)} | 0 <= rc + v < output.rows
        && 0 <= rc + u < output.cols
      ensures output.data[rc + v, rc + u] == Turned(cells, cx, cy, op, u, v, x, y + 1)
    {
      TurnedStep(cells, cx, cy, op, u, v, x, y);
    }
  }

  /** The quarter turns of copyArea: every write stays inside the output, and an offset is covered
      after the turn exactly when the offset it came from was covered before. */
  method Rotate(input: MatrixArea, output: MatrixArea, op: Operation)
    requires input.Valid() && output.Valid() && input != output && input.data != output.data
    requires IsRotation(op) && output.Blank()
    requires output.rows == output.cols == 2 * Max(input.cols, input.rows)
    requires input.CenterInSquare()
    modifies output, output.data
    ensures forall dx, dy :: output.Covers(RotatedX(op, dx, dy), RotatedY(op, dx, dy)) <==> input.Covers(dx, dy)
    ensures input.rows > 0 && input.cols > 0 ==> output.CenterInside()
  {
    ghost var cells := input.Cells();
    var rc := output.cols / 2 - 1;
    var x := 0;
    while x < input.cols
      invariant 0 <= x <= input.cols
      invariant TurnedUpTo(output, rc, cells, input.centerX, input.centerY, op, x, 0)
    {
      var y := 0;
      while y < input.rows
        invariant 0 <= y <= input.rows
        invariant TurnedUpTo(output, rc, cells, input.centerX, input.centerY, op, x, y)
      {
        RotateCell(input, output, op, rc, x, y, cells);
        y := y + 1;
      }
      NextColumn(output, rc, cells, input.centerX, input.centerY, op, x, input.rows);
      x := x + 1;
    }
    output.SetCenter(rc, rc);
    forall dx, dy
      ensures output.Covers(RotatedX(op, dx, dy), RotatedY(op, dx, dy)) <==> input.Covers(dx, dy)
    {
      TurnedAll(input, output, op, rc, dx, dy);
    }
  }

  lemma NextColumn(output: MatrixArea, rc: int, cells: Cells, cx: int, cy: int, op: Operation, x: nat, rows: nat)
    requires output.Valid() && IsRotation(op) && rows == |cells|
    requires TurnedUpTo(output, rc, cells, cx, cy, op, x, rows)
    ensures TurnedUpTo(output, rc, cells, cx, cy, op, x + 1, 0)
  {
    forall u, v {:trigger Turned(cells, cx, cy, op, u, v, x + 1, 0)} | 0 <= rc + v < output.rows
        && 0 <= rc + u < output.cols
      ensures output.data[rc + v, rc + u] == Turned(cells, cx, cy, op, u, v, x + 1, 0)
    {
      assert output.data[rc + v, rc + u] == Turned(cells, cx, cy, op, u, v, x, rows);
    }
  }

  lemma TurnedAll(input: MatrixArea, output: MatrixArea, op: Operation, rc: int, dx: int, dy: int)
    requires input.Valid() && output.Valid() && IsRotation(op)
    requires output.rows == output.cols == 2 * (rc + 1) && rc == Max(input.cols, input.rows) - 1
    requires input.CenterInSquare()
    requires output.centerX == output.centerY == rc
    requires TurnedUpTo(output, rc, input.Cells(), input.centerX, input.centerY, op, input.cols, 0)
    ensures output.Covers(RotatedX(op, dx, dy), RotatedY(op, dx, dy)) <==> input.Covers(dx, dy)
  {
    var u, v := RotatedX(op, dx, dy), RotatedY(op, dx, dy);
    TurnedWhole(input, op, dx, dy);
    if input.Covers(dx, dy) {
      InsideTwice(op, dx, dy, input.cols, input.rows);
    }
  }

  lemma TurnedWhole(input: MatrixArea, op: Operation, dx: int, dy: int)
    requires input.Valid() && IsRotation(op)
    ensures Turned(input.Cells(), input.centerX, input.centerY, op, RotatedX(op, dx, dy), RotatedY(op, dx, dy),
            input.cols, 0)
            <==> input.Covers(dx, dy)
  {
    BackAgain(op, dx, dy);
  }

  /** Where copyArea takes the offset (x, y).  Mirroring and flipping take the new centre from the wrong
      side length, which shifts the image by `skew`, the difference of columns and rows. */
  function ImageX(op: Operation, skew: int, x: int, y: int): int {
    if op == Mirror then skew - x else RotatedX(op, x, y)
  }

  function ImageY(op: Operation, skew: int, x: int, y: int): int {
    if op == Flip then -skew - y else RotatedY(op, x, y)
  }

  /** `output` covers exactly the images of what `input` covers. */
  ghost predicate IsImage(input: MatrixArea, output: MatrixArea, op: Operation)
    requires input.Valid() && output.Valid()
    reads input, input.data, output, output.data
  {
    var skew := input.cols - input.rows;
    forall dx, dy :: output.Covers(ImageX(op, skew, dx, dy), ImageY(op, skew, dx, dy)) <==> input.Covers(dx, dy)
  }

  method MirrorInto(input: MatrixArea, output: MatrixArea)
    requires input.Valid() && output.Valid() && input != output && input.data != output.data && output.Blank()
    requires output.rows >= input.rows && output.cols >= input.cols
    modifies output, output.data
    ensures IsImage(input, output, Mirror)
  {
    var y := 0;
    while y < input.rows
      invariant 0 <= y <= input.rows
      invariant forall v, u :: 0 <= v < output.rows && 0 <= u < output.cols ==>
                  output.data[v, u] == (v < y && u < input.cols && input.data[v, input.cols - 1 - u])
    {
      var rx := 0;
      var x := input.cols;
      while x > 0
        invariant 0 <= x <= input.cols && rx == input.cols - x
        invariant forall v, u :: 0 <= v < output.rows && 0 <= u < output.cols ==>
                    output.data[v, u]
                        == ((v < y || (v == y && u < rx)) && u < input.cols && input.data[v, input.cols - 1 - u])
      {
        x := x - 1;
        output.data[y, rx] := input.data[y, x];
        rx := rx + 1;
      }
      y := y + 1;
    }
    output.SetCenter(input.centerY, input.rows - 1 - input.centerX);
  }

  method FlipInto(input: MatrixArea, output: MatrixArea)
    requires input.Valid() && output.Valid() && input != output && input.data != output.data && output.Blank()
    requires output.rows >= input.rows && output.cols >= input.cols
    modifies output, output.data
    ensures IsImage(input, output, Flip)
  {
    var x := 0;
    while x < input.cols
      invariant 0 <= x <= input.cols
      invariant forall v, u :: 0 <= v < output.rows && 0 <= u < output.cols ==>
                  output.data[v, u] == (u < x && v < input.rows && input.data[input.rows - 1 - v, u])
    {
      var ry := 0;
      var y := input.rows;
      while y > 0
        invariant 0 <= y <= input.rows && ry == input.rows - y
        invariant forall v, u :: 0 <= v < output.rows && 0 <= u < output.cols ==>
                    output.data[v, u]
                        == ((u < x || (u == x && v < ry)) && v < input.rows && input.data[input.rows - 1 - v, u])
      {
        y := y - 1;
        output.data[ry, x] := input.data[y, x];
        ry := ry + 1;
      }
      x := x + 1;
    }
    output.SetCenter(input.cols - 1 - input.centerY, input.centerX);
  }

  method CopyInto(input: MatrixArea, output: MatrixArea)
    requires input.Valid() && output.Valid() && input != output && input.data != output.data && output.Blank()
    requires output.rows >= input.rows && output.cols >= input.cols
    modifies output, output.data
    ensures IsImage(input, output, Copy)
  {
    var y := 0;
    while y < input.rows
      invariant 0 <= y <= input.rows
      invariant forall v, u :: 0 <= v < output.rows && 0 <= u < output.cols ==>
                  output.data[v, u] == (v < y && u < input.cols && input.data[v, u])
    {
      var x := 0;
      while x < input.cols
        invariant 0 <= x <= input.cols
        invariant forall v, u :: 0 <= v < output.rows && 0 <= u < output.cols ==>
                    output.data[v, u] == ((v < y || (v == y && u < x)) && u < input.cols && input.data[v, u])
      {
        output.data[y, x] := input.data[y, x];
        x := x + 1;
      }
      y := y + 1;
    }
    output.SetCenter(input.centerY, input.centerX);
  }

  /** Copying, mirroring, flipping or turning an area into a blank one; every write stays inside. */
  method CopyArea(input: MatrixArea, output: MatrixArea, op: Operation)
    requires input.Valid() && output.Valid() && input != output && input.data != output.data && output.Blank()
    requires if IsRotation(op) then output.rows == output.cols == 2 * Max(input.cols, input.rows)
             else output.rows >= input.rows && output.cols >= input.cols
    requires IsRotation(op) ==> input.CenterInSquare()
    modifies output, output.data
    ensures IsImage(input, output, op)
  {
    if op == Copy {
      CopyInto(input, output);
    } else if op == Mirror {
      MirrorInto(input, output);
    } else if op == Flip {
      FlipInto(input, output);
    } else {
      Rotate(input, output, op);
    }
  }

  /** As many columns as rows, or nothing covered. */
  ghost predicate SquareOrEmpty(area: MatrixArea)
    requires area.Valid()
    reads area, area.data
  {
    area.rows == area.cols || forall dx, dy :: !area.Covers(dx, dy)
  }

  /** The image under mirroring is the true reflection exactly for such areas. */
  lemma MirrorExactlyForSquares(input: MatrixArea, output: MatrixArea)
    requires input.Valid() && output.Valid() && IsImage(input, output, Mirror)
    ensures (forall dx, dy {:trigger input.Covers(dx, dy)} :: output.Covers(-dx, dy) <==> input.Covers(dx, dy)) <==>
            SquareOrEmpty(input)
  {
    var skew := input.cols - input.rows;
    forall dx, dy
      ensures output.Covers(skew - dx, dy) <==> input.Covers(dx, dy)
    {
      assert output.Covers(ImageX(Mirror, skew, dx, dy), ImageY(Mirror, skew, dx, dy)) <==> input.Covers(dx, dy);
    }
    ReflectedExactly(input, output, skew, 0, -1, 1);
  }

  /** So is the image under flipping. */
  lemma FlipExactlyForSquares(input: MatrixArea, output: MatrixArea)
    requires input.Valid() && output.Valid() && IsImage(input, output, Flip)
    ensures (forall dx, dy {:trigger input.Covers(dx, dy)} :: output.Covers(dx, -dy) <==> input.Covers(dx, dy)) <==>
            SquareOrEmpty(input)
  {
    var skew := input.cols - input.rows;
    forall dx, dy
      ensures output.Covers(dx, -skew - dy) <==> input.Covers(dx, dy)
    {
      assert output.Covers(ImageX(Flip, skew, dx, dy), ImageY(Flip, skew, dx, dy)) <==> input.Covers(dx, dy);
    }
    ReflectedExactly(input, output, 0, -skew, 1, -1);
  }

  /** An offset with its signs changed. */
  function Signed(sign: int, d: int): int {
    if sign < 0 then -d else d
  }

  /** A reflection displaced by (px, py) is the true one exactly if it is not displaced or nothing is covered. */
  lemma ReflectedExactly(input: MatrixArea, output: MatrixArea, px: int, py: int, sx: int, sy: int)
    requires input.Valid() && output.Valid()
    requires forall dx, dy {:trigger input.Covers(dx, dy)} ::
             output.Covers(px + Signed(sx, dx), py + Signed(sy, dy)) <==> input.Covers(dx, dy)
    ensures (forall dx, dy {:trigger input.Covers(dx, dy)} ::
            output.Covers(Signed(sx, dx), Signed(sy, dy)) <==> input.Covers(dx, dy)) <==>
            (px == 0 && py == 0) || forall dx, dy :: !input.Covers(dx, dy)
  {
    if (px != 0 || py != 0)
        && forall dx, dy {:trigger input.Covers(dx, dy)} ::
        output.Covers(Signed(sx, dx), Signed(sy, dy)) <==> input.Covers(dx, dy) {
      TwiceReflected(input, output, px, py, sx, sy);
      forall dx, dy
        ensures !input.Covers(dx, dy)
      {
        if input.Covers(dx, dy) {
          NoPeriod(input, -Signed(sx, px), -Signed(sy, py), dx, dy);
        }
      }
    } else if forall dx, dy :: !input.Covers(dx, dy) {
      forall u, v
        ensures !output.Covers(u, v)
      {
        assert !input.Covers(Signed(sx, u - px), Signed(sy, v - py));
      }
    }
  }

  /** What is covered at an offset is covered at the displaced one too. */
  ghost predicate Repeats(area: MatrixArea, px: int, py: int, u: int, v: int)
    requires area.Valid()
    reads area, area.data
  {
    area.Covers(u, v) ==> area.Covers(u + px, v + py)
  }

  lemma TwiceReflected(input: MatrixArea, output: MatrixArea, px: int, py: int, sx: int, sy: int)
    requires input.Valid() && output.Valid()
    requires forall dx, dy {:trigger input.Covers(dx, dy)} ::
             output.Covers(px + Signed(sx, dx), py + Signed(sy, dy)) <==> input.Covers(dx, dy)
    requires forall dx, dy {:trigger input.Covers(dx, dy)} ::
             output.Covers(Signed(sx, dx), Signed(sy, dy)) <==> input.Covers(dx, dy)
    ensures forall u, v {:trigger Repeats(input, -Signed(sx, px), -Signed(sy, py), u, v)} ::
            Repeats(input, -Signed(sx, px), -Signed(sy, py), u, v)
  {
    var qx, qy := -Signed(sx, px), -Signed(sy, py);
    forall u, v
      ensures Repeats(input, qx, qy, u, v)
    {
      assert px + Signed(sx, u + qx) == Signed(sx, u) && py + Signed(sy, v + qy) == Signed(sy, v);
      assert input.Covers(u + qx, v + qy) <==> output.Covers(px + Signed(sx, u + qx), py + Signed(sy, v + qy));
      assert input.Covers(u, v) <==> output.Covers(Signed(sx, u), Signed(sy, v));
    }
  }

  /** A finite area is not its own translate. */
  lemma NoPeriod(area: MatrixArea, px: int, py: int, dx: int, dy: int)
    requires area.Valid() && (px != 0 || py != 0) && area.Covers(dx, dy)
    requires forall u, v {:trigger Repeats(area, px, py, u, v)} :: Repeats(area, px, py, u, v)
    ensures false
    decreases if px > 0 then area.cols - area.centerX - dx else if px < 0 then area.centerX + dx
              else if py > 0 then area.rows - area.centerY - dy else area.centerY + dy
  {
    assert Repeats(area, px, py, dx, dy);
    NoPeriod(area, px, py, dx + px, dy + py);
  }

  /** The bit the output must hold at offset (u, v) once the input columns before `x`, and in column `x`
      the rows before `y`, have been written. */
  ghost predicate Turned(cells: Cells, cx: int, cy: int, op: Operation, u: int, v: int, x: int, y: int)
    requires IsRotation(op)
  {
    var inX := cx + BackX(op, u, v);
    var inY := cy + BackY(op, u, v);
    && 0 <= inY < |cells| && 0 <= inX < |cells[inY]|
    && (inX < x || (inX == x && inY < y))
    && cells[inY][inX]
  }

  /** Turned offsets inside the input stay inside the square of twice its greater side. */
  lemma InsideTwice(op: Operation, dx: int, dy: int, cols: nat, rows: nat)
    requires IsRotation(op) && -(Max(cols, rows) as int) < dx < cols && -(Max(cols, rows) as int) < dy < rows
    ensures 0 <= RotatedX(op, dx, dy) + (Max(cols, rows) - 1) < 2 * Max(cols, rows)
    ensures 0 <= RotatedY(op, dx, dy) + (Max(cols, rows) - 1) < 2 * Max(cols, rows)
  {
  }

  /** The cell (x, y) of an area with its centre at (cx, cy) is written inside the output. */
  predicate WrittenInside(op: Operation, cols: nat, rows: nat, cx: int, cy: int, x: int, y: int) {
    && 0 <= RotatedX(op, x - cx, y - cy) + (Max(cols, rows) - 1) < 2 * Max(cols, rows)
    && 0 <= RotatedY(op, x - cx, y - cy) + (Max(cols, rows) - 1) < 2 * Max(cols, rows)
  }

  /** All cells are, in all three turns, exactly when the centre lies in the square of the greater side. */
  lemma TurnsStayInside(cols: nat, rows: nat, cx: nat, cy: nat)
    requires cols > 0 && rows > 0
    ensures (forall op, x, y :: IsRotation(op) && 0 <= x < cols && 0 <= y < rows ==>
            WrittenInside(op, cols, rows, cx, cy, x, y))
       <==> cx < Max(cols, rows) && cy < Max(cols, rows)
  {
    if forall op, x, y :: IsRotation(op) && 0 <= x < cols && 0 <= y < rows ==>
        WrittenInside(op, cols, rows, cx, cy, x, y) {
      assert WrittenInside(Rotate90, cols, rows, cx, cy, 0, 0) && WrittenInside(Rotate270, cols, rows, cx, cy, 0, 0);
    }
  }

  lemma BackAgain(op: Operation, dx: int, dy: int)
    requires IsRotation(op)
    ensures BackX(op, RotatedX(op, dx, dy), RotatedY(op, dx, dy)) == dx
    ensures BackY(op, RotatedX(op, dx, dy), RotatedY(op, dx, dy)) == dy
  {
  }

  lemma TurnedStep(cells: Cells, cx: int, cy: int, op: Operation, u: int, v: int, x: nat, y: nat)
    requires IsRotation(op) && y < |cells| && x < |cells[y]|
    ensures Turned(cells, cx, cy, op, u, v, x, y + 1) ==
            if u == RotatedX(op, x - cx, y - cy) && v == RotatedY(op, x - cx, y - cy) then cells[y][x]
            else Turned(cells, cx, cy, op, u, v, x, y)
  {
  }

  /** The offset a rotation brings to (u, v). */
  function BackX(op: Operation, u: int, v: int): int
    requires IsRotation(op)
  {
    match op
    case Rotate90 => v
    case Rotate180 => -u
    case Rotate270 => -v
  }

  function BackY(op: Operation, u: int, v: int): int
    requires IsRotation(op)
  {
    match op
    case Rotate90 => -u
    case Rotate180 => -v
    case Rotate270 => u
  }

  // Building areas from lists of cells.

  /** Cells are 0 for nothing, 1 for covered, 2 for the centre, 3 for a covered centre. */
  predicate IsCovered(cell: int) {
    cell == 1 || cell == 3
  }

  predicate IsCenter(cell: int) {
    cell == 2 || cell == 3
  }

  /** The last cell marked as the centre, -1 if there is none. */
  function LastCenter(list: seq<int>): (k: int)
    ensures -1 <= k < |list|
    ensures k >= 0 ==> IsCenter(list[k])
    ensures forall j :: k < j < |list| ==> !IsCenter(list[j])
  {
    if list == [] then -1
    else if IsCenter(list[|list| - 1]) then |list| - 1
    else LastCenter(list[..|list| - 1])
  }

  /** Row-major layout of a grid with `cols` columns. */
  function Cell(cols: nat, y: nat, x: nat): nat {
    if y == 0 then x else Cell(cols, y - 1, x) + cols
  }

  lemma {:induction false} CellIsRowMajor(cols: nat, y: nat, x: nat)
    ensures Cell(cols, y, x) == y * cols + x
  {
    if y > 0 {
      CellIsRowMajor(cols, y - 1, x);
    }
  }

  lemma {:induction false} CellInside(cols: nat, rows: nat, y: nat, x: nat)
    requires x < cols && y < rows
    ensures Cell(cols, y, x) < Cell(cols, rows, 0)
  {
    if y > 0 {
      CellInside(cols, rows - 1, y - 1, x);
    } else if rows > 1 {
      CellInside(cols, rows - 1, 0, x);
    }
  }

  lemma {:induction false} CellNext(cols: nat, y: nat, x: nat)
    ensures Cell(cols, y, x) == Cell(cols, y, 0) + x
    ensures Cell(cols, y, x + 1) == Cell(cols, y, x) + 1
    ensures Cell(cols, y, cols) == Cell(cols, y + 1, 0)
  {
    if y > 0 {
      CellNext(cols, y - 1, x);
    }
  }

  lemma {:induction false} CellMonotone(cols: nat, y: nat, z: nat, x: nat)
    requires y <= z
    ensures Cell(cols, y, 0) <= Cell(cols, z, x)
    decreases z
  {
    CellNext(cols, z, x);
    if y < z {
      CellMonotone(cols, y, z - 1, 0);
    }
  }

  /** As many columns as make full rows; what is left of a ragged list lies behind the grid. */
  function ColumnsOf(list: seq<int>, rows: nat): nat {
    if rows == 0 then 0 else |list| / rows
  }

  lemma GridInside(list: seq<int>, rows: nat)
    ensures Cell(ColumnsOf(list, rows), rows, 0) <= |list|
    ensures rows > 0 && |list| % rows == 0 ==> Cell(ColumnsOf(list, rows), rows, 0) == |list|
  {
    CellIsRowMajor(ColumnsOf(list, rows), rows, 0);
    if rows > 0 {
      Arithmetic.DivBounds(|list|, rows);
    }
  }

  /** Nothing behind the grid is covered. */
  predicate StaysInside(list: seq<int>, rows: nat) {
    forall k :: Cell(ColumnsOf(list, rows), rows, 0) <= k < |list| ==> !IsCovered(list[k])
  }

  /** The centre lies in the square of the grid's greater side, or the grid has no cells. */
  predicate CenterFits(list: seq<int>, rows: nat) {
    var cols := ColumnsOf(list, rows);
    rows > 0 && cols > 0 ==> LastCenter(list) < Cell(cols, Max(cols, rows), 0)
  }

  /** Full rows are always in order. */
  lemma FullRowsFit(list: seq<int>, rows: nat)
    requires if rows == 0 then list == [] else |list| % rows == 0
    ensures StaysInside(list, rows) && CenterFits(list, rows)
  {
    GridInside(list, rows);
    CellMonotone(ColumnsOf(list, rows), rows, Max(ColumnsOf(list, rows), rows), 0);
  }

  /** Two rows, of two cells and of one: the third covered cell has no place in the grid of two. */
  lemma RaggedOverruns()
    ensures !StaysInside([1, 1, 1], 2)
  {
    assert Cell(1, 2, 0) == Cell(1, 1, 0) + 1 && Cell(1, 1, 0) == Cell(1, 0, 0) + 1;
    assert IsCovered([1, 1, 1][2]);
  }

  /** `area` is what a list of cells in rows of `area.cols` describes. */
  ghost predicate Describes(list: seq<int>, area: MatrixArea)
    requires area.Valid()
    reads area, area.data
  {
    && Cell(area.cols, area.rows, 0) <= |list|
    && (forall y, x :: 0 <= y < area.rows && 0 <= x < area.cols ==>
          Cell(area.cols, y, x) < |list| && (area.data[y, x] <==> IsCovered(list[Cell(area.cols, y, x)])))
    && Centered(area, list)
  }

  /** The list is entered cell by cell, until one has no place in the grid. */
  method CreateArea(list: seq<int>, rows: nat) returns (area: MatrixArea, inside: bool)
    ensures fresh(area) && fresh(area.data) && area.Valid() && area.rows == rows && area.cols == ColumnsOf(list, rows)
    ensures inside == StaysInside(list, rows)
    ensures inside ==> Describes(list, area) && (area.CenterInSquare() <==> CenterFits(list, rows))
  {
    var cols := ColumnsOf(list, rows);
    GridInside(list, rows);
    area, inside := FillArea(list, rows, cols);
    if inside {
      CenterFitsExactly(area, list);
    }
  }

  lemma CenterFitsExactly(area: MatrixArea, list: seq<int>)
    requires area.Valid() && Centered(area, list) && area.cols == ColumnsOf(list, area.rows)
    ensures area.CenterInSquare() <==> CenterFits(list, area.rows)
  {
    var cols, m := area.cols, Max(area.cols, area.rows);
    if area.rows > 0 && cols > 0 && LastCenter(list) >= 0 {
      if area.centerY < m {
        CellInside(cols, m, area.centerY, area.centerX);
      } else {
        CellMonotone(cols, m, area.centerY, area.centerX);
      }
    }
  }

  method EnterCell(area: MatrixArea, list: seq<int>, k: nat, y: nat, x: nat)
    requires area.Valid() && k < |list| && Enters(area.cols, y, x, k)
    requires Centered(area, list[..k]) && Filled(area, list, y, x)
    requires IsCovered(list[k]) ==> y < area.rows && x < area.cols
    modifies area, area.data
    ensures Centered(area, list[..k + 1]) && Filled(area, list, y, x + 1)
  {
    var value := list[k];
    CenterNext(list, k);
    if IsCovered(value) {
      area.SetValue(y, x, true);
    }
    if IsCenter(value) {
      area.SetCenter(y, x);
    }
  }

  /** The loop enters cell k of the list at (y, x). */
  predicate Enters(cols: nat, y: nat, x: nat, k: nat) {
    k == Cell(cols, y, x) && if cols > 0 then x < cols else y == 0
  }

  method FillArea(list: seq<int>, rows: nat, cols: nat) returns (area: MatrixArea, inside: bool)
    requires Cell(cols, rows, 0) <= |list| && cols == ColumnsOf(list, rows)
    ensures fresh(area) && fresh(area.data) && area.Valid() && area.rows == rows && area.cols == cols
    ensures inside == StaysInside(list, rows)
    ensures inside ==> Describes(list, area)
  {
    area := new MatrixArea(rows, cols);
    var x, y := 0, 0;
    var k := 0;
    while k < |list|
      invariant 0 <= k <= |list| && area.Valid() && fresh(area) && fresh(area.data) && area.rows == rows
                && area.cols == cols
      invariant 0 <= y && 0 <= x && Entering(area, list, k, y, x)
      invariant forall j :: Cell(cols, rows, 0) <= j < k ==> !IsCovered(list[j])
    {
      var ok;
      ok, y, x := EnterNext(area, list, k, y, x);
      if !ok {
        return area, false;
      }
      k := k + 1;
    }
    assert list[..k] == list;
    FilledAll(area, list, y, x);
    inside := true;
  }

  /** The first k cells are entered. */
  ghost predicate Entering(area: MatrixArea, list: seq<int>, k: nat, y: nat, x: nat)
    requires area.Valid() && k <= |list|
    reads area, area.data
  {
    Enters(area.cols, y, x, k) && Filled(area, list, y, x) && Centered(area, list[..k])
  }

  /** One more, if it has a place or needs none. */
  method EnterNext(area: MatrixArea, list: seq<int>, k: nat, y: nat, x: nat) returns (ok: bool, y': nat, x': nat)
    requires area.Valid() && k < |list| && Entering(area, list, k, y, x)
    modifies area, area.data
    ensures ok == (!IsCovered(list[k]) || k < Cell(area.cols, area.rows, 0))
    ensures ok ==> Entering(area, list, k + 1, y', x')
  {
    Placed(area.rows, area.cols, y, x);
    y', x' := y, x;
    ok := !IsCovered(list[k]) || (y < area.rows && x < area.cols);
    if ok {
      EnterCell(area, list, k, y, x);
      y', x' := NextPlace(area, list, k, y, x);
    }
  }

  method NextPlace(area: MatrixArea, ghost list: seq<int>, ghost k: nat, y: nat, x: nat) returns (y': nat, x': nat)
    requires area.Valid() && Enters(area.cols, y, x, k) && Filled(area, list, y, x + 1)
    ensures Enters(area.cols, y', x', k + 1) && Filled(area, list, y', x')
  {
    CellNext(area.cols, y, x);
    y', x' := y, x + 1;
    if area.cols == x' {
      x' := 0;
      y' := y + 1;
    }
  }

  /** A place is inside the grid exactly if its cell comes before the grid's end. */
  lemma Placed(rows: nat, cols: nat, y: nat, x: nat)
    requires if cols > 0 then x < cols else y == 0
    ensures y < rows && x < cols <==> Cell(cols, y, x) < Cell(cols, rows, 0)
  {
    if y < rows && x < cols {
      CellInside(cols, rows, y, x);
    } else if cols > 0 {
      CellMonotone(cols, rows, y, x);
    } else {
      CellIsRowMajor(cols, rows, 0);
    }
  }

  /** The cells of the list before (y, x) have been entered. */
  ghost predicate Filled(area: MatrixArea, list: seq<int>, y: int, x: int)
    requires area.Valid()
    reads area.data
  {
    forall v, u :: 0 <= v < area.rows && 0 <= u < area.cols ==>
      area.data[v, u]
          == ((v < y || (v == y && u < x)) && Cell(area.cols, v, u) < |list| && IsCovered(list[Cell(area.cols, v, u)]))
  }

  ghost predicate Centered(area: MatrixArea, list: seq<int>)
    reads area
  {
    var c := LastCenter(list);
    if c < 0 then area.centerX == area.centerY == 0
    else 0 <= area.centerY && 0 <= area.centerX && Enters(area.cols, area.centerY, area.centerX, c)
  }

  lemma CenterNext(list: seq<int>, k: nat)
    requires k < |list|
    ensures LastCenter(list[..k + 1]) == if IsCenter(list[k]) then k else LastCenter(list[..k])
  {
    assert list[..k + 1][..k] == list[..k];
  }

  lemma FilledAll(area: MatrixArea, list: seq<int>, y: nat, x: nat)
    requires area.Valid() && Enters(area.cols, y, x, |list|) && Filled(area, list, y, x)
    requires Cell(area.cols, area.rows, 0) <= |list|
    ensures forall v, u :: 0 <= v < area.rows && 0 <= u < area.cols ==>
              Cell(area.cols, v, u) < |list| && (area.data[v, u] <==> IsCovered(list[Cell(area.cols, v, u)]))
  {
    Placed(area.rows, area.cols, y, x);
    forall v, u | 0 <= v < area.rows && 0 <= u < area.cols
      ensures Cell(area.cols, v, u) < |list| && (v < y || (v == y && u < x))
    {
      CellInside(area.cols, area.rows, v, u);
    }
  }

  /** Which of the areas a cast from one position onto another uses; y grows southwards. */
  function ChooseDirection(hasExtArea: bool, dx: int, dy: int): Direction {
    if hasExtArea && dx < 0 && dy < 0 then NorthWest
    else if hasExtArea && dx > 0 && dy < 0 then NorthEast
    else if hasExtArea && dx < 0 && dy > 0 then SouthWest
    else if hasExtArea && dx > 0 && dy > 0 then SouthEast
    else if dx < 0 then West
    else if dx > 0 then East
    else if dy < 0 then North
    else South
  }

  function Sign(d: int): int {
    if d < 0 then -1 else if d > 0 then 1 else 0
  }

  /** The step a direction stands for. */
  function StepOf(d: Direction): (int, int) {
    match d
    case North => (0, -1)
    case East => (1, 0)
    case South => (0, 1)
    case West => (-1, 0)
    case NorthWest => (-1, -1)
    case NorthEast => (1, -1)
    case SouthWest => (-1, 1)
    case SouthEast => (1, 1)
  }

  /** The area faces the target: diagonally if it can, else east or west before north or south; on the spot it faces
      south. */
  lemma FacesTarget(hasExtArea: bool, dx: int, dy: int)
    ensures StepOf(ChooseDirection(hasExtArea, dx, dy))
         == if dx == 0 && dy == 0 then (0, 1)
            else if hasExtArea || dx == 0 then (Sign(dx), Sign(dy))
            else (Sign(dx), 0)
  {
  }

  /** The map position at offset (dx, dy) from the target. */
  function At(target: Position, dx: int, dy: int): Position {
    Position(Wrap16(target.x + dx), Wrap16(target.y + dy), target.z)
  }

  lemma AtIsBeside(target: Position, dx: int, dy: int)
    ensures At(target, dx, dy).z == target.z
    ensures 0 <= target.x + dx < 65536 ==> At(target, dx, dy).x == target.x + dx
    ensures 0 <= target.y + dy < 65536 ==> At(target, dx, dy).y == target.y + dy
  {
  }

  class AreaCombat {
    var areas: map<Direction, MatrixArea>
    var hasExtArea: bool

    constructor ()
      ensures areas == map[] && !hasExtArea
    {
      areas := map[];
      hasExtArea := false;
    }

    /** The northern area as listed, and its quarter turns for the other three directions.  All writes stay
        inside exactly if nothing is covered behind the grid and the centre fits; else the model stops. */
    method SetupArea(list: seq<int>, rows: nat) returns (ok: bool)
      modifies this`areas
      ensures ok == (StaysInside(list, rows) && CenterFits(list, rows))
      ensures !ok ==> unchanged(this)
      ensures ok ==>
                && North in areas && East in areas && South in areas && West in areas
                && (forall d :: d != North && d != East && d != South && d != West ==>
                      (d in areas <==> d in old(areas)) && (d in areas ==> areas[d] == old(areas)[d]))
                && areas[North].Valid() && areas[East].Valid() && areas[South].Valid() && areas[West].Valid()
                && areas[North].rows == rows && areas[North].cols == ColumnsOf(list, rows)
                && Describes(list, areas[North])
                && QuarterTurns(areas[North], areas[East], areas[South], areas[West])
    {
      var area, inside := CreateArea(list, rows);
      ok := inside && area.CenterInSquare();
      if !ok {
        return;
      }
      var southArea, eastArea, westArea := TurnedAreas(area);
      areas := areas[North := area];
      areas := areas[South := southArea];
      areas := areas[East := eastArea];
      areas := areas[West := westArea];
      assert areas[North] == area && areas[South] == southArea && areas[East] == eastArea && areas[West] == westArea;
    }

    /** The cone to the north and its quarter turns, in closed form. */
    method SetupCone(length: nat, spread: nat)
      modifies this`areas
      ensures North in areas && East in areas && South in areas && West in areas
      ensures areas[North].Valid() && areas[East].Valid() && areas[South].Valid() && areas[West].Valid()
      ensures forall dx, dy {:trigger ConeCovers(length, spread, dx, dy)} ::
                && (areas[North].Covers(dx, dy) <==> ConeCovers(length, spread, dx, dy))
                && (areas[East].Covers(-dy, dx) <==> ConeCovers(length, spread, dx, dy))
                && (areas[South].Covers(-dx, -dy) <==> ConeCovers(length, spread, dx, dy))
                && (areas[West].Covers(dy, -dx) <==> ConeCovers(length, spread, dx, dy))
    {
      var list, cols := ConeList(length, spread);
      CellIsRowMajor(cols, length, 0);
      if length > 0 {
        Arithmetic.QuotientIs(|list|, length, cols);
      }
      FullRowsFit(list, length);
      var ok := SetupArea(list, length);
      ConeArea(areas[North], list, length, spread);
    }

    /** The north-western area as listed, its mirror images, and the image of an image for the south-east. */
    method SetupExtArea(list: seq<int>, rows: nat) returns (ok: bool)
      modifies this
      ensures ok == StaysInside(list, rows)
      ensures list == [] ==> unchanged(this)
      ensures ok && list != [] ==>
                && hasExtArea && NorthWest in areas && NorthEast in areas && SouthWest in areas && SouthEast in areas
                && (forall d :: d != NorthWest && d != NorthEast && d != SouthWest && d != SouthEast ==>
                      (d in areas <==> d in old(areas)) && (d in areas ==> areas[d] == old(areas)[d]))
                && areas[NorthWest].Valid() && areas[NorthEast].Valid() && areas[SouthWest].Valid()
                && areas[SouthEast].Valid()
                && areas[NorthWest].rows == rows && areas[NorthWest].cols == ColumnsOf(list, rows)
                && Describes(list, areas[NorthWest])
                && Reflections(areas[NorthWest], areas[NorthEast], areas[SouthWest], areas[SouthEast])
    {
      if list == [] {
        return true;
      }
      hasExtArea := true;
      var area;
      area, ok := CreateArea(list, rows);
      if !ok {
        return;
      }
      var neArea, swArea, seArea := ReflectedAreas(area);
      KeepDiagonals(area, neArea, swArea, seArea);
    }

    method KeepDiagonals(nw: MatrixArea, ne: MatrixArea, sw: MatrixArea, se: MatrixArea)
      modifies this`areas
      ensures NorthWest in areas && NorthEast in areas && SouthWest in areas && SouthEast in areas
      ensures areas[NorthWest] == nw && areas[NorthEast] == ne && areas[SouthWest] == sw && areas[SouthEast] == se
      ensures forall d :: d != NorthWest && d != NorthEast && d != SouthWest && d != SouthEast ==>
                (d in areas <==> d in old(areas)) && (d in areas ==> areas[d] == old(areas)[d])
    {
      areas := areas[NorthWest := nw];
      areas := areas[NorthEast := ne];
      areas := areas[SouthWest := sw];
      areas := areas[SouthEast := se];
    }

    method GetArea(centerPos: Position, targetPos: Position) returns (area: Option<MatrixArea>)
      ensures var d := ChooseDirection(hasExtArea, targetPos.x - centerPos.x, targetPos.y - centerPos.y);
              area == if d in areas then Some(areas[d]) else None
    {
      var dx := targetPos.x - centerPos.x;
      var dy := targetPos.y - centerPos.y;
      var dir;
      if dx < 0 {
        dir := West;
      } else if dx > 0 {
        dir := East;
      } else if dy < 0 {
        dir := North;
      } else {
        dir := South;
      }
      if hasExtArea {
        if dx < 0 && dy < 0 {
          dir := NorthWest;
        } else if dx > 0 && dy < 0 {
          dir := NorthEast;
        } else if dx < 0 && dy > 0 {
          dir := SouthWest;
        } else if dx > 0 && dy > 0 {
          dir := SouthEast;
        }
      }
      return if dir in areas then Some(areas[dir]) else None;
    }

    /** The positions an area covers around the target that can be seen from it, each once. */
    method GetList(centerPos: Position, targetPos: Position, isSightClear: (Position, Position) -> bool)
      returns (list: seq<Position>)
      requires forall d :: d in areas ==> areas[d].Valid() && areas[d].rows <= 0x1_0000 && areas[d].cols <= 0x1_0000
      ensures var d := ChooseDirection(hasExtArea, targetPos.x - centerPos.x, targetPos.y - centerPos.y);
              && (d !in areas ==> list == [])
              && (d in areas ==>
                    && (forall p :: p in list <==>
                          exists dx, dy ::
                              areas[d].Covers(dx, dy) && p == At(targetPos, dx, dy) && isSightClear(targetPos, p))
                    && (forall i, j :: 0 <= i < j < |list| ==> list[i] != list[j]))
    {
      var found := GetArea(centerPos, targetPos);
      if found.None? {
        return [];
      }
      list := CoveredTiles(found.value, targetPos, isSightClear);
    }
  }

  /** The three other directions are the quarter turns of the north. */
  ghost predicate QuarterTurns(north: MatrixArea, east: MatrixArea, south: MatrixArea, west: MatrixArea)
    requires north.Valid() && east.Valid() && south.Valid() && west.Valid()
    reads north, north.data, east, east.data, south, south.data, west, west.data
  {
    forall dx, dy {:trigger north.Covers(dx, dy)} ::
      && (east.Covers(-dy, dx) <==> north.Covers(dx, dy))
      && (south.Covers(-dx, -dy) <==> north.Covers(dx, dy))
      && (west.Covers(dy, -dx) <==> north.Covers(dx, dy))
  }

  /** The diagonal areas reflect the north-western one, off by the columns less the rows. */
  ghost predicate Reflections(nw: MatrixArea, ne: MatrixArea, sw: MatrixArea, se: MatrixArea)
    requires nw.Valid() && ne.Valid() && sw.Valid() && se.Valid()
    reads nw, nw.data, ne, ne.data, sw, sw.data, se, se.data
  {
    var skew := nw.cols - nw.rows;
    forall dx, dy {:trigger nw.Covers(dx, dy)} ::
      && (ne.Covers(skew - dx, dy) <==> nw.Covers(dx, dy))
      && (sw.Covers(dx, -skew - dy) <==> nw.Covers(dx, dy))
      && (se.Covers(-dx, -skew - dy) <==> nw.Covers(dx, dy))
  }

  lemma TurnsAreQuarters(north: MatrixArea, east: MatrixArea, south: MatrixArea, west: MatrixArea)
    requires north.Valid() && east.Valid() && south.Valid() && west.Valid()
    requires IsImage(north, east, Rotate90) && IsImage(north, south, Rotate180) && IsImage(north, west, Rotate270)
    ensures QuarterTurns(north, east, south, west)
  {
    var skew := north.cols - north.rows;
    forall dx, dy {:trigger north.Covers(dx, dy)}
      ensures east.Covers(-dy, dx) <==> north.Covers(dx, dy)
      ensures south.Covers(-dx, -dy) <==> north.Covers(dx, dy)
      ensures west.Covers(dy, -dx) <==> north.Covers(dx, dy)
    {
      assert east.Covers(ImageX(Rotate90, skew, dx, dy), ImageY(Rotate90, skew, dx, dy)) <==> north.Covers(dx, dy);
      assert south.Covers(ImageX(Rotate180, skew, dx, dy), ImageY(Rotate180, skew, dx, dy)) <==> north.Covers(dx, dy);
      assert west.Covers(ImageX(Rotate270, skew, dx, dy), ImageY(Rotate270, skew, dx, dy)) <==> north.Covers(dx, dy);
    }
  }

  lemma ImagesAreReflections(nw: MatrixArea, ne: MatrixArea, sw: MatrixArea, se: MatrixArea)
    requires nw.Valid() && ne.Valid() && sw.Valid() && se.Valid() && sw.rows == sw.cols
    requires IsImage(nw, ne, Mirror) && IsImage(nw, sw, Flip) && IsImage(sw, se, Mirror)
    ensures Reflections(nw, ne, sw, se)
  {
    var skew := nw.cols - nw.rows;
    forall dx, dy {:trigger nw.Covers(dx, dy)}
      ensures ne.Covers(skew - dx, dy) <==> nw.Covers(dx, dy)
      ensures sw.Covers(dx, -skew - dy) <==> nw.Covers(dx, dy)
      ensures se.Covers(-dx, -skew - dy) <==> nw.Covers(dx, dy)
    {
      assert ne.Covers(ImageX(Mirror, skew, dx, dy), ImageY(Mirror, skew, dx, dy)) <==> nw.Covers(dx, dy);
      assert sw.Covers(ImageX(Flip, skew, dx, dy), ImageY(Flip, skew, dx, dy)) <==> nw.Covers(dx, dy);
      assert se.Covers(ImageX(Mirror, 0, dx, -skew - dy), ImageY(Mirror, 0, dx, -skew - dy)) <==>
             sw.Covers(dx, -skew - dy);
    }
  }

  /** The reflections are true ones exactly for areas with as many columns as rows, or that cover nothing. */
  lemma NorthEastExactlyForSquares(nw: MatrixArea, ne: MatrixArea, sw: MatrixArea, se: MatrixArea)
    requires nw.Valid() && ne.Valid() && sw.Valid() && se.Valid() && Reflections(nw, ne, sw, se)
    ensures (forall dx, dy {:trigger nw.Covers(dx, dy)} :: ne.Covers(-dx, dy) <==> nw.Covers(dx, dy)) <==>
            SquareOrEmpty(nw)
  {
    ReflectedExactly(nw, ne, nw.cols - nw.rows, 0, -1, 1);
  }

  lemma SouthWestExactlyForSquares(nw: MatrixArea, ne: MatrixArea, sw: MatrixArea, se: MatrixArea)
    requires nw.Valid() && ne.Valid() && sw.Valid() && se.Valid() && Reflections(nw, ne, sw, se)
    ensures (forall dx, dy {:trigger nw.Covers(dx, dy)} :: sw.Covers(dx, -dy) <==> nw.Covers(dx, dy)) <==>
            SquareOrEmpty(nw)
  {
    ReflectedExactly(nw, sw, 0, nw.rows - nw.cols, 1, -1);
  }

  lemma SouthEastExactlyForSquares(nw: MatrixArea, ne: MatrixArea, sw: MatrixArea, se: MatrixArea)
    requires nw.Valid() && ne.Valid() && sw.Valid() && se.Valid() && Reflections(nw, ne, sw, se)
    ensures (forall dx, dy {:trigger nw.Covers(dx, dy)} :: se.Covers(-dx, -dy) <==> nw.Covers(dx, dy)) <==>
            SquareOrEmpty(nw)
  {
    ReflectedExactly(nw, se, 0, nw.rows - nw.cols, -1, -1);
  }

  lemma Displaced(nw: MatrixArea, ne: MatrixArea, sw: MatrixArea, se: MatrixArea)
    requires nw.Valid() && ne.Valid() && sw.Valid() && se.Valid() && Reflections(nw, ne, sw, se)
    requires nw.rows == 1 && nw.cols == 2 && Describes([1, 3], nw)
    ensures nw.Covers(0, 0) && nw.Covers(-1, 0) && ne.Covers(2, 0) && !ne.Covers(0, 0)
  {
    assert LastCenter([1, 3]) == 1;
    assert Cell(nw.cols, 1, 0) == Cell(nw.cols, 0, 0) + nw.cols;
    assert Cell(nw.cols, 0, 0) == 0 && Cell(nw.cols, 0, 1) == 1;
    assert nw.Covers(0, 0) && nw.Covers(-1, 0) && !nw.Covers(1, 0);
  }

  /** A centre that is not covered itself: the area covers the cell beside it. */
  method CentreApart() returns (area: AreaCombat)
    ensures North in area.areas && area.areas[North].Valid()
    ensures !area.areas[North].Covers(0, 0) && area.areas[North].Covers(1, 0)
  {
    area := new AreaCombat();
    FullRowsFit([2, 1], 1);
    var ok := area.SetupArea([2, 1], 1);
    BesideCentre(area.areas[North]);
  }

  lemma BesideCentre(north: MatrixArea)
    requires north.Valid() && north.rows == 1 && north.cols == 2 && Describes([2, 1], north)
    ensures !north.Covers(0, 0) && north.Covers(1, 0)
  {
    assert [2, 1][..1] == [2];
    assert LastCenter([2, 1]) == LastCenter([2]) == 0;
    assert Cell(north.cols, 1, 0) == Cell(north.cols, 0, 0) + north.cols;
    assert Cell(north.cols, 0, 0) == 0 && Cell(north.cols, 0, 1) == 1;
  }

  /** One row of two covered cells with the centre on the right: the north-eastern area starts one cell too far. */
  method DisplacedExample() returns (area: AreaCombat)
    ensures area.areas.Keys == {NorthWest, NorthEast, SouthWest, SouthEast}
    ensures area.areas[NorthWest].Valid() && area.areas[NorthEast].Valid()
    ensures area.areas[NorthWest].Covers(0, 0) && area.areas[NorthWest].Covers(-1, 0)
    ensures area.areas[NorthEast].Covers(2, 0) && !area.areas[NorthEast].Covers(0, 0)
  {
    area := new AreaCombat();
    FullRowsFit([1, 3], 1);
    var ok := area.SetupExtArea([1, 3], 1);
    Displaced(area.areas[NorthWest], area.areas[NorthEast], area.areas[SouthWest], area.areas[SouthEast]);
  }

  /** A new area, twice as large as the greater side of the input, that holds its image. */
  method ImageOf(input: MatrixArea, op: Operation) returns (output: MatrixArea)
    requires input.Valid() && (IsRotation(op) ==> input.CenterInSquare())
    ensures fresh(output) && fresh(output.data) && output.Valid()
    ensures output.rows == output.cols == 2 * Max(input.cols, input.rows)
    ensures IsImage(input, output, op)
  {
    var maxOutput := Max(input.cols, input.rows) * 2;
    output := new MatrixArea(maxOutput, maxOutput);
    CopyArea(input, output, op);
  }

  method TurnedAreas(area: MatrixArea) returns (southArea: MatrixArea, eastArea: MatrixArea, westArea: MatrixArea)
    requires area.Valid() && area.CenterInSquare()
    ensures eastArea.Valid() && southArea.Valid() && westArea.Valid()
    ensures QuarterTurns(area, eastArea, southArea, westArea)
  {
    southArea := ImageOf(area, Rotate180);
    eastArea := ImageOf(area, Rotate90);
    westArea := ImageOf(area, Rotate270);
    TurnsAreQuarters(area, eastArea, southArea, westArea);
  }

  method ReflectedAreas(area: MatrixArea) returns (neArea: MatrixArea, swArea: MatrixArea, seArea: MatrixArea)
    requires area.Valid()
    ensures neArea.Valid() && swArea.Valid() && seArea.Valid()
    ensures Reflections(area, neArea, swArea, seArea)
  {
    neArea := ImageOf(area, Mirror);
    swArea := ImageOf(area, Flip);
    seArea := new MatrixArea(swArea.rows, swArea.cols);
    CopyArea(swArea, seArea, Mirror);
    ImagesAreReflections(area, neArea, swArea, seArea);
  }

  /** The cell c = (row, column) comes before cell (y, x) in row order, is covered and in sight. */
  ghost predicate Shown(area: MatrixArea, target: Position, clear: (Position, Position) -> bool, c: (int, int),
                        y: int, x: int)
    requires area.Valid()
    reads area, area.data
  {
    && 0 <= c.0 < area.rows && 0 <= c.1 < area.cols && (c.0 < y || (c.0 == y && c.1 < x))
    && area.data[c.0, c.1] && clear(target, At(target, c.1 - area.centerX, c.0 - area.centerY))
  }

  /** What is listed so far are the tiles of the cells shown, each once. */
  ghost predicate Showing(area: MatrixArea, target: Position, clear: (Position, Position) -> bool, list: seq<Position>,
                          shown: seq<(int, int)>, y: int, x: int)
    requires area.Valid()
    reads area, area.data
  {
    && |shown| == |list|
    && (forall i :: 0 <= i < |list| ==> list[i] == At(target, shown[i].1 - area.centerX, shown[i].0 - area.centerY))
    && (forall c :: c in shown <==> Shown(area, target, clear, c, y, x))
    && (forall i, j :: 0 <= i < j < |shown| ==> shown[i] != shown[j])
  }

  lemma ShowNext(area: MatrixArea, target: Position, clear: (Position, Position) -> bool, list: seq<Position>,
                 shown: seq<(int, int)>, y: nat, x: nat, at: Position)
    requires area.Valid() && y < area.rows && x < area.cols && Showing(area, target, clear, list, shown, y, x)
    requires at == At(target, x - area.centerX, y - area.centerY)
    ensures if area.data[y, x] && clear(target, at)
            then Showing(area, target, clear, [at] + list, [(y, x)] + shown, y, x + 1)
            else Showing(area, target, clear, list, shown, y, x + 1)
  {
    assert !Shown(area, target, clear, (y, x), y, x);
    assert forall c :: Shown(area, target, clear, c, y, x + 1) <==>
             Shown(area, target, clear, c, y, x) || (c == (y, x) && area.data[y, x] && clear(target, at));
  }

  lemma ShowRow(area: MatrixArea, target: Position, clear: (Position, Position) -> bool, list: seq<Position>,
                shown: seq<(int, int)>, y: nat)
    requires area.Valid() && y < area.rows && Showing(area, target, clear, list, shown, y, area.cols)
    ensures Showing(area, target, clear, list, shown, y + 1, 0)
  {
    assert forall c :: Shown(area, target, clear, c, y + 1, 0) <==> Shown(area, target, clear, c, y, area.cols);
  }

  method CoveredTiles(area: MatrixArea, target: Position, clear: (Position, Position) -> bool)
    returns (list: seq<Position>)
    requires area.Valid() && area.rows <= 0x1_0000 && area.cols <= 0x1_0000
    ensures forall p :: p in list <==> exists dx, dy ::
            area.Covers(dx, dy) && p == At(target, dx, dy) && clear(target, p)
    ensures forall i, j :: 0 <= i < j < |list| ==> list[i] != list[j]
  {
    list := [];
    ghost var shown: seq<(int, int)> := [];
    var cx, cy := area.centerX, area.centerY;
    var tmpPos := At(target, -cx, -cy);
    var y := 0;
    while y < area.rows
      invariant 0 <= y <= area.rows && tmpPos == At(target, -cx, y - cy)
      invariant Showing(area, target, clear, list, shown, y, 0)
    {
      var x := 0;
      while x < area.cols
        invariant 0 <= x <= area.cols && tmpPos == At(target, x - cx, y - cy)
        invariant Showing(area, target, clear, list, shown, y, x)
      {
        ShowNext(area, target, clear, list, shown, y, x, tmpPos);
        if area.data[y, x] && clear(target, tmpPos) {
          list := [tmpPos] + list;
          shown := [(y, x)] + shown;
        }
        WrapAgain(target.x + x - cx, 1);
        tmpPos := tmpPos.(x := Wrap16(tmpPos.x + 1));
        x := x + 1;
      }
      WrapAgain(target.x + area.cols - cx, -(area.cols as int));
      WrapAgain(target.y + y - cy, 1);
      tmpPos := Position(Wrap16(tmpPos.x - area.cols), Wrap16(tmpPos.y + 1), tmpPos.z);
      ShowRow(area, target, clear, list, shown, y);
      y := y + 1;
    }
    ShownAll(area, target, clear, list, shown);
  }

  lemma ShownAll(area: MatrixArea, target: Position, clear: (Position, Position) -> bool, list: seq<Position>,
                 shown: seq<(int, int)>)
    requires area.Valid() && area.rows <= 0x1_0000 && area.cols <= 0x1_0000
    requires |shown| == |list|
    requires forall i :: 0 <= i < |list| ==> list[i] == At(target, shown[i].1 - area.centerX, shown[i].0 - area.centerY)
    requires forall c :: c in shown <==> Shown(area, target, clear, c, area.rows, 0)
    requires forall i, j :: 0 <= i < j < |shown| ==> shown[i] != shown[j]
    ensures forall p :: p in list <==> exists dx, dy ::
            area.Covers(dx, dy) && p == At(target, dx, dy) && clear(target, p)
    ensures forall i, j :: 0 <= i < j < |list| ==> list[i] != list[j]
  {
    forall p | p in list
      ensures exists dx, dy :: area.Covers(dx, dy) && p == At(target, dx, dy) && clear(target, p)
    {
      var i :| 0 <= i < |list| && list[i] == p;
      assert shown[i] in shown;
      assert area.Covers(shown[i].1 - area.centerX, shown[i].0 - area.centerY);
    }
    forall dx, dy | area.Covers(dx, dy) && clear(target, At(target, dx, dy))
      ensures At(target, dx, dy) in list
    {
      var c := (area.centerY + dy, area.centerX + dx);
      assert Shown(area, target, clear, c, area.rows, 0);
      var i :| 0 <= i < |shown| && shown[i] == c;
      assert list[i] == At(target, dx, dy);
    }
    forall i, j | 0 <= i < j < |list|
      ensures list[i] != list[j]
    {
      assert shown[i] in shown && shown[j] in shown;
      if list[i] == list[j] {
        WrapInjective(target.x - area.centerX, shown[i].1, shown[j].1);
        WrapInjective(target.y - area.centerY, shown[i].0, shown[j].0);
      }
    }
  }

  lemma WrapAgain(a: int, d: int)
    ensures Wrap16(Wrap16(a) + d) == Wrap16(a + d)
  {
  }

  lemma WrapInjective(base: int, a: int, b: int)
    requires 0 <= a < 0x1_0000 && 0 <= b < 0x1_0000 && Wrap16(base + a) == Wrap16(base + b)
    ensures a == b
  {
  }

  // The cone: `length` rows that narrow by one cell on each side every `spread` rows.

  /** How many times the cone has narrowed after y rows, counted from the far end. */
  function Narrowed(spread: nat, y: nat): nat {
    if spread == 0 || y == 0 then 0
    else Narrowed(spread, y - 1) + if y % spread == 0 then 1 else 0
  }

  lemma {:induction false} NarrowedIsQuotient(spread: nat, y: nat)
    requires spread > 0
    ensures Narrowed(spread, y) == y / spread
  {
    if y == 0 {
      Arithmetic.QuotientIs(0, spread, 0);
    } else {
      NarrowedIsQuotient(spread, y - 1);
      var q := (y - 1) / spread;
      Arithmetic.DivBounds(y - 1, spread);
      if spread * q + spread == y {
        Arithmetic.QuotientIs(y, spread, q + 1);
      } else {
        Arithmetic.QuotientIs(y, spread, q);
      }
    }
  }

  lemma {:induction false} NarrowedMonotone(spread: nat, y: nat, z: nat)
    requires y <= z
    ensures Narrowed(spread, y) <= Narrowed(spread, z)
    decreases z
  {
    if y < z {
      NarrowedMonotone(spread, y, z - 1);
    }
  }

  /** Half the width of the far end, the middle column aside. */
  function HalfWidth(length: nat, spread: nat): nat {
    if spread == 0 then 0 else length / spread
  }

  /** The cone seen from its centre, which lies in the middle of the near row: at distance -dy the row
      reaches as far to either side as the far end, less one for every narrowing before it. */
  predicate ConeCovers(length: nat, spread: nat, dx: int, dy: int) {
    -(length as int) < dy <= 0 &&
    var reach := HalfWidth(length, spread) - Narrowed(spread, length - 1 + dy);
    -reach <= dx <= reach
  }

  /** Every row of the cone contains the middle column and is as wide as those nearer to the caster, or wider. */
  lemma ConeWidens(length: nat, spread: nat, dy: int)
    requires -(length as int) < dy <= 0
    ensures ConeCovers(length, spread, 0, dy)
    ensures forall dx, farther :: ConeCovers(length, spread, dx, dy) && -(length as int) < farther <= dy ==>
            ConeCovers(length, spread, dx, farther)
  {
    ConeReach(length, spread, length - 1 + dy);
    forall dx, farther | ConeCovers(length, spread, dx, dy) && -(length as int) < farther <= dy
      ensures ConeCovers(length, spread, dx, farther)
    {
      NarrowedMonotone(spread, length - 1 + farther, length - 1 + dy);
    }
  }

  /** The cells of row y, column x of the cone's list. */
  function ConeCell(length: nat, spread: nat, y: nat, x: nat): int {
    var half := HalfWidth(length, spread);
    if y == length - 1 && x == half then 3
    else if Narrowed(spread, y) <= x <= 2 * half - Narrowed(spread, y) then 1
    else 0
  }

  /** The number of columns as the code computes it: odd, with the middle column between two halves. */
  function Columns(length: nat, spread: nat): int {
    if spread != 0 then (length - length % spread) / spread * 2 + 1 else 1
  }

  lemma ColumnsOdd(length: nat, spread: nat)
    ensures Columns(length, spread) == 2 * HalfWidth(length, spread) + 1
  {
    if spread != 0 {
      Arithmetic.DivBounds(length, spread);
      Arithmetic.QuotientIs(length, spread, length / spread);
      Arithmetic.QuotientIs(length - length % spread, spread, length / spread);
    }
  }

  method ConeRow(list0: seq<int>, length: nat, spread: nat, columns: nat, colSpread: int, y: nat)
    returns (list: seq<int>)
    requires columns == 2 * HalfWidth(length, spread) + 1 && 1 <= y <= length
    requires colSpread == columns - Narrowed(spread, y - 1)
    requires |list0| == Cell(columns, y - 1, 0) && Coned(list0, length, spread, columns, y - 1, 0)
    ensures |list| == Cell(columns, y, 0) && Coned(list, length, spread, columns, y, 0)
  {
    list := list0;
    var mincol := columns - colSpread + 1;
    var maxcol := columns - (columns - colSpread);
    var x := 1;
    while x <= columns
      invariant 1 <= x <= columns + 1
      invariant |list| == Cell(columns, y - 1, x - 1)
      invariant Coned(list, length, spread, columns, y - 1, x - 1)
    {
      ghost var before := list;
      var cell := ConeCellAt(length, spread, columns, mincol, maxcol, y, x);
      list := list + [cell];
      CellNext(columns, y - 1, x - 1);
      ConedNext(before, list, length, spread, columns, y - 1, x - 1);
      x := x + 1;
    }
    CellNext(columns, y - 1, columns);
  }

  method ConeCellAt(rows: nat, ghost spread: nat, columns: nat, mincol: int, maxcol: int, y: nat, x: nat)
    returns (cell: int)
    requires columns == 2 * HalfWidth(rows, spread) + 1 && 1 <= y <= rows && 1 <= x <= columns
    requires mincol == Narrowed(spread, y - 1) + 1 && maxcol == columns - Narrowed(spread, y - 1)
    ensures cell == ConeCell(rows, spread, y - 1, x - 1)
  {
    var isCenter := y == rows && x == (columns - columns % 2) / 2 + 1;
    assert isCenter <==> y == rows && x - 1 == HalfWidth(rows, spread);
    cell := if isCenter then 3 else if mincol <= x <= maxcol then 1 else 0;
  }

  method ConeList(length: nat, spread: nat) returns (list: seq<int>, cols: nat)
    ensures cols == 2 * HalfWidth(length, spread) + 1 && |list| == Cell(cols, length, 0)
    ensures forall y, x :: 0 <= y < length && 0 <= x < cols ==>
              Cell(cols, y, x) < |list| && list[Cell(cols, y, x)] == ConeCell(length, spread, y, x)
  {
    list := [];
    var rows := length;
    var columns := Columns(length, spread);
    ColumnsOdd(length, spread);
    cols := columns;
    var colSpread := columns;
    var y := 1;
    while y <= rows
      invariant 1 <= y <= rows + 1
      invariant colSpread == columns - Narrowed(spread, y - 1)
      invariant |list| == Cell(cols, y - 1, 0)
      invariant Coned(list, length, spread, cols, y - 1, 0)
    {
      list := ConeRow(list, length, spread, columns, colSpread, y);
      if spread > 0 && y % spread == 0 {
        colSpread := colSpread - 1;
      }
      y := y + 1;
    }
  }

  /** The list holds the cone's cells before (y, x). */
  ghost predicate Coned(list: seq<int>, length: nat, spread: nat, cols: nat, y: int, x: int) {
    forall v, u :: 0 <= v < length && 0 <= u < cols && (v < y || (v == y && u < x)) ==>
      Cell(cols, v, u) < |list| && list[Cell(cols, v, u)] == ConeCell(length, spread, v, u)
  }

  lemma ConedNext(before: seq<int>, list: seq<int>, length: nat, spread: nat, cols: nat, y: nat, x: nat)
    requires Coned(before, length, spread, cols, y, x) && |before| == Cell(cols, y, x)
    requires |list| == |before| + 1 && list[..|before|] == before && list[|before|] == ConeCell(length, spread, y, x)
    ensures Coned(list, length, spread, cols, y, x + 1)
  {
    forall v, u | 0 <= v < length && 0 <= u < cols && (v < y || (v == y && u < x + 1))
      ensures Cell(cols, v, u) < |list| && list[Cell(cols, v, u)] == ConeCell(length, spread, v, u)
    {
      if v < y || u < x {
        assert before[Cell(cols, v, u)] == ConeCell(length, spread, v, u);
        assert list[Cell(cols, v, u)] == list[..|before|][Cell(cols, v, u)];
      }
    }
  }

  /** An area built from the cone's list covers exactly the cone. */
  lemma ConeArea(area: MatrixArea, list: seq<int>, length: nat, spread: nat)
    requires area.Valid() && Describes(list, area)
    requires area.rows == length && (length > 0 ==> area.cols == 2 * HalfWidth(length, spread) + 1)
    requires length > 0 ==> |list| == Cell(area.cols, length, 0)
    requires forall y, x :: 0 <= y < length && 0 <= x < area.cols ==>
               Cell(area.cols, y, x) < |list| && list[Cell(area.cols, y, x)] == ConeCell(length, spread, y, x)
    ensures forall dx, dy :: area.Covers(dx, dy) <==> ConeCovers(length, spread, dx, dy)
    ensures length > 0 ==> area.centerY == length - 1 && area.centerX == HalfWidth(length, spread)
  {
    if length > 0 {
      ConeCenter(area, list, length, spread);
      forall dx, dy
        ensures area.Covers(dx, dy) <==> ConeCovers(length, spread, dx, dy)
      {
        ConeAreaAt(area, list, length, spread, dx, dy);
      }
    }
  }

  lemma ConeAreaAt(area: MatrixArea, list: seq<int>, length: nat, spread: nat, dx: int, dy: int)
    requires area.Valid() && area.rows == length > 0 && area.cols == 2 * HalfWidth(length, spread) + 1
    requires area.centerY == length - 1 && area.centerX == HalfWidth(length, spread)
    requires forall y, x :: 0 <= y < length && 0 <= x < area.cols ==>
               Cell(area.cols, y, x) < |list| && list[Cell(area.cols, y, x)] == ConeCell(length, spread, y, x) &&
               (area.data[y, x] <==> IsCovered(list[Cell(area.cols, y, x)]))
    ensures area.Covers(dx, dy) <==> ConeCovers(length, spread, dx, dy)
  {
    var y, x := length - 1 + dy, HalfWidth(length, spread) + dx;
    if 0 <= y < length {
      ConeReach(length, spread, y);
      if 0 <= x < area.cols {
        assert area.data[y, x] <==> IsCovered(ConeCell(length, spread, y, x));
      }
    }
  }

  /** No row is narrowed away. */
  lemma ConeReach(length: nat, spread: nat, y: nat)
    requires y < length
    ensures 0 <= Narrowed(spread, y) <= HalfWidth(length, spread)
  {
    if spread > 0 {
      NarrowedMonotone(spread, y, length);
      NarrowedIsQuotient(spread, length);
    }
  }

  lemma ConeCenter(area: MatrixArea, list: seq<int>, length: nat, spread: nat)
    requires area.Valid() && Describes(list, area)
    requires area.rows == length > 0 && area.cols == 2 * HalfWidth(length, spread) + 1
             && |list| == Cell(area.cols, length, 0)
    requires forall y, x :: 0 <= y < length && 0 <= x < area.cols ==>
               Cell(area.cols, y, x) < |list| && list[Cell(area.cols, y, x)] == ConeCell(length, spread, y, x)
    ensures area.centerY == length - 1 && area.centerX == HalfWidth(length, spread)
  {
    assert IsCenter(list[Cell(area.cols, length - 1, HalfWidth(length, spread))]);
    Placed(area.rows, area.cols, area.centerY, area.centerX);
    assert LastCenter(list) >= Cell(area.cols, length - 1, HalfWidth(length, spread));
    assert list[Cell(area.cols, area.centerY, area.centerX)] == ConeCell(length, spread, area.centerY, area.centerX);
  }
}
