/**
  The message renderer of the secret-message decoder.

  Given the matrix and the maxima produced by the grid builder, the renderer
  allocates a canvas of (yMax + 1) rows of (xMax + 1) blank cells, writes the
  character of each entry at row `yMax - y`, column `x` (the document's y axis
  grows upwards while lines are printed top to bottom), and joins every canvas
  row into a line ending in a newline. An entry without a y coordinate makes
  the placement step fail with a type error, which ends the run.
 */
module MessageRenderer {
  import opened GridBuilder

  /** The canvas: a sequence of rows of cells, top row first. */
  type Canvas = seq<seq<char>>

  /** The character of a cell no entry has written. */
  const Blank: char := ' '

  /** What rendering produces: the message, or the failure on entry `row`. */
  datatype Outcome = Message(text: string) | TypeError(row: nat)

  /** How many indices 0 .. m there are, none when m is the sentinel -1. */
  function Extent(m: int): nat {
    if m < 0 then 0 else m + 1
  }

  ghost predicate Rectangular(canvas: Canvas, width: nat) {
    forall r :: 0 <= r < |canvas| ==> |canvas[r]| == width
  }

  /** Where line r starts in a message whose lines hold `width` cells and a newline. */
  function LineStart(r: nat, width: nat): nat {
    if r == 0 then 0 else LineStart(r - 1, width) + width + 1
  }

  /** Where cell (r, col) of a canvas `width` cells wide lands in the message. */
  function Offset(r: nat, col: nat, width: nat): nat {
    LineStart(r, width) + col
  }

  /** Every line is `width + 1` characters long. */
  lemma {:induction false} LineStartIsProduct(r: nat, width: nat)
    ensures LineStart(r, width) == r * (width + 1)
  {
    if r > 0 {
      LineStartIsProduct(r - 1, width);
    }
  }

  /** Cell (r, col) sits after r whole lines of `width` cells and a newline each. */
  lemma OffsetIsProduct(r: nat, col: nat, width: nat)
    ensures Offset(r, col, width) == r * (width + 1) + col
  {
    LineStartIsProduct(r, width);
  }

  /** A blank canvas: Extent(yMax) rows of Extent(xMax) blank cells. */
  function BlankCanvas(xMax: int, yMax: int): (canvas: Canvas)
    ensures |canvas| == Extent(yMax)
    ensures Rectangular(canvas, Extent(xMax))
    ensures forall r, col :: 0 <= r < |canvas| && 0 <= col < |canvas[r]| ==> canvas[r][col] == Blank
  {
    seq(Extent(yMax), _ => seq(Extent(xMax), _ => Blank))
  }

  /** Entry `row` writes cell (r, col) of a canvas whose top row is y = yMax. */
  predicate Hits(row: Row, yMax: int, r: int, col: int)
    requires Complete(row)
  {
    yMax - Y(row) == r && X(row) == col
  }

  /**
    The last entry of the matrix that writes cell (r, col), or -1 when no
    entry writes it.
   */
  function LastHit(matrix: seq<Row>, yMax: int, r: int, col: int): (k: int)
    requires forall j :: 0 <= j < |matrix| ==> Complete(matrix[j])
    ensures -1 <= k < |matrix|
    ensures k >= 0 ==> Hits(matrix[k], yMax, r, col)
    ensures forall j :: k < j < |matrix| ==> !Hits(matrix[j], yMax, r, col)
  {
    if |matrix| == 0 then -1
    else if Hits(matrix[|matrix| - 1], yMax, r, col) then |matrix| - 1
    else LastHit(matrix[..|matrix| - 1], yMax, r, col)
  }

  /** The character a cell shows once every entry has been placed. */
  function Pixel(matrix: seq<Row>, yMax: int, r: int, col: int): char
    requires forall j :: 0 <= j < |matrix| ==> Complete(matrix[j])
  {
    var k := LastHit(matrix, yMax, r, col);
    if k < 0 then Blank else Char(matrix[k])
  }

  /** Every entry is complete and lies in the box [0, xMax] x [0, yMax]. */
  ghost predicate Placeable(matrix: seq<Row>, xMax: int, yMax: int) {
    forall j :: 0 <= j < |matrix| ==> Complete(matrix[j]) && X(matrix[j]) <= xMax && Y(matrix[j]) <= yMax
  }

  /**
    Places every entry, in matrix order, on a canvas sized by the maxima. Each
    write lands inside the canvas, and afterwards a cell holds the character
    of the last entry that writes it, or what it held before when none does.
   */
  function PlaceAll(canvas: Canvas, matrix: seq<Row>, xMax: int, yMax: int): (c: Canvas)
    requires |canvas| == Extent(yMax) && Rectangular(canvas, Extent(xMax))
    requires Placeable(matrix, xMax, yMax)
    ensures |c| == |canvas| && Rectangular(c, Extent(xMax))
    ensures forall r, col :: 0 <= r < |c| && 0 <= col < Extent(xMax) ==>
      c[r][col] == (if LastHit(matrix, yMax, r, col) < 0 then canvas[r][col] else Char(matrix[LastHit(matrix, yMax, r, col)]))
  {
    if |matrix| == 0 then canvas
    else
      var before := PlaceAll(canvas, matrix[..|matrix| - 1], xMax, yMax);
      var row := matrix[|matrix| - 1];
      before[yMax - Y(row) := before[yMax - Y(row)][X(row) := Char(row)]]
  }

  /**
    Joins the canvas rows into lines, each ending in a newline: the message
    has one line of `width + 1` characters per row, and cell (r, col) is its
    character at Offset(r, col, width).
   */
  function Serialize(canvas: Canvas, width: nat): (s: string)
    requires Rectangular(canvas, width)
    ensures |s| == LineStart(|canvas|, width)
    ensures forall r, col :: 0 <= r < |canvas| && 0 <= col < width ==> Offset(r, col, width) < |s| && s[Offset(r, col, width)] == canvas[r][col]
    ensures forall r :: 0 <= r < |canvas| ==> Offset(r, width, width) < |s| && s[Offset(r, width, width)] == '\n'
  {
    if |canvas| == 0 then ""
    else
      var prefix := Serialize(canvas[..|canvas| - 1], width);
      SerializeAppend(canvas, width, prefix);
      prefix + canvas[|canvas| - 1] + "\n"
  }

  /** Appending the last line keeps the earlier cells and places the new ones. */
  lemma SerializeAppend(canvas: Canvas, width: nat, prefix: string)
    requires Rectangular(canvas, width) && |canvas| > 0
    requires |prefix| == LineStart(|canvas| - 1, width)
    requires forall r, col :: 0 <= r < |canvas| - 1 && 0 <= col < width ==> Offset(r, col, width) < |prefix| && prefix[Offset(r, col, width)] == canvas[r][col]
    requires forall r :: 0 <= r < |canvas| - 1 ==> Offset(r, width, width) < |prefix| && prefix[Offset(r, width, width)] == '\n'
    ensures var s := prefix + canvas[|canvas| - 1] + "\n";
      && |s| == LineStart(|canvas|, width)
      && (forall r, col :: 0 <= r < |canvas| && 0 <= col < width ==> Offset(r, col, width) < |s| && s[Offset(r, col, width)] == canvas[r][col])
      && (forall r :: 0 <= r < |canvas| ==> Offset(r, width, width) < |s| && s[Offset(r, width, width)] == '\n')
  {
  }

  /**
    Last write wins: when entry k is the last to name its cell, the rendered
    message shows its character there, on line yMax - y at column x.
   */
  lemma RenderLastWriter(g: Grid, k: nat)
    requires Consistent(g) && forall j :: 0 <= j < |g.matrix| ==> |g.matrix[j]| >= 3
    requires k < |g.matrix|
    requires forall j :: k < j < |g.matrix| ==>
      !Hits(g.matrix[j], g.yMax, g.yMax - Y(g.matrix[k]), X(g.matrix[k]))
    ensures Render(g).Message?
    ensures Offset(g.yMax - Y(g.matrix[k]), X(g.matrix[k]), Extent(g.xMax)) < |Render(g).text|
    ensures Render(g).text[Offset(g.yMax - Y(g.matrix[k]), X(g.matrix[k]), Extent(g.xMax))] == Char(g.matrix[k])
  {
  }

  /** A cell that no entry names keeps its blank. */
  lemma RenderUnwritten(g: Grid, r: nat, col: nat)
    requires Consistent(g) && forall j :: 0 <= j < |g.matrix| ==> |g.matrix[j]| >= 3
    requires r < Extent(g.yMax) && col < Extent(g.xMax)
    requires forall j :: 0 <= j < |g.matrix| ==> !Hits(g.matrix[j], g.yMax, r, col)
    ensures Render(g).Message?
    ensures Offset(r, col, Extent(g.xMax)) < |Render(g).text|
    ensures Render(g).text[Offset(r, col, Extent(g.xMax))] == Blank
  {
  }

  /** The index of the first entry lacking its y coordinate, |matrix| if none. */
  function FirstIncomplete(matrix: seq<Row>): (k: nat)
    ensures k <= |matrix|
    ensures forall j :: 0 <= j < k ==> |matrix[j]| >= 3
    ensures k < |matrix| ==> |matrix[k]| < 3
  {
    if |matrix| == 0 then 0
    else if |matrix[0]| < 3 then 0
    else 1 + FirstIncomplete(matrix[1..])
  }

  /**
    The whole renderer. It fails on the first entry that lacks a cell;
    otherwise the message has Extent(yMax) lines of Extent(xMax) cells plus a
    newline, and each cell shows the character of the last entry placed on
    it, blank when there is none.
   */
  function Render(g: Grid): (o: Outcome)
    requires Consistent(g)
    ensures o.TypeError? <==> exists k :: 0 <= k < |g.matrix| && |g.matrix[k]| < 3
    ensures o.TypeError? ==> o.row < |g.matrix| && |g.matrix[o.row]| < 3 && forall j :: 0 <= j < o.row ==> |g.matrix[j]| >= 3
    ensures o.Message? ==> |o.text| == Extent(g.yMax) * (Extent(g.xMax) + 1)
    ensures o.Message? ==> forall r, col :: 0 <= r < Extent(g.yMax) && 0 <= col < Extent(g.xMax) ==>
      Offset(r, col, Extent(g.xMax)) < |o.text| && o.text[Offset(r, col, Extent(g.xMax))] == Pixel(g.matrix, g.yMax, r, col)
    ensures o.Message? ==> forall r :: 0 <= r < Extent(g.yMax) ==>
      Offset(r, Extent(g.xMax), Extent(g.xMax)) < |o.text| && o.text[Offset(r, Extent(g.xMax), Extent(g.xMax))] == '\n'
  {
    var k := FirstIncomplete(g.matrix);
    if k < |g.matrix| then TypeError(k)
    else
      var canvas := PlaceAll(BlankCanvas(g.xMax, g.yMax), g.matrix, g.xMax, g.yMax);
      LineStartIsProduct(Extent(g.yMax), Extent(g.xMax));
      Message(Serialize(canvas, Extent(g.xMax)))
  }

  /** Allocates the canvas row by row, cell by cell, every cell blank. */
  method AllocateCanvas(xMax: int, yMax: int) returns (canvas: Canvas)
    ensures canvas == BlankCanvas(xMax, yMax)
  {
    ghost var blank := BlankCanvas(xMax, yMax);
    canvas := [];
    var i := 0;
    while i <= yMax
      invariant 0 <= i <= Extent(yMax)
      invariant canvas == blank[..i]
    {
      var line: seq<char> := [];
      var j := 0;
      while j <= xMax
        invariant 0 <= j <= Extent(xMax)
        invariant line == blank[i][..j]
      {
        line := line + [Blank];
        j := j + 1;
      }
      assert line == blank[i];
      assert blank[..i + 1] == blank[..i] + [blank[i]];
      canvas := canvas + [line];
      i := i + 1;
    }
  }

  /**
    Places the entries in matrix order. It stops at the first entry without
    a y coordinate and reports its index; when there is none, it reports
    |matrix| and returns the canvas `PlaceAll` describes.
   */
  method PlaceEntries(canvas: Canvas, g: Grid) returns (placed: Canvas, stop: nat)
    requires Consistent(g)
    requires |canvas| == Extent(g.yMax) && Rectangular(canvas, Extent(g.xMax))
    ensures stop == FirstIncomplete(g.matrix)
    ensures stop == |g.matrix| ==> placed == PlaceAll(canvas, g.matrix, g.xMax, g.yMax)
  {
    placed := canvas;
    var k := 0;
    while k < |g.matrix|
      invariant 0 <= k <= |g.matrix|
      invariant forall j :: 0 <= j < k ==> |g.matrix[j]| >= 3
      invariant placed == PlaceAll(canvas, g.matrix[..k], g.xMax, g.yMax)
    {
      var row := g.matrix[k];
      if |row| < 3 {
        return placed, k;
      }
      assert g.matrix[..k + 1][..k] == g.matrix[..k];
      placed := placed[g.yMax - Y(row) := placed[g.yMax - Y(row)][X(row) := Char(row)]];
      k := k + 1;
    }
    assert g.matrix[..k] == g.matrix;
    stop := k;
  }

  /** Appends every canvas row to the message as a line ending in a newline. */
  method JoinLines(canvas: Canvas, width: nat) returns (message: string)
    requires Rectangular(canvas, width)
    ensures message == Serialize(canvas, width)
  {
    message := "";
    var i := 0;
    while i < |canvas|
      invariant 0 <= i <= |canvas|
      invariant message == Serialize(canvas[..i], width)
    {
      assert canvas[..i + 1][..i] == canvas[..i];
      message := message + canvas[i] + "\n";
      i := i + 1;
    }
    assert canvas[..i] == canvas;
  }

  /**
    The renderer as `buildMessage` runs it: allocate the canvas, place the
    entries, join the lines. It computes exactly `Render`.
   */
  method BuildMessage(g: Grid) returns (o: Outcome)
    requires Consistent(g)
    ensures o == Render(g)
  {
    var canvas := AllocateCanvas(g.xMax, g.yMax);
    var placed, stop := PlaceEntries(canvas, g);
    if stop < |g.matrix| {
      return TypeError(stop);
    }
    var message := JoinLines(placed, Extent(g.xMax));
    return Message(message);
  }
}
