/**
  The grid builder of the secret-message decoder.

  The published document is a table whose cells are inline text spans. The
  spans are enumerated once, in document order, and the position of a span in
  that enumeration alone decides its role: span `i` belongs to logical row
  `i / 3` and column `i % 3`. Row 0 is the table header and is skipped; every
  later row contributes one matrix entry `[x, character, y]`. While scanning,
  the builder keeps the running maxima `xMax` and `yMax` of the coordinates,
  both starting at the sentinel -1 ("no data yet").

  The HTML parsing that produces the span sequence is outside this model: the
  input is the sequence of span texts, already classified into coordinates and
  characters.
 */
module GridBuilder {

  /**
    The text of one span: a coordinate written as the canonical decimal
    form of a non-negative integer, or a single character.
   */
  datatype Token = Num(n: nat) | Glyph(c: char)

  /** One entry of the matrix: the spans of one logical row, in column order. */
  type Row = seq<Token>

  /** What the builder returns: the matrix and the two running maxima. */
  datatype Grid = Grid(matrix: seq<Row>, xMax: int, yMax: int)

  function Max(a: int, b: int): int { if a < b then b else a }

  function Min(a: int, b: int): int { if a < b then a else b }

  /**
    Every data span has the kind its column asks for: coordinates in columns
    0 and 2, a character in column 1. Header spans may hold anything.
   */
  predicate WellTyped(tokens: seq<Token>) {
    forall i :: 3 <= i < |tokens| ==> (tokens[i].Glyph? <==> i % 3 == 1)
  }

  /** The number of matrix entries started by the first `n` spans. */
  function RowsFor(n: nat): nat {
    if n <= 3 then 0 else (n - 1) / 3
  }

  /** The columns present in a row have the kinds of a well-typed table row. */
  predicate RowTyped(row: Row) {
    forall j :: 0 <= j < |row| && j < 3 ==> (row[j].Glyph? <==> j == 1)
  }

  /** A row that holds all three of x, character and y. */
  predicate Complete(row: Row) {
    |row| >= 3 && RowTyped(row)
  }

  function X(row: Row): nat
    requires Complete(row)
  {
    row[0].n
  }

  function Char(row: Row): char
    requires Complete(row)
  {
    row[1].c
  }

  function Y(row: Row): nat
    requires Complete(row)
  {
    row[2].n
  }

  /**
    The callback run for span `i` with text `t`: skip the header row; in
    column 0 open a new entry and raise xMax; in column 2 raise yMax; in every
    data column append the text to the entry of row `i / 3 - 1`.
   */
  function Visit(g: Grid, i: nat, t: Token): (r: Grid)
    requires i >= 3 ==> (t.Glyph? <==> i % 3 == 1)
    requires |g.matrix| == RowsFor(i)
    ensures |r.matrix| == RowsFor(i + 1)
  {
    var row := i / 3;
    var col := i % 3;
    if row == 0 then g
    else
      var started := if col == 0 then g.(matrix := g.matrix + [[]], xMax := Max(g.xMax, t.n)) else g;
      var bounded := if col == 2 then started.(yMax := Max(started.yMax, t.n)) else started;
      bounded.(matrix := bounded.matrix[row - 1 := bounded.matrix[row - 1] + [t]])
  }

  /**
    `m` is the maximum of -1 and every coordinate in column `col` of the data
    rows among the first `n` spans: an upper bound of them all, and either
    one of them or the sentinel -1.
   */
  ghost predicate IsColumnMax(tokens: seq<Token>, n: nat, col: nat, m: int)
    requires WellTyped(tokens) && n <= |tokens| && (col == 0 || col == 2)
  {
    && (forall i :: 3 <= i < n && i % 3 == col ==> tokens[i].n <= m)
    && (m == -1 || exists i :: 3 <= i < n && i % 3 == col && tokens[i].n == m)
  }

  /** Everything the builder promises about its state after `n` spans. */
  ghost predicate Scanned(tokens: seq<Token>, n: nat, g: Grid)
    requires WellTyped(tokens) && n <= |tokens|
  {
    && |g.matrix| == RowsFor(n)
    && (forall k :: 0 <= k < |g.matrix| ==> g.matrix[k] == tokens[3 * k + 3 .. Min(3 * k + 6, n)])
    && IsColumnMax(tokens, n, 0, g.xMax)
    && IsColumnMax(tokens, n, 2, g.yMax)
  }

  /** One callback keeps the builder's promises. */
  lemma VisitScans(tokens: seq<Token>, n: nat, g: Grid)
    requires WellTyped(tokens) && 0 < n <= |tokens|
    requires Scanned(tokens, n - 1, g)
    ensures Scanned(tokens, n, Visit(g, n - 1, tokens[n - 1]))
  {
    VisitRows(tokens, n, g);
    VisitMaxima(tokens, n, g);
  }

  /** The callback for span n - 1 opens or extends exactly the entry that span belongs to. */
  lemma VisitRows(tokens: seq<Token>, n: nat, g: Grid)
    requires WellTyped(tokens) && 0 < n <= |tokens|
    requires |g.matrix| == RowsFor(n - 1)
    requires forall k :: 0 <= k < |g.matrix| ==> g.matrix[k] == tokens[3 * k + 3 .. Min(3 * k + 6, n - 1)]
    ensures var r := Visit(g, n - 1, tokens[n - 1]);
      && |r.matrix| == RowsFor(n)
      && forall k :: 0 <= k < |r.matrix| ==> r.matrix[k] == tokens[3 * k + 3 .. Min(3 * k + 6, n)]
  {
  }

  /** The callback for span n - 1 keeps xMax and yMax the maxima of their columns. */
  lemma VisitMaxima(tokens: seq<Token>, n: nat, g: Grid)
    requires WellTyped(tokens) && 0 < n <= |tokens|
    requires |g.matrix| == RowsFor(n - 1)
    requires IsColumnMax(tokens, n - 1, 0, g.xMax)
    requires IsColumnMax(tokens, n - 1, 2, g.yMax)
    ensures IsColumnMax(tokens, n, 0, Visit(g, n - 1, tokens[n - 1]).xMax)
    ensures IsColumnMax(tokens, n, 2, Visit(g, n - 1, tokens[n - 1]).yMax)
  {
  }

  /**
    The builder's state after the first `n` spans: the fold of the callback
    over them, starting from an empty matrix and both maxima at -1. It has
    opened one entry per data row seen so far.
   */
  function ParsePrefix(tokens: seq<Token>, n: nat): (g: Grid)
    requires WellTyped(tokens) && n <= |tokens|
    ensures |g.matrix| == RowsFor(n)
  {
    if n == 0 then Grid([], -1, -1)
    else
      var g := ParsePrefix(tokens, n - 1);
      Visit(g, n - 1, tokens[n - 1])
  }

  /**
    After the first `n` spans, entry `k` holds exactly spans 3k+3 .. 3k+5 (as
    many of them as have been seen), and xMax and yMax are the maxima of the
    x and y columns of the data rows, -1 when there are none.
   */
  lemma {:induction false} ParsePrefixScans(tokens: seq<Token>, n: nat)
    requires WellTyped(tokens) && n <= |tokens|
    ensures Scanned(tokens, n, ParsePrefix(tokens, n))
  {
    if n > 0 {
      ParsePrefixScans(tokens, n - 1);
      VisitScans(tokens, n, ParsePrefix(tokens, n - 1));
    }
  }

  /** The builder run over the whole span sequence. */
  function Parse(tokens: seq<Token>): (g: Grid)
    requires WellTyped(tokens)
    ensures |g.matrix| == RowsFor(|tokens|)
    ensures forall k :: 0 <= k < |g.matrix| ==> g.matrix[k] == tokens[3 * k + 3 .. Min(3 * k + 6, |tokens|)]
    ensures IsColumnMax(tokens, |tokens|, 0, g.xMax)
    ensures IsColumnMax(tokens, |tokens|, 2, g.yMax)
  {
    ParsePrefixScans(tokens, |tokens|);
    ParsePrefix(tokens, |tokens|)
  }

  lemma ParsePrefixStep(tokens: seq<Token>, i: nat)
    requires WellTyped(tokens) && i < |tokens|
    ensures ParsePrefix(tokens, i + 1) == Visit(ParsePrefix(tokens, i), i, tokens[i])
  {
  }

  /**
    The callback for span `i` written against mutable state: it leaves the
    state `Visit` describes.
   */
  method OnSpan(matrix: seq<Row>, xMax: int, yMax: int, i: nat, value: Token)
    returns (matrix': seq<Row>, xMax': int, yMax': int)
    requires i >= 3 ==> (value.Glyph? <==> i % 3 == 1)
    requires |matrix| == RowsFor(i)
    ensures Grid(matrix', xMax', yMax') == Visit(Grid(matrix, xMax, yMax), i, value)
  {
    matrix', xMax', yMax' := matrix, xMax, yMax;
    var row := i / 3;
    var col := i % 3;
    if row == 0 {
      return;
    }
    if col == 0 {
      matrix' := matrix' + [[]];
      xMax' := Max(xMax', value.n);
    }
    if col == 2 {
      yMax' := Max(yMax', value.n);
    }
    matrix' := matrix'[row - 1 := matrix'[row - 1] + [value]];
  }

  /**
    The builder as a single pass over the spans with mutable state, one
    callback per span; it computes exactly the fold `Parse`.
   */
  method ParseSpans(tokens: seq<Token>) returns (g: Grid)
    requires WellTyped(tokens)
    ensures g == Parse(tokens)
  {
    var matrix: seq<Row> := [];
    var xMax := -1;
    var yMax := -1;
    var i := 0;
    while i < |tokens|
      invariant 0 <= i <= |tokens|
      invariant Grid(matrix, xMax, yMax) == ParsePrefix(tokens, i)
    {
      ParsePrefixStep(tokens, i);
      matrix, xMax, yMax := OnSpan(matrix, xMax, yMax, i, tokens[i]);
      i := i + 1;
    }
    g := Grid(matrix, xMax, yMax);
  }

  /** The spans of a matrix laid end to end, entry after entry. */
  function Flatten(rows: seq<Row>): seq<Token> {
    if |rows| == 0 then [] else Flatten(rows[..|rows| - 1]) + rows[|rows| - 1]
  }

  lemma {:induction false} FlattenSlices(tokens: seq<Token>, rows: seq<Row>, m: nat)
    requires 3 <= |tokens| && m <= |rows|
    requires forall k :: 0 <= k < |rows| ==> 3 * k + 3 <= |tokens| && rows[k] == tokens[3 * k + 3 .. Min(3 * k + 6, |tokens|)]
    ensures 3 * m + 3 <= |tokens| || m == |rows|
    ensures Flatten(rows[..m]) == tokens[3 .. Min(3 * m + 3, |tokens|)]
  {
    if m > 0 {
      FlattenSlices(tokens, rows, m - 1);
      assert rows[..m][..m - 1] == rows[..m - 1];
      assert tokens[3 .. Min(3 * m + 3, |tokens|)]
        == tokens[3 .. 3 * m] + tokens[3 * m .. Min(3 * m + 3, |tokens|)];
    }
  }

  /**
    The header never reaches the matrix and no data span is lost, moved or
    split: laid end to end, the entries are exactly the spans after the
    first three, in document order.
   */
  lemma ParseFlattens(tokens: seq<Token>)
    requires WellTyped(tokens) && 3 <= |tokens|
    ensures Flatten(Parse(tokens).matrix) == tokens[3..]
  {
    var rows := Parse(tokens).matrix;
    FlattenSlices(tokens, rows, |rows|);
    assert rows[..|rows|] == rows;
  }

  /**
    A span sequence made of whole rows: the header is dropped and each of the
    other `|tokens| / 3 - 1` rows becomes one complete entry (x, character, y)
    taken from its three spans in order.
   */
  lemma ParseWholeRows(tokens: seq<Token>)
    requires WellTyped(tokens) && 3 <= |tokens| && |tokens| % 3 == 0
    ensures |Parse(tokens).matrix| == |tokens| / 3 - 1
    ensures forall k :: 0 <= k < |tokens| / 3 - 1 ==>
      && Complete(Parse(tokens).matrix[k])
      && |Parse(tokens).matrix[k]| == 3
      && Parse(tokens).matrix[k] == [tokens[3 * k + 3], tokens[3 * k + 4], tokens[3 * k + 5]]
  {
  }

  /**
    The maxima describe the grid they came with: every row has the kinds of
    a table row, and every complete row lies in the box [0, xMax] x [0, yMax].
   */
  ghost predicate Consistent(g: Grid) {
    forall k :: 0 <= k < |g.matrix| ==>
      && RowTyped(g.matrix[k])
      && (|g.matrix[k]| >= 3 ==> X(g.matrix[k]) <= g.xMax && Y(g.matrix[k]) <= g.yMax)
  }

  /**
    The builder's maxima bound the coordinates they were computed from, so
    every entry it returns fits the canvas they size; with no data rows both
    maxima keep the sentinel -1.
   */
  lemma ParseConsistent(tokens: seq<Token>)
    requires WellTyped(tokens)
    ensures Consistent(Parse(tokens))
    ensures |Parse(tokens).matrix| == 0 <==> Parse(tokens).xMax == -1
    ensures (forall k :: 0 <= k < |Parse(tokens).matrix| ==> |Parse(tokens).matrix[k]| < 3) <==> Parse(tokens).yMax == -1
  {
    var g := Parse(tokens);
    var n := |tokens|;
    forall k | 0 <= k < |g.matrix|
      ensures RowTyped(g.matrix[k])
      ensures |g.matrix[k]| >= 3 ==> X(g.matrix[k]) <= g.xMax && Y(g.matrix[k]) <= g.yMax
    {
      var row := g.matrix[k];
      assert row == tokens[3 * k + 3 .. Min(3 * k + 6, n)];
      forall j | 0 <= j < |row| && j < 3
        ensures row[j].Glyph? <==> j == 1
      {
        assert row[j] == tokens[3 * k + 3 + j];
        assert (3 * k + 3 + j) % 3 == j;
      }
      assert (3 * k + 3) % 3 == 0;
      if |row| >= 3 {
        assert row[0] == tokens[3 * k + 3] && row[2] == tokens[3 * k + 5];
        assert (3 * k + 5) % 3 == 2;
      }
    }
    if |g.matrix| > 0 {
      assert 3 < n;
      assert tokens[3].n <= g.xMax;
    }
    if g.yMax != -1 {
      var i :| 3 <= i < n && i % 3 == 2 && tokens[i].n == g.yMax;
      var k := i / 3 - 1;
      assert k < |g.matrix| && |g.matrix[k]| >= 3;
    }
  }
}
