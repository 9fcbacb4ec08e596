/**
  The decoding pipeline: the grid builder's output fed to the renderer, as
  the program's entry point does once the document has been fetched and its
  spans extracted. The lemmas here state the end-to-end promises in terms of
  the span sequence itself.
 */
module Decoder {
  import opened GridBuilder
  import opened MessageRenderer

  /** Data row j of the span sequence has coordinates (x, y). */
  predicate AtCell(tokens: seq<Token>, j: nat, x: nat, y: nat)
    requires 3 * j + 5 < |tokens|
  {
    tokens[3 * j + 3] == Num(x) && tokens[3 * j + 5] == Num(y)
  }

  /**
    Only the last entry can lack cells, and it does exactly when the spans
    after the header do not come in whole rows of three.
   */
  lemma IncompleteRows(tokens: seq<Token>)
    requires WellTyped(tokens)
    ensures var m := Parse(tokens).matrix;
      && (forall k :: 0 <= k < |m| - 1 ==> |m[k]| == 3)
      && (|m| > 0 ==> (|m[|m| - 1]| < 3 <==> |tokens| % 3 != 0))
      && (|m| > 0 <==> |tokens| > 3)
  {
  }

  /**
    The decoder: build the grid, then render it. It succeeds exactly when
    the spans after the header come in whole rows of three (or there are no
    data spans at all); otherwise the last, unfinished entry stops the
    renderer with a type error.
   */
  function Decode(tokens: seq<Token>): (o: Outcome)
    requires WellTyped(tokens)
    ensures o.Message? <==> |tokens| <= 3 || |tokens| % 3 == 0
    ensures o.TypeError? ==> o.row == |tokens| / 3 - 1
  {
    ParseConsistent(tokens);
    IncompleteRows(tokens);
    Render(Parse(tokens))
  }

  /** With no data rows both maxima stay -1 and the message is empty. */
  lemma DecodeNoData(tokens: seq<Token>)
    requires WellTyped(tokens) && |tokens| <= 3
    ensures Parse(tokens) == Grid([], -1, -1)
    ensures Decode(tokens) == Message("")
  {
  }

  /**
    With whole rows of data, the message has yMax + 1 lines of xMax + 1 cells,
    each line ending in a newline: (yMax + 1) * (xMax + 2) characters.
   */
  lemma DecodeShape(tokens: seq<Token>)
    requires WellTyped(tokens) && |tokens| > 3 && |tokens| % 3 == 0
    ensures var g := Parse(tokens); var o := Decode(tokens);
      && o.Message? && g.xMax >= 0 && g.yMax >= 0
      && |o.text| == (g.yMax + 1) * (g.xMax + 2)
      && forall r :: 0 <= r <= g.yMax ==>
           Offset(r, Extent(g.xMax), Extent(g.xMax)) < |o.text| && o.text[Offset(r, Extent(g.xMax), Extent(g.xMax))] == '\n'
  {
  }

  /** Cell (x, y) of the document is character (yMax - y) * (xMax + 2) + x of the message. */
  lemma CellOffset(xMax: int, yMax: int, x: nat, y: nat)
    requires x <= xMax && y <= yMax
    ensures Offset(yMax - y, x, Extent(xMax)) == (yMax - y) * (xMax + 2) + x
  {
    OffsetIsProduct(yMax - y, x, xMax + 1);
  }

  /**
    Data row k, the spans (x, c, y), lands in the box the maxima span, and
    unless a later row names the same cell, its character is shown on line
    yMax - y at column x, which CellOffset places at character
    (yMax - y) * (xMax + 2) + x of the message: y = yMax is the top line and y = 0 the bottom one. When
    later rows do name the cell, the last of them shows instead.
   */
  lemma DecodePlacesEntry(tokens: seq<Token>, k: nat, x: nat, c: char, y: nat)
    requires WellTyped(tokens) && |tokens| % 3 == 0 && k < |tokens| / 3 - 1
    requires tokens[3 * k + 3] == Num(x) && tokens[3 * k + 4] == Glyph(c) && tokens[3 * k + 5] == Num(y)
    requires forall j :: k < j < |tokens| / 3 - 1 ==> !AtCell(tokens, j, x, y)
    ensures var g := Parse(tokens); var o := Decode(tokens);
      && x <= g.xMax && y <= g.yMax
      && o.Message?
      && Offset(g.yMax - y, x, Extent(g.xMax)) < |o.text|
      && o.text[Offset(g.yMax - y, x, Extent(g.xMax))] == c
  {
    var g := Parse(tokens);
    ParseWholeRows(tokens);
    ParseConsistent(tokens);
    assert g.matrix[k] == [tokens[3 * k + 3], tokens[3 * k + 4], tokens[3 * k + 5]];
    forall j | k < j < |g.matrix|
      ensures !Hits(g.matrix[j], g.yMax, g.yMax - y, x)
    {
      assert g.matrix[j] == [tokens[3 * j + 3], tokens[3 * j + 4], tokens[3 * j + 5]];
      assert !AtCell(tokens, j, x, y);
    }
    assert X(g.matrix[k]) == x && Y(g.matrix[k]) == y && Char(g.matrix[k]) == c;
    RenderLastWriter(g, k);
  }

  /**
    A cell (x, y) that no data row names renders as a blank on line yMax - y,
    which CellOffset places at character (yMax - y) * (xMax + 2) + x.
   */
  lemma DecodeBlankCell(tokens: seq<Token>, x: nat, y: nat)
    requires WellTyped(tokens) && |tokens| > 3 && |tokens| % 3 == 0
    requires x <= Parse(tokens).xMax && y <= Parse(tokens).yMax
    requires forall j :: 0 <= j < |tokens| / 3 - 1 ==> !AtCell(tokens, j, x, y)
    ensures var g := Parse(tokens); var o := Decode(tokens);
      && o.Message?
      && Offset(g.yMax - y, x, Extent(g.xMax)) < |o.text|
      && o.text[Offset(g.yMax - y, x, Extent(g.xMax))] == Blank
  {
    var g := Parse(tokens);
    ParseWholeRows(tokens);
    ParseConsistent(tokens);
    forall j | 0 <= j < |g.matrix|
      ensures !Hits(g.matrix[j], g.yMax, g.yMax - y, x)
    {
      assert g.matrix[j] == [tokens[3 * j + 3], tokens[3 * j + 4], tokens[3 * j + 5]];
      assert !AtCell(tokens, j, x, y);
    }
    RenderUnwritten(g, g.yMax - y, x);
  }

  /** The two-letter document: both letters on the top line, a blank line below. */
  lemma ExampleTwoLetters()
    ensures Decode([Glyph('x'), Glyph('c'), Glyph('y'),
                    Num(0), Glyph('H'), Num(1),
                    Num(1), Glyph('I'), Num(1)]) == Message("HI\n  \n")
  {
    ExampleTwoLettersGrid();
    assert Render(Grid([[Num(0), Glyph('H'), Num(1)], [Num(1), Glyph('I'), Num(1)]], 1, 1)) == Message("HI\n  \n");
  }

  /** The grid built for the two-letter document, span by span. */
  lemma ExampleTwoLettersGrid()
    ensures Parse([Glyph('x'), Glyph('c'), Glyph('y'),
                   Num(0), Glyph('H'), Num(1),
                   Num(1), Glyph('I'), Num(1)])
         == Grid([[Num(0), Glyph('H'), Num(1)], [Num(1), Glyph('I'), Num(1)]], 1, 1)
  {
    var t := [Glyph('x'), Glyph('c'), Glyph('y'), Num(0), Glyph('H'), Num(1), Num(1), Glyph('I'), Num(1)];
    assert ParsePrefix(t, 3) == Grid([], -1, -1);
    ParsePrefixStep(t, 3);
    assert ParsePrefix(t, 4).matrix[0] == [Num(0)];
    assert ParsePrefix(t, 4) == Grid([[Num(0)]], 0, -1);
    ParsePrefixStep(t, 4);
    assert ParsePrefix(t, 5).matrix[0] == [Num(0), Glyph('H')];
    assert ParsePrefix(t, 5) == Grid([[Num(0), Glyph('H')]], 0, -1);
    ParsePrefixStep(t, 5);
    assert ParsePrefix(t, 6).matrix[0] == [Num(0), Glyph('H'), Num(1)];
    assert ParsePrefix(t, 6) == Grid([[Num(0), Glyph('H'), Num(1)]], 0, 1);
    ParsePrefixStep(t, 6);
    assert ParsePrefix(t, 7).matrix[1] == [Num(1)];
    assert ParsePrefix(t, 7) == Grid([[Num(0), Glyph('H'), Num(1)], [Num(1)]], 1, 1);
    ParsePrefixStep(t, 7);
    assert ParsePrefix(t, 8).matrix[1] == [Num(1), Glyph('I')];
    assert ParsePrefix(t, 8) == Grid([[Num(0), Glyph('H'), Num(1)], [Num(1), Glyph('I')]], 1, 1);
    ParsePrefixStep(t, 8);
    assert ParsePrefix(t, 9).matrix[1] == [Num(1), Glyph('I'), Num(1)];
    assert ParsePrefix(t, 9) == Grid([[Num(0), Glyph('H'), Num(1)], [Num(1), Glyph('I'), Num(1)]], 1, 1);
  }

  /** y = 0 is the bottom line of a two-line canvas. */
  lemma ExampleBottomLine()
    ensures Render(Grid([[Num(0), Glyph('A'), Num(0)]], 2, 1)) == Message("   \nA  \n")
  {
  }

  /** Of two rows naming the same cell, the later one is shown. */
  lemma ExampleLastWriteWins()
    ensures Decode([Glyph('x'), Glyph('c'), Glyph('y'),
                    Num(0), Glyph('A'), Num(0),
                    Num(0), Glyph('B'), Num(0)]) == Message("B\n")
  {
  }

  /** A data row cut short after its character stops the renderer. */
  lemma ExampleMissingY()
    ensures Decode([Glyph('x'), Glyph('c'), Glyph('y'),
                    Num(0), Glyph('A'), Num(0),
                    Num(1), Glyph('B')]) == TypeError(1)
  {
  }
}
