# Google Doc secret-message decoder, modelled in Dafny

The program fetches a published document whose table encodes a picture as
rows `(x, character, y)`. It enumerates the table's text spans in document
order and turns them into a matrix of entries and two running maxima
(`parseGoogleDocHTML`). It then draws every entry onto a blank canvas of
`(yMax + 1) x (xMax + 1)` cells and prints the rows as lines
(`buildMessage`). The y axis is flipped: entry `(x, c, y)` lands on line
`yMax - y`, column `x`.

This project models both pure stages over an abstract span sequence and proves
what they promise.

- `grid_builder.dfy`, module `GridBuilder`. A span is a `Token`: `Num(n)` for a
  coordinate and `Glyph(c)` for a character. Span `i` falls in row `i / 3` and
  column `i % 3`. The callback (`Visit`) is folded over the spans
  (`ParsePrefix`, `Parse`). `ParseSpans`/`OnSpan` are the same single pass
  written with mutable state. The lemmas cover positional grouping, skipping
  the header, the maxima and the in-bounds property (`Consistent`).
- `message_renderer.dfy`, module `MessageRenderer`. It covers canvas
  allocation, placement in matrix order and serialisation, both as functions
  (`BlankCanvas`, `PlaceAll`, `Serialize`, `Render`) and as the loops of `buildMessage`
  (`AllocateCanvas`, `PlaceEntries`, `JoinLines`, `BuildMessage`). Positions in
  the message are written `Offset(r, col, width)`, which is
  `r * (width + 1) + col` (`OffsetIsProduct`). The last entry that writes a cell
  is `LastHit`.
- `decoder.dfy`, module `Decoder`. The pipeline is `Decode = Render ∘ Parse`.
  Its lemmas state the end-to-end promises directly in terms of the span
  sequence, and a few worked examples are proved.

An entry that lacks its y coordinate is not excluded by a precondition. This
happens only to the last entry, when the span count after the header is not a
multiple of three. In index.js, `yMax - undefined` is `NaN` and the write at
index.js:107 then throws a `TypeError`. The model returns
`Outcome.TypeError(row)` for it. So `Decode` succeeds exactly when
`|tokens| <= 3` or `|tokens| % 3 == 0`.

Every line is padded to `xMax + 1` cells, so the two-letter table renders as
`"HI\n  \n"` (`Decoder.ExampleTwoLetters`).

## Model

| member | source | states |
|---|---|---|
| GridBuilder.Visit | index.js:48-76 | After the callback for span i, the matrix holds exactly one entry per data row started within the first i + 1 spans. The header row starts none. |
| GridBuilder.ParsePrefix | index.js:41-76 | After n spans, the matrix has one entry per data row started so far, and none for the header. |
| GridBuilder.ParsePrefixScans | index.js:44-76 | After n spans, entry k is exactly spans 3k+3 .. min(3k+6, n), in order. xMax is -1 or one of the column-0 values, and is at least every one of them. The same holds for yMax and column 2. |
| GridBuilder.Parse | index.js:38-83 | The whole builder. Entry k is spans 3k+3 .. 3k+5 in order (x, character, y). xMax and yMax are the maxima of -1 and the x and y coordinates of the data rows. |
| GridBuilder.OnSpan | index.js:49-75 | The callback body, with its mutable matrix.push, Math.max and push of the value. It leaves exactly the state Visit describes. |
| GridBuilder.ParseSpans | index.js:41-82 | The loop over all spans with mutable xMax, yMax and matrix returns exactly Parse(tokens). |
| GridBuilder.ParseFlattens | index.js:50-54 | The header spans never reach the matrix. Laid end to end, the entries are exactly the spans after the first three, in document order. |
| GridBuilder.ParseWholeRows | index.js:50-74 | When the span count n ≥ 3 is a multiple of 3, the matrix has n/3 - 1 entries. Each is complete and equals [span 3k+3, span 3k+4, span 3k+5]. |
| GridBuilder.ParseConsistent | index.js:61-71 | Every complete entry satisfies x ≤ xMax and y ≤ yMax, so each write at line 107 is in bounds. xMax stays -1 exactly when there are no entries. yMax stays -1 exactly when no entry is complete. |
| MessageRenderer.BlankCanvas | index.js:91-98 | The canvas has Extent(yMax) rows of Extent(xMax) cells, and every cell is ' '. Extent(m) is m + 1, or 0 for the sentinel -1. |
| MessageRenderer.AllocateCanvas | index.js:93-98 | The nested allocation loops build exactly that blank canvas, including no rows when yMax is -1. |
| MessageRenderer.LastHit | index.js:102-108 | It returns the index of the last entry that writes cell (r, col), or -1 when no entry does. That entry hits the cell, and no later entry does. |
| MessageRenderer.PlaceAll | index.js:102-108 | Placement in matrix order keeps the canvas shape. Each write canvas[yMax - y][x] is in bounds. A cell ends up holding the character of the last entry naming it, or its old content if none does. |
| MessageRenderer.PlaceEntries | index.js:102-108 | The placement loop stops at the first entry without three cells and reports its index. Otherwise it returns exactly PlaceAll's canvas. |
| MessageRenderer.Serialize | index.js:111-115 | Joining the rows gives one line of width + 1 characters per canvas row. Cell (r, col) sits at Offset(r, col, width), and every line ends in '\n'. |
| MessageRenderer.JoinLines | index.js:111-115 | The line-appending loop computes exactly Serialize. |
| MessageRenderer.OffsetIsProduct | index.js:111-113 | Cell (r, col) of the message sits at r * (width + 1) + col. |
| MessageRenderer.FirstIncomplete | index.js:102-107 | It returns the index of the first entry with fewer than three cells, which is where the placement loop throws, or the matrix length if there is none. |
| MessageRenderer.Render | index.js:86-116 | It fails exactly when some entry lacks a cell, and it names the first such entry. Otherwise the message has Extent(yMax) * (Extent(xMax) + 1) characters. Each cell shows the last writer's character, or ' ', and each line ends in '\n'. |
| MessageRenderer.RenderLastWriter | index.js:102-108 | Last write wins: if entry k is the last to name its cell, the message shows k's character at line yMax - y, column x. |
| MessageRenderer.RenderUnwritten | index.js:94-97 | A cell no entry names shows the blank ' '. |
| MessageRenderer.BuildMessage | index.js:86-116 | The three loops of buildMessage compute exactly Render. |
| Decoder.IncompleteRows | index.js:50-74 | Every entry but the last has three cells. The last entry lacks one exactly when the span count is not a multiple of 3. There are entries exactly when there are more than 3 spans. |
| Decoder.Decode | index.js:13-15 | Parse, then render. The result is a message exactly when \|tokens\| ≤ 3 or \|tokens\| % 3 == 0. Otherwise it is a type error on the last entry, \|tokens\|/3 - 1. |
| Decoder.DecodeNoData | index.js:44-115 | With only the header, or less, both maxima stay -1 and the message is "". |
| Decoder.DecodeShape | index.js:91-115 | With whole data rows, xMax and yMax are at least 0. The message has (yMax + 1) * (xMax + 2) characters, and each of its yMax + 1 lines ends in '\n'. |
| Decoder.CellOffset | index.js:107-112 | Document cell (x, y) is character (yMax - y) * (xMax + 2) + x of the message. |
| Decoder.DecodePlacesEntry | index.js:102-108 | Data row k = (x, c, y) lies within [0, xMax] x [0, yMax]. Unless a later row names the same cell, c appears on line yMax - y at column x. y = yMax is the top line and y = 0 the bottom one. |
| Decoder.DecodeBlankCell | index.js:94-97 | A cell inside the box that no data row names appears as ' ' in the message. |
| Decoder.ExampleTwoLetters | index.js:38-116 | The header followed by (0,'H',1) and (1,'I',1) decodes to "HI\n  \n". |
| Decoder.ExampleBottomLine | index.js:86-116 | Entry (0,'A',0) with xMax = 2 and yMax = 1 lands on the bottom line: "   \nA  \n". |
| Decoder.ExampleLastWriteWins | index.js:102-108 | Two rows naming cell (0, 0) show the later character. |
| Decoder.ExampleMissingY | index.js:103-107 | A trailing row cut short after its character makes the decoder fail on that row. |

## Left out

- Fetching the document and the entry point (index.js:6-31, 119) are left out. They are network I/O, async/await and console output. `Decode` models what `main` does once the HTML text is available (index.js:13-15).
- The HTML parsing with cheerio and the `$dom('tr').find('span')` / `.text()` traversal (index.js:2, 40, 48, 57) are left out. They are a foreign library. The input is the flat span sequence in document order, as that traversal yields it.
- Header span texts are modelled as arbitrary tokens. `parseGoogleDocHTML` never reads them (index.js:50-54).
- Parse: it requires `WellTyped`, meaning that in every data row, columns 0 and 2 hold numbers and column 1 holds one character. `Num(n)` stands for span text that is the canonical decimal form of a non-negative integer (`"0"`, `"7"`, `"12"`), and `Glyph(c)` for text of exactly one character. Other span text is not modelled:
  - non-numeric y text such as `"abc"`. `Math.max` at index.js:70 makes `yMax` `NaN`, so the allocation loop at index.js:93 never runs. The first write at index.js:107 then reads `messageMatrix[NaN]`, which is `undefined`, and throws a `TypeError`;
  - non-numeric x text. Only `Math.max` at index.js:63 converts it, and it makes `xMax` `NaN`, so index.js:95 allocates empty rows. index.js:107 uses the raw text as a property key, so that entry is never shown. Entries with numeric x then write past the empty rows and leave holes, and `join` (index.js:112) prints holes as `""`;
  - empty or whitespace-only coordinate text. This converts to 0, not `NaN`. Such a y behaves exactly like y = 0. Such an x raises `xMax` to at least 0, but index.js:107 writes it to a property that is never shown;
  - non-canonical numeric x text such as `"07"`, `" 7"` or `"7.0"`. It raises `xMax` through `Math.max` (index.js:63). But the cell stores the raw text (index.js:57, 74, 103), so index.js:107 sets a non-index property that `join` (index.js:112) ignores, and the column stays blank;
  - negative coordinates. A y of `"-1"` makes `yMax - y` equal `yMax + 1`, and the write at index.js:107 throws. A negative x sets a property that is never shown;
  - column-1 text of zero characters, which shortens its line, or of more than one character, which lengthens it.
- Decode: it has the same `WellTyped` requirement as Parse.
- Parse: `Num(n)` has no upper bound, so it assumes that coordinates stay within the limits of JavaScript numbers, arrays and strings. Those limits are not modelled:
  - an x of 2^32 - 1 or more is not an array index. index.js:107 then sets a property that `join` (index.js:112) ignores;
  - above 2^53, `Math.max` (index.js:63, 70) works on rounded doubles;
  - `message +=` at index.js:112 throws a `RangeError` once the text passes the engine's maximum string length.
- Render: it promises Extent(yMax) * (Extent(xMax) + 1) characters at every size. The same holds for DecodeShape. In index.js that holds only below the engine's maximum string length.
- Render: it requires `Consistent`, meaning every complete entry satisfies x ≤ xMax and y ≤ yMax. Called on its own, `buildMessage` would grow a row for x > xMax (JS arrays extend, and join renders holes as "") and would throw for y > yMax. The model covers neither, because `Parse` always produces consistent grids (`ParseConsistent`).
- BuildMessage: it has the same `Consistent` requirement as Render.
- Re-rendering the same input gives the same output. This needs no lemma, because every Dafny function is deterministic.
