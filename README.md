# randomart: the drunken-bishop fingerprint picture, in Dafny

randomart-cli draws the "drunken bishop" picture of a key fingerprint,
the kind `ssh-keygen -lv` prints beside it. A cursor starts at the centre of
a 17-wide, 9-high board.
Each input byte is cut into four 2-bit groups, lowest-order pair first. Each
group moves the cursor one cell diagonally; a move that would leave the
board stays against the edge on that axis. Every landing on a cell holding
a count adds one to it. The start cell is marked `S` before the walk and the
final cell is marked `E` after it. The board is then printed row by row,
each cell shown by the symbol of its value.

The model has four modules:

- `Walk` (walk.dfy) is the walk as pure functions on a column-major grid
  (`grid[x][y]`, as the source's `board[x][y]`). It holds the constants
  `special` and `defaultBounds`, the 2-bit groups, `Move`, the
  state-passing `Run`, and the board `Generate` returns. Beside these is
  an independent reference: the cursor trail (`Trail`) and the number of
  steps landing on each cell (`Visits`). The lemmas tie the board to that
  reference.
- `Renderer` (render.dfy) is `boardToString` as pure functions:
  - `defaultSymbols`
  - the lookup `symbols[v] || symbols[special.empty]`
  - the rows
  - `join('\n')`

  It also has `Split`, which cuts text at newlines and is the inverse of
  `Join`.
- `Randomart` (randomart.dfy) is the source's imperative code. The board
  is a mutable `array2<int>` indexed `[x, y]`. `createBoard`,
  `generateBoard` with its per-byte callback, the landing check,
  `boardToString` and `randomart` are methods with the source's loops. Each
  is proved against the functions of `Walk` and `Renderer`.
- `RandomartTest` (randomart_test.dfy) is the regression vector of
  test/test.js. It proves that the MD5 fingerprint
  `48:22:9d:e1:e5:13:76:c7:76:12:b8:ac:be:89:7d:6a` yields exactly the
  nine-line picture that test/test.js records as the `ssh-keygen` output
  for it.

The landing check at lib/randomart.js:133 increments only cells holding a
value `>= 0`. The start marker is -1, so a walk that comes back to the
centre leaves `S` in place and never turns it into a count. `S` disappears only when the walk ends on
the centre, because `E` is written over it. `Walk.Markers` states this both
ways.

Counts are unbounded, as in the source. `defaultSymbols` has characters
only for counts up to 14. A count of 15 or more has no entry and falls back
to the empty symbol, so it prints as a space
(`Renderer.DefaultSymbolLevels`).

Bytes are `bv8`. In the source, `(b >> s) & 3` with `s < 8` reads only bits
`s` and `s + 1` of the 32-bit value, so any integer element acts as its low
8 bits.

## Model

| member | source | states |
|---|---|---|
| Walk.End | lib/randomart.js:27 | (constant) `special.end`, -2 |
| Walk.Start | lib/randomart.js:27 | (constant) `special.start`, -1 |
| Walk.Empty | lib/randomart.js:27 | (constant) `special.empty`, 0 |
| Walk.DefaultBounds | lib/randomart.js:31 | (constant) `defaultBounds`, width 17 by height 9 |
| Walk.Centre | lib/randomart.js:93-94 | the walk starts at (floor(width/2), floor(height/2)), which lies on every non-empty board |
| Walk.Filled | lib/randomart.js:75-87 | the new board is width columns of height cells, each holding the given value |
| Walk.GroupsAt | lib/randomart.js:98-100 | the input gives exactly 4 steps per byte, and step 4i+k uses bits 2k and 2k+1 of byte i (lowest-order pair first) |
| Walk.ByteGroupsAreDigits | lib/randomart.js:99-100 | the four groups of a byte are its base-4 digits: the byte is recovered from them, so no bit is lost or reused |
| Walk.MoveIsClampedStep | lib/randomart.js:102-131 | a step moves x by +1 when bit 0 is set, else -1, and y by +1 when bit 1 is set, else -1; each coordinate stays put when the move would leave the board, and the result is on the board |
| Walk.GroupAt | lib/randomart.js:100 | (definition, no contract) the group `(b >> s) & 3` for a shift below 8; `Walk.GroupsAt` and `Walk.ByteGroupsAreDigits` state what it yields |
| Walk.ByteGroups | lib/randomart.js:99-100 | (definition, no contract) the groups of one byte for shifts 0, 2, 4 and 6, in that order |
| Walk.Groups | lib/randomart.js:98-100 | all 2-bit groups of the input, byte after byte; there are exactly four per byte |
| Walk.MoveY | lib/randomart.js:102-116 | the first switch: y changes by at most one and stays on the board; when it moves, it goes up exactly when bit 1 of the group is clear; it stays put only at the edge it moves toward (the top on an up move, the bottom on a down move) |
| Walk.MoveX | lib/randomart.js:117-131 | the second switch: x changes by at most one and stays on the board; when it moves, it goes left exactly when bit 0 of the group is clear; it stays put only at the edge it moves toward (the left edge on a left move, the right edge on a right move) |
| Walk.Move | lib/randomart.js:102-131 | one step of the cursor (both switches); a cursor on the board stays on the board |
| Walk.Landed | lib/randomart.js:133-135 | the landing check: a cell holding a count goes up by one, a cell holding a marker is unchanged, and no other cell changes |
| Walk.Step | lib/randomart.js:99-136 | one pass of the inner loop, move then landing check; it keeps the grid shaped by the bounds and the cursor on the board |
| Walk.Run | lib/randomart.js:98-137 | the passes for a sequence of groups, in order; it keeps the grid shaped by the bounds and the cursor on the board |
| Walk.Initial | lib/randomart.js:92-96 | the board before the walk (all Empty, Start at the centre) with the cursor at the centre; its contract: the grid has the shape of the bounds and the cursor is on the board |
| Walk.TrailInBounds | lib/randomart.js:102-131 | every position the cursor reaches, and its final position, is on the board |
| Walk.TrailAppend | lib/randomart.js:98-99 | walking two blocks of groups in turn is walking the second from where the first stopped |
| Walk.ByteTrail | lib/randomart.js:99-131 | one byte moves the cursor through four positions, each one step from the last |
| Walk.NextGroup | lib/randomart.js:99-136 | each pass of the inner loop adds one step, for group (b >> 2k) & 3, to the walk |
| Walk.RunAppend | lib/randomart.js:98-137 | the walk over a whole input is the walk over its bytes one after another |
| Walk.RunCounts | lib/randomart.js:96-135 | after the walk the cursor is at the trail's end; the centre still holds the start marker however often it was landed on; every other cell holds the number of steps that landed on it |
| Walk.GenerateCells | lib/randomart.js:89-142 | each cell of the returned board is End at the final position, else Start at the centre, else its landing count |
| Walk.Markers | lib/randomart.js:96-139 | End appears exactly at the final position; Start appears exactly at the centre, and only when the walk did not end there; every other cell holds a count >= 0 |
| Walk.EmptyData | lib/randomart.js:89-142 | with no bytes the cursor never moves: the centre holds End and every other cell Empty |
| Walk.Generate | lib/randomart.js:89-142 | the generated board has the shape of its bounds |
| Renderer.DefaultSymbolsOneChar | lib/randomart.js:7-25 | every entry of the default table is one character other than newline, and the table has an entry for Empty |
| Renderer.DefaultSymbolLevels | lib/randomart.js:7-25 | with the default table, -2..14 show as `E`, `S`, ` `, `.`, `o`, `+`, `=`, `*`, `B`, `O`, `X`, `@`, `%`, `&`, `#`, `/`, `^`; any other value shows as the Empty symbol, a space |
| Renderer.DefaultSymbols | lib/randomart.js:7-25 | (constant) the default table; `Renderer.DefaultSymbolLevels` and `Renderer.DefaultSymbolsOneChar` state its entries |
| Renderer.Symbol | lib/randomart.js:155 | (definition, no contract) `symbols[v] \|\| symbols[special.empty]`, where an empty text counts as missing and a missing Empty entry gives no text; `Renderer.SymbolLookup` states it |
| Renderer.SymbolLookup | lib/randomart.js:155 | a value with a non-empty entry shows that entry, otherwise the Empty entry when there is one; the result is empty exactly when neither gives any text |
| Renderer.Line | lib/randomart.js:154-158 | (definition, no contract) the symbols of cells [0][i] .. [n-1][i] concatenated; `Renderer.LineShape` states its shape |
| Renderer.Join | lib/randomart.js:161 | (definition, no contract) `join('\n')`: the rows with one newline between each two; `Renderer.SplitJoin` and `Renderer.JoinSplit` state it through its inverse `Split` |
| Renderer.Render | lib/randomart.js:144-162 | (definition, no contract) the rows of the board joined by newlines; `Renderer.RenderShape` states its shape |
| Renderer.SymbolGlyph | lib/randomart.js:155 | under a table of one-character symbols with an Empty entry, the symbol of any value is the single character `Glyph` gives: its own entry, else the Empty entry |
| Renderer.Lines | lib/randomart.js:151-159 | the output has one row per unit of height |
| Renderer.LineShape | lib/randomart.js:154-158 | with one-character symbols, row i has width characters, and character j shows cell [j][i] (its own symbol, else the Empty symbol) |
| Renderer.SplitJoin | lib/randomart.js:158-161 | rows without newlines, joined by newlines, split back into exactly those rows |
| Renderer.JoinSplit | lib/randomart.js:161 | any text cut at its newlines and joined again with newlines is unchanged, so the rows determine the output |
| Renderer.JoinUnfold | lib/randomart.js:161 | `join` of two or more rows is the join of all but the last, a newline, then the last row |
| Renderer.JoinExtendLast | lib/randomart.js:161 | adding a character to the last row adds it to the end of the joined text |
| Renderer.RenderShape | lib/randomart.js:144-162 | with one-character symbols, the output is exactly height rows separated by single newlines with none at the end; each row has width characters, and character j of row i shows cell [j][i] (the board read transposed) |
| Randomart.CreateBoard | lib/randomart.js:75-87 | the nested loops return a fresh width-by-height board with every cell set to the value |
| Randomart.GenerateBoard | lib/randomart.js:89-142 | the method returns the bounds used (options.bounds, else 17 by 9) and a fresh board whose contents are the generated board of the walk |
| Randomart.VisitByte | lib/randomart.js:98-137 | the per-byte callback leaves the cursor and the board where the walk over that byte's four groups leaves them |
| Randomart.MoveCursor | lib/randomart.js:102-131 | the two switches move the cursor exactly as the step function does |
| Randomart.CountLanding | lib/randomart.js:133-135 | the landed cell goes up by one when it holds a count, stays as it is when it holds a marker, and no other cell changes |
| Randomart.RowText | lib/randomart.js:154-158 | the inner loop builds row i from the symbols of cells [0][i] .. [width-1][i] |
| Randomart.BoardToString | lib/randomart.js:144-162 | the text is the rendering of the board contents with options.symbols, else the default table |
| Randomart.Randomart | lib/randomart.js:164-169 | the result is the rendering of the generated board, with the same options for both |
| Randomart.PictureMarkers | lib/randomart.js:89-168 | with the default symbols and any valid bounds, the picture has height lines of width characters; character j of line i is `E` exactly at the cursor's final position, and `S` exactly at the centre when the cursor stopped elsewhere, so `E` appears once and `S` at most once |
| Randomart.GlyphMarks | lib/randomart.js:8-9 | under the default symbols a value shows as `E` exactly when it is End, and as `S` exactly when it is Start |
| Randomart.BoundsOf | lib/randomart.js:91 | (definition, no contract) `options.bounds \|\| defaultBounds` |
| Randomart.SymbolsOf | lib/randomart.js:146 | (definition, no contract) `options.symbols \|\| defaultSymbols` |
| Randomart.Picture | lib/randomart.js:168 | (definition, no contract) the rendering of the generated board, with the same options for both stages; `Randomart.Randomart` is proved equal to it |
| RandomartTest.FingerprintTrail | test/test.js:24-41 | the walk over the test fingerprint goes through the 64 cursor positions listed in `Steps` and stops at (6, 7) |
| RandomartTest.FingerprintBoard | test/test.js:24-41 | the board generated from the test fingerprint is `ExpectedBoard`, with End at (6, 7) and Start at (8, 4); this proved intermediate board matches the matrix of the diagram comment at lib/randomart.js:43-58, plus the all-zero column 13 that the comment leaves out |
| RandomartTest.KnownVector | test/test.js:3-42 | `randomart` of the test fingerprint with no options is the picture of test/test.js: its nine 17-character rows joined by newlines, and nothing else |

## Left out

- The random default input (lib/randomart.js:165) is left out. In the
  source, a missing `data` argument means 16 random bytes; the model always
  takes the bytes as a parameter. An empty byte array is truthy in the
  source and is walked like any other; `Walk.EmptyData` covers it.
- lib/randomart-cli.js, the command-line front end, is not part of this
  model. The `console.log` of the test output is also left out.
- Inputs that are not byte sequences are not modelled. lodash's `_.each`
  also walks strings and objects, whose elements coerce to numbers
  (non-numbers shift as 0).
- `Randomart.GenerateBoard` requires width and height of at least 1. The
  source does not check its bounds: a zero width throws on `board[x][y]`,
  and a zero height writes outside the rows. Bounds are natural numbers, so
  fractional or partial `bounds` objects (giving `NaN` in the source) are
  not modelled either.
- Any falsy `options`, `options.bounds` or `options.symbols` is modelled as
  an absent option (`None`).
- Symbol tables are maps from integer values to strings. The source keys
  them by the decimal text of the value, and values that are not strings
  are not modelled. Multi-character symbols are modelled by
  `Randomart.BoardToString`; they are excluded only from the shape lemmas
  (`Renderer.LineShape`, `Renderer.RenderShape`).
- The board is an `array2` rather than an array of arrays. The source
  creates every inner array afresh and never shares one, so nothing
  depends on aliasing between rows.
- The diagram comment at lib/randomart.js:33-74 is documentation and no
  lemma refers to it. The board of the test vector, `ExpectedBoard`, is
  proved from the walk, and its cells agree with the comment's matrix.
