/** The imperative code of lib/randomart.js: the board is a mutable
    width-by-height array indexed [x, y], filled, walked over and rendered
    by loops, each method proved against the functions of Walk and Renderer. */
module Randomart {
  import opened Walk
  import opened Renderer

  datatype Option<T> = None | Some(value: T)

  /** The `options` argument: either field may be absent. */
  datatype Options = Options(bounds: Option<Bounds>, symbols: Option<Symbols>)

  /** `options.bounds || defaultBounds` */
  function BoundsOf(options: Options): Bounds {
    if options.bounds.Some? then options.bounds.value else DefaultBounds
  }

  /** `options.symbols || defaultSymbols` */
  function SymbolsOf(options: Options): Symbols {
    if options.symbols.Some? then options.symbols.value else DefaultSymbols
  }

  /** The contents of a board array, column by column. */
  ghost function Cells(a: array2<int>): (g: Grid)
    reads a
    ensures IsGrid(g, Bounds(a.Length0, a.Length1))
    ensures forall x, y | 0 <= x < a.Length0 && 0 <= y < a.Length1 :: g[x][y] == a[x, y]
  {
    seq(a.Length0, x requires 0 <= x < a.Length0 reads a =>
      seq(a.Length1, y requires 0 <= y < a.Length1 reads a => a[x, y]))
  }

  /** The array holds exactly the grid `g`. */
  ghost predicate Holds(a: array2<int>, g: Grid)
    reads a
  {
    IsGrid(g, Bounds(a.Length0, a.Length1)) &&
    forall x, y | 0 <= x < a.Length0 && 0 <= y < a.Length1 :: a[x, y] == g[x][y]
  }

  lemma HoldsCells(a: array2<int>, g: Grid)
    requires Holds(a, g)
    ensures Cells(a) == g
  {
    var c := Cells(a);
    forall x | 0 <= x < a.Length0
      ensures c[x] == g[x]
    {
    }
  }

  /** `createBoard`: a fresh width-by-height board with every cell `value`. */
  method CreateBoard(bounds: Bounds, value: int) returns (board: array2<int>)
    ensures fresh(board)
    ensures board.Length0 == bounds.width && board.Length1 == bounds.height
    ensures forall x, y | 0 <= x < bounds.width && 0 <= y < bounds.height :: board[x, y] == value
    ensures Cells(board) == Filled(bounds, value)
  {
    board := new int[bounds.width, bounds.height];
    for i := 0 to bounds.width
      invariant forall x, y | 0 <= x < i && 0 <= y < bounds.height :: board[x, y] == value
    {
      for j := 0 to bounds.height
        invariant forall x, y | 0 <= x < i && 0 <= y < bounds.height :: board[x, y] == value
        invariant forall y | 0 <= y < j :: board[i, y] == value
      {
        board[i, j] := value;
      }
    }
    HoldsCells(board, Filled(bounds, value));
  }

  /** `generateBoard`: walk from the centre, counting landings, and mark the
      start and end; returns the board with the bounds used. */
  method GenerateBoard(data: seq<Byte>, options: Options) returns (board: array2<int>, bounds: Bounds)
    requires ValidBounds(BoundsOf(options))
    ensures bounds == BoundsOf(options)
    ensures fresh(board)
    ensures board.Length0 == bounds.width && board.Length1 == bounds.height
    ensures Cells(board) == Generate(data, bounds)
  {
    bounds := BoundsOf(options);
    board := CreateBoard(bounds, Empty);
    var x := bounds.width / 2;
    var y := bounds.height / 2;
    board[x, y] := Start;

    ghost var done: seq<Group> := [];
    assert Holds(board, Initial(bounds).grid);
    for i := 0 to |data|
      invariant done == Groups(data[..i])
      invariant InBounds(Pos(x, y), bounds)
      invariant Run(Initial(bounds), done, bounds).pos == Pos(x, y)
      invariant Holds(board, Run(Initial(bounds), done, bounds).grid)
    {
      ghost var st := Run(Initial(bounds), done, bounds);
      x, y := VisitByte(board, bounds, x, y, data[i], st);
      RunAppend(Initial(bounds), done, ByteGroups(data[i]), bounds);
      GroupsSnoc(data, i);
      done := done + ByteGroups(data[i]);
    }

    board[x, y] := End;
    assert data[..|data|] == data;
    HoldsCells(board, Generate(data, bounds));
  }

  /** The callback `generateBoard` runs for each byte: four steps, one per
      2-bit group, each moving the cursor and counting the landing unless the
      landed cell holds a marker. */
  method VisitByte(board: array2<int>, bounds: Bounds, x0: int, y0: int, b: Byte, ghost st: State)
    returns (x: int, y: int)
    requires ValidBounds(bounds) && Sound(st, bounds) && st.pos == Pos(x0, y0)
    requires board.Length0 == bounds.width && board.Length1 == bounds.height
    requires Holds(board, st.grid)
    modifies board
    ensures Run(st, ByteGroups(b), bounds).pos == Pos(x, y)
    ensures Holds(board, Run(st, ByteGroups(b), bounds).grid)
  {
    x, y := x0, y0;
    var s := 0;
    ghost var k := 0;
    ghost var cur := st;
    while s < 8
      invariant 0 <= k <= 4 && s == 2 * k
      invariant cur == Run(st, ByteGroups(b)[..k], bounds)
      invariant Sound(cur, bounds) && cur.pos == Pos(x, y)
      invariant Holds(board, cur.grid)
    {
      var d := GroupAt(b, s);
      x, y := MoveCursor(x, y, d, bounds);
      CountLanding(board, x, y, cur.grid);

      NextGroup(st, b, k, bounds);
      cur := Step(cur, d, bounds);
      s, k := s + 2, k + 1;
    }
    assert ByteGroups(b)[..4] == ByteGroups(b);
  }

  /** The two switches of the step: bit 0 of the group picks left or right,
      bit 1 picks up or down, and a move off the board is dropped. */
  method MoveCursor(x0: int, y0: int, d: Group, bounds: Bounds) returns (x: int, y: int)
    ensures Pos(x, y) == Move(Pos(x0, y0), d, bounds)
  {
    x, y := x0, y0;
    if d == 0 || d == 1 {
      if y > 0 {
        y := y - 1;
      }
    } else {
      if y < bounds.height - 1 {
        y := y + 1;
      }
    }
    if d == 0 || d == 2 {
      if x > 0 {
        x := x - 1;
      }
    } else {
      if x < bounds.width - 1 {
        x := x + 1;
      }
    }
  }

  /** `if (board[x][y] >= special.empty) board[x][y]++` */
  method CountLanding(board: array2<int>, x: int, y: int, ghost g: Grid)
    requires 0 <= x < board.Length0 && 0 <= y < board.Length1
    requires Holds(board, g)
    modifies board
    ensures Holds(board, Landed(g, Pos(x, y)))
  {
    if board[x, y] >= Empty {
      board[x, y] := board[x, y] + 1;
    }
  }

  /** `boardToString`: row i of the text is column entry i of every column,
      looked up in the symbol table; the rows are joined by newlines. */
  method BoardToString(board: array2<int>, bounds: Bounds, options: Options) returns (s: string)
    requires board.Length0 == bounds.width && board.Length1 == bounds.height
    ensures s == Render(Cells(board), bounds, SymbolsOf(options))
  {
    var symbols := SymbolsOf(options);
    var result: seq<string> := [];
    for i := 0 to bounds.height
      invariant |result| == i
      invariant forall k | 0 <= k < i :: result[k] == Line(Cells(board), bounds, symbols, k, bounds.width)
    {
      var line := RowText(board, bounds, symbols, i);
      result := result + [line];
    }
    assert result == Lines(Cells(board), bounds, symbols);
    s := Join(result);
  }

  /** The inner loop of `boardToString`: the symbols of row i, left to right. */
  method RowText(board: array2<int>, bounds: Bounds, symbols: Symbols, i: nat) returns (line: string)
    requires board.Length0 == bounds.width && board.Length1 == bounds.height && i < bounds.height
    ensures line == Line(Cells(board), bounds, symbols, i, bounds.width)
  {
    line := "";
    for j := 0 to bounds.width
      invariant line == Line(Cells(board), bounds, symbols, i, j)
    {
      line := line + Symbol(symbols, board[j, i]);
    }
  }

  /** The picture `randomart` returns for supplied data. */
  function Picture(data: seq<Byte>, options: Options): string
    requires ValidBounds(BoundsOf(options))
  {
    Render(Generate(data, BoundsOf(options)), BoundsOf(options), SymbolsOf(options))
  }

  /** With the default symbols the picture shows `E` exactly where the
      cursor stopped, and `S` exactly at the centre unless the cursor stopped
      there; it has one line of `width` characters per row of the board. */
  lemma PictureMarkers(data: seq<Byte>, b: Bounds)
    requires ValidBounds(b)
    ensures var ls := Split(Picture(data, Options(Some(b), None)));
      |ls| == b.height &&
      forall i, j | 0 <= i < b.height && 0 <= j < b.width ::
        |ls[i]| == b.width &&
        (ls[i][j] == 'E' <==> Pos(j, i) == FinalPos(data, b)) &&
        (ls[i][j] == 'S' <==> Pos(j, i) == Centre(b) != FinalPos(data, b))
  {
    DefaultSymbolsOneChar();
    RenderShape(Generate(data, b), b, DefaultSymbols);
    Markers(data, b);
    forall v: int
      ensures Glyph(DefaultSymbols, v) == 'E' <==> v == End
      ensures Glyph(DefaultSymbols, v) == 'S' <==> v == Start
    {
      GlyphMarks(v);
    }
  }

  /** Under the default symbols only End shows as `E` and only Start as `S`. */
  lemma GlyphMarks(v: int)
    ensures OneCharSymbols(DefaultSymbols)
    ensures Glyph(DefaultSymbols, v) == 'E' <==> v == End
    ensures Glyph(DefaultSymbols, v) == 'S' <==> v == Start
  {
    DefaultSymbolsOneChar();
  }

  /** `randomart`: generate the board, then render it. */
  method Randomart(data: seq<Byte>, options: Options) returns (s: string)
    requires ValidBounds(BoundsOf(options))
    ensures s == Picture(data, options)
  {
    var board, bounds := GenerateBoard(data, options);
    s := BoardToString(board, bounds, options);
  }
}
