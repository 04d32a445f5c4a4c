/** `boardToString` of lib/randomart.js as pure functions: the column-major
    board is read row by row, each cell becomes its symbol, and the rows are
    joined by newlines. */
module Renderer {
  import opened Walk

  /** A symbol table: cell value to display text. */
  type Symbols = map<int, string>

  /** `defaultSymbols`: the two markers, then one character per visit count 0 to 14. */
  const DefaultSymbols: Symbols := map[
    -2 := "E", -1 := "S",
    0 := " ", 1 := ".", 2 := "o", 3 := "+", 4 := "=", 5 := "*", 6 := "B", 7 := "O",
    8 := "X", 9 := "@", 10 := "%", 11 := "&", 12 := "#", 13 := "/", 14 := "^"]

  /** `symbols[v] || symbols[special.empty]`: the value's own entry unless it is
      missing or the empty text, else the Empty entry, else nothing (a missing
      entry joins as no text). */
  function Symbol(symbols: Symbols, v: int): string {
    if v in symbols && symbols[v] != "" then symbols[v]
    else if Empty in symbols then symbols[Empty]
    else ""
  }

  /** A cell shows its own non-empty entry, else the entry of Empty; it shows
      nothing only when neither gives any text. */
  lemma SymbolLookup(symbols: Symbols, v: int)
    ensures v in symbols && symbols[v] != "" ==> Symbol(symbols, v) == symbols[v]
    ensures (v !in symbols || symbols[v] == "") && Empty in symbols ==> Symbol(symbols, v) == symbols[Empty]
    ensures Symbol(symbols, v) == "" <==>
      (v !in symbols || symbols[v] == "") && (Empty !in symbols || symbols[Empty] == "")
  {
  }

  /** The first `n` cells of row `i`, rendered and concatenated. */
  function Line(g: Grid, b: Bounds, symbols: Symbols, i: nat, n: nat): string
    requires IsGrid(g, b) && i < b.height && n <= b.width
    decreases n
  {
    if n == 0 then "" else Line(g, b, symbols, i, n - 1) + Symbol(symbols, g[n - 1][i])
  }

  /** The output rows: row i holds the cells g[0][i] .. g[width-1][i]. */
  function Lines(g: Grid, b: Bounds, symbols: Symbols): (ls: seq<string>)
    requires IsGrid(g, b)
    ensures |ls| == b.height
  {
    seq(b.height, i requires 0 <= i < b.height => Line(g, b, symbols, i, b.width))
  }

  /** `Array.prototype.join('\n')`: the lines with one newline between each two. */
  function Join(ls: seq<string>): string
    decreases |ls|
  {
    if |ls| == 0 then ""
    else if |ls| == 1 then ls[0]
    else Join(ls[..|ls| - 1]) + "\n" + ls[|ls| - 1]
  }

  /** The rendered board. */
  function Render(g: Grid, b: Bounds, symbols: Symbols): string
    requires IsGrid(g, b)
  {
    Join(Lines(g, b, symbols))
  }

  // ---------------------------------------------------------------------
  // Reading the output back as lines

  /** The text cut at every newline (always at least one piece). */
  function Split(s: string): (ls: seq<string>)
    ensures |ls| >= 1
    decreases |s|
  {
    if |s| == 0 then [""]
    else
      var init := Split(s[..|s| - 1]);
      var c := s[|s| - 1];
      if c == '\n' then init + [""]
      else init[..|init| - 1] + [init[|init| - 1] + [c]]
  }

  predicate NoNewline(s: string) {
    forall k | 0 <= k < |s| :: s[k] != '\n'
  }

  /** Text without a newline is a single line. */
  lemma {:induction false} SplitOneLine(s: string)
    requires NoNewline(s)
    ensures Split(s) == [s]
    decreases |s|
  {
    if |s| > 0 {
      SplitOneLine(s[..|s| - 1]);
      assert s[..|s| - 1] + [s[|s| - 1]] == s;
    }
  }

  /** A newline followed by newline-free text adds exactly that text as a line. */
  lemma {:induction false} SplitAppendLine(a: string, l: string)
    requires NoNewline(l)
    ensures Split(a + "\n" + l) == Split(a) + [l]
    decreases |l|
  {
    if |l| == 0 {
      assert (a + "\n" + l)[..|a + "\n" + l| - 1] == a;
    } else {
      var l' := l[..|l| - 1];
      SplitAppendLine(a, l');
      assert (a + "\n" + l)[..|a + "\n" + l| - 1] == a + "\n" + l';
      assert l' + [l[|l| - 1]] == l;
    }
  }

  /** Joining lines that hold no newline and splitting the result gives the lines back. */
  lemma {:induction false} SplitJoin(ls: seq<string>)
    requires |ls| >= 1
    requires forall k | 0 <= k < |ls| :: NoNewline(ls[k])
    ensures Split(Join(ls)) == ls
    decreases |ls|
  {
    if |ls| == 1 {
      SplitOneLine(ls[0]);
    } else {
      var init := ls[..|ls| - 1];
      SplitJoin(init);
      SplitAppendLine(Join(init), ls[|ls| - 1]);
      assert init + [ls[|ls| - 1]] == ls;
    }
  }

  /** Cutting text at its newlines and joining the pieces with newlines gives the text back. */
  lemma {:induction false} JoinSplit(s: string)
    ensures Join(Split(s)) == s
    decreases |s|
  {
    if |s| > 0 {
      var s', c := s[..|s| - 1], s[|s| - 1];
      assert s' + [c] == s;
      JoinSplit(s');
      var init := Split(s');
      var k := |init|;
      if c == '\n' {
        assert Split(s) == init + [""];
        JoinUnfold(init + [""]);
        assert (init + [""])[..k] == init;
      } else {
        assert Split(s) == init[..k - 1] + [init[k - 1] + [c]];
        assert init[..k - 1] + [init[k - 1]] == init;
        JoinExtendLast(init[..k - 1], init[k - 1], c);
      }
    }
  }

  /** Appending a character to the last line appends it to the joined text. */
  lemma JoinExtendLast(init: seq<string>, l: string, c: char)
    ensures Join(init + [l + [c]]) == Join(init + [l]) + [c]
  {
    if init == [] {
      assert init + [l + [c]] == [l + [c]] && init + [l] == [l];
    } else {
      JoinUnfold(init + [l + [c]]);
      JoinUnfold(init + [l]);
      assert (init + [l + [c]])[..|init|] == init && (init + [l])[..|init|] == init;
      var a := Join(init);
      assert a + "\n" + (l + [c]) == (a + "\n" + l) + [c];
    }
  }

  /** `join` of two or more lines is the join of all but the last, a newline, and the last. */
  lemma JoinUnfold(ls: seq<string>)
    requires |ls| >= 2
    ensures Join(ls) == Join(ls[..|ls| - 1]) + "\n" + ls[|ls| - 1]
  {
  }

  // ---------------------------------------------------------------------
  // The shape of the output

  /** A table whose entries are single characters other than newline, and
      that has an Empty entry, as `defaultSymbols` is. */
  predicate OneCharSymbols(symbols: Symbols) {
    Empty in symbols && forall v | v in symbols :: |symbols[v]| == 1 && symbols[v][0] != '\n'
  }

  /** The character a cell value shows as under such a table: its own entry,
      or the Empty entry when it has none. */
  function Glyph(symbols: Symbols, v: int): char
    requires OneCharSymbols(symbols)
  {
    if v in symbols then symbols[v][0] else symbols[Empty][0]
  }

  /** Under such a table a cell's symbol is the one character Glyph gives. */
  lemma SymbolGlyph(symbols: Symbols, v: int)
    requires OneCharSymbols(symbols)
    ensures Symbol(symbols, v) == [Glyph(symbols, v)]
  {
  }

  lemma {:induction false} LineShape(g: Grid, b: Bounds, symbols: Symbols, i: nat, n: nat)
    requires IsGrid(g, b) && i < b.height && n <= b.width && OneCharSymbols(symbols)
    ensures var l := Line(g, b, symbols, i, n);
      |l| == n && forall j | 0 <= j < n :: l[j] == Glyph(symbols, g[j][i])
    decreases n
  {
    if n > 0 {
      LineShape(g, b, symbols, i, n - 1);
    }
  }

  /** With a one-character table the output is exactly `height` newline-separated
      lines (no trailing newline), each of `width` characters, and character j of
      line i shows cell g[j][i] (the board read transposed), falling back to the
      Empty symbol for values the table lacks. */
  lemma RenderShape(g: Grid, b: Bounds, symbols: Symbols)
    requires ValidBounds(b) && IsGrid(g, b) && OneCharSymbols(symbols)
    ensures Split(Render(g, b, symbols)) == Lines(g, b, symbols)
    ensures var ls := Split(Render(g, b, symbols));
      |ls| == b.height &&
      forall i | 0 <= i < b.height ::
        |ls[i]| == b.width && forall j | 0 <= j < b.width :: ls[i][j] == Glyph(symbols, g[j][i])
  {
    var ls := Lines(g, b, symbols);
    forall i | 0 <= i < b.height
      ensures |ls[i]| == b.width && NoNewline(ls[i])
      ensures forall j | 0 <= j < b.width :: ls[i][j] == Glyph(symbols, g[j][i])
    {
      LineShape(g, b, symbols, i, b.width);
    }
    SplitJoin(ls);
  }

  lemma DefaultSymbolsOneChar()
    ensures OneCharSymbols(DefaultSymbols)
  {
  }

  /** What each cell value shows as under `defaultSymbols`: the markers and the
      counts 0 to 14 have their own character; any other value, a count of 15
      or more included, shows as the Empty symbol, a space. */
  lemma DefaultSymbolLevels(v: int)
    ensures -2 <= v <= 14 ==> Symbol(DefaultSymbols, v) == ["ES .o+=*BOX@%&#/^"[v + 2]]
    ensures v < -2 || v > 14 ==> Symbol(DefaultSymbols, v) == " "
  {
  }
}
