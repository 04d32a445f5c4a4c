/** The "drunken bishop" walk of lib/randomart.js as pure functions:
    the board is a column-major grid (grid[x][y]), the walk is driven by
    the 2-bit groups of the input bytes, and the generated board holds
    visit counts plus a start and an end marker. */
module Walk {

  /** Reserved cell values (`special` in the source). */
  const End: int := -2
  const Start: int := -1
  const Empty: int := 0

  /** The input bytes; the source shifts and masks them as 8-bit values. */
  type Byte = bv8

  /** Grid dimensions: width is the X axis, height the Y axis. */
  datatype Bounds = Bounds(width: nat, height: nat)

  const DefaultBounds: Bounds := Bounds(17, 9)

  /** The walk needs at least one cell; the source does not check this. */
  predicate ValidBounds(b: Bounds) {
    b.width > 0 && b.height > 0
  }

  datatype Pos = Pos(x: int, y: int)

  predicate InBounds(p: Pos, b: Bounds) {
    0 <= p.x < b.width && 0 <= p.y < b.height
  }

  /** Where the walk starts: (floor(width / 2), floor(height / 2)). */
  function Centre(b: Bounds): (c: Pos)
    ensures ValidBounds(b) ==> InBounds(c, b)
  {
    Pos(b.width / 2, b.height / 2)
  }

  // ---------------------------------------------------------------------
  // Grids

  /** A board stored column by column: grid[x][y]. */
  type Grid = seq<seq<int>>

  predicate IsGrid(g: Grid, b: Bounds) {
    |g| == b.width && forall x | 0 <= x < |g| :: |g[x]| == b.height
  }

  /** The board `createBoard` allocates: every cell holds `v`. */
  function Filled(b: Bounds, v: int): (g: Grid)
    ensures IsGrid(g, b)
    ensures forall x, y | 0 <= x < b.width && 0 <= y < b.height :: g[x][y] == v
  {
    seq(b.width, _ => seq(b.height, _ => v))
  }

  /** The grid with the one cell at `p` replaced by `v`. */
  function Put(g: Grid, p: Pos, v: int): (r: Grid)
    requires 0 <= p.x < |g| && 0 <= p.y < |g[p.x]|
    ensures |r| == |g| && forall x | 0 <= x < |g| :: |r[x]| == |g[x]|
    ensures forall x, y | 0 <= x < |g| && 0 <= y < |g[x]| ::
      r[x][y] == if x == p.x && y == p.y then v else g[x][y]
  {
    g[p.x := g[p.x][p.y := v]]
  }

  // ---------------------------------------------------------------------
  // Decoding the input into 2-bit groups

  /** One step's worth of input: bit 1 chooses down or up, bit 0 right or left. */
  type Group = d: int | 0 <= d < 4

  /** The group `(b >> s) & 3`. */
  function GroupAt(b: Byte, s: nat): Group
    requires s < 8
  {
    ((b >> s) & 3) as int
  }

  /** The four groups of one byte, least-significant pair first. */
  function ByteGroups(b: Byte): seq<Group> {
    [GroupAt(b, 0), GroupAt(b, 2), GroupAt(b, 4), GroupAt(b, 6)]
  }

  /** The groups of all bytes, in input order. */
  function Groups(data: seq<Byte>): (gs: seq<Group>)
    ensures |gs| == 4 * |data|
    decreases |data|
  {
    if data == [] then [] else Groups(data[..|data| - 1]) + ByteGroups(data[|data| - 1])
  }

  /** The four groups of a byte are its base-4 digits, least significant first,
      so no bit of the byte is lost or read twice. */
  lemma ByteGroupsAreDigits(b: Byte)
    ensures var gs := ByteGroups(b);
      |gs| == 4 && b as int == gs[0] as int + 4 * (gs[1] as int) + 16 * (gs[2] as int) + 64 * (gs[3] as int)
  {
    LowPair(b);
    LowPair(b >> 2);
    LowPair(b >> 4);
    assert (b >> 2) >> 2 == b >> 4 && (b >> 4) >> 2 == b >> 6;
    assert (b >> 6) & 3 == b >> 6;
  }

  /** Splitting off the low pair of bits of a byte. */
  lemma LowPair(x: Byte)
    ensures x as int == (x & 3) as int + 4 * ((x >> 2) as int)
  {
  }

  /** Every byte is read as exactly four steps, and step 4*i + k of the walk
      uses bits 2k and 2k+1 of byte i. */
  lemma {:induction false} GroupsAt(data: seq<Byte>, i: int, k: int)
    requires 0 <= i < |data| && 0 <= k < 4
    ensures |Groups(data)| == 4 * |data|
    ensures Groups(data)[4 * i + k] == GroupAt(data[i], 2 * k)
  {
    var init := data[..|data| - 1];
    if i < |data| - 1 {
      GroupsAt(init, i, k);
    }
  }

  /** Reading one more byte appends its four groups. */
  lemma GroupsSnoc(data: seq<Byte>, i: nat)
    requires i < |data|
    ensures Groups(data[..i + 1]) == Groups(data[..i]) + ByteGroups(data[i])
  {
    assert data[..i + 1][..i] == data[..i];
  }

  // ---------------------------------------------------------------------
  // Moving the cursor

  /** The first `switch`: groups 0 and 1 go up, 2 and 3 go down; never past an edge. */
  function MoveY(y: int, d: Group, b: Bounds): (r: int)
    ensures 0 <= y < b.height ==> 0 <= r < b.height
    ensures r == y - 1 || r == y || r == y + 1
    ensures r != y ==> (r < y <==> d / 2 == 0)
    ensures r == y ==> (d / 2 == 0 && y <= 0) || (d / 2 == 1 && y >= b.height - 1)
  {
    if d == 0 || d == 1 then (if y > 0 then y - 1 else y)
    else (if y < b.height - 1 then y + 1 else y)
  }

  /** The second `switch`: groups 0 and 2 go left, 1 and 3 go right; never past an edge. */
  function MoveX(x: int, d: Group, b: Bounds): (r: int)
    ensures 0 <= x < b.width ==> 0 <= r < b.width
    ensures r == x - 1 || r == x || r == x + 1
    ensures r != x ==> (r < x <==> d % 2 == 0)
    ensures r == x ==> (d % 2 == 0 && x <= 0) || (d % 2 == 1 && x >= b.width - 1)
  {
    if d == 0 || d == 2 then (if x > 0 then x - 1 else x)
    else (if x < b.width - 1 then x + 1 else x)
  }

  /** One diagonal step of the bishop. */
  function Move(p: Pos, d: Group, b: Bounds): (r: Pos)
    ensures InBounds(p, b) ==> InBounds(r, b)
  {
    Pos(MoveX(p.x, d, b), MoveY(p.y, d, b))
  }

  function Clamp(v: int, hi: int): int {
    if v < 0 then 0 else if v > hi then hi else v
  }

  /** A step is the unconstrained diagonal move (bit 1 of the group: +1 or -1
      in y, bit 0: +1 or -1 in x) clipped to the board: it stays in bounds and
      stops at an edge instead of wrapping around. */
  lemma MoveIsClampedStep(p: Pos, d: Group, b: Bounds)
    requires ValidBounds(b) && InBounds(p, b)
    ensures var dx := if d % 2 == 1 then 1 else -1;
            var dy := if d / 2 == 1 then 1 else -1;
            Move(p, d, b) == Pos(Clamp(p.x + dx, b.width - 1), Clamp(p.y + dy, b.height - 1))
    ensures InBounds(Move(p, d, b), b)
  {
  }

  // ---------------------------------------------------------------------
  // The cursor trail, a reference for the walk

  /** The cursor positions after each step, starting from `p`. */
  function Trail(p: Pos, gs: seq<Group>, b: Bounds): (t: seq<Pos>)
    ensures |t| == |gs|
    decreases |gs|
  {
    if gs == [] then []
    else var t := Trail(p, gs[..|gs| - 1], b); t + [Move(Last(p, t), gs[|gs| - 1], b)]
  }

  /** The position after a trail: its last element, or `p` when no step was taken. */
  function Last(p: Pos, t: seq<Pos>): Pos {
    if t == [] then p else t[|t| - 1]
  }

  /** How many steps of a trail land on `q`. */
  function Visits(t: seq<Pos>, q: Pos): nat
    decreases |t|
  {
    if t == [] then 0 else Visits(t[..|t| - 1], q) + (if t[|t| - 1] == q then 1 else 0)
  }

  /** Walking two blocks of groups one after the other. */
  lemma {:induction false} TrailAppend(p: Pos, gs: seq<Group>, hs: seq<Group>, b: Bounds)
    ensures Trail(p, gs + hs, b) == Trail(p, gs, b) + Trail(Last(p, Trail(p, gs, b)), hs, b)
    decreases |hs|
  {
    if hs == [] {
      assert gs + hs == gs;
    } else {
      var init := hs[..|hs| - 1];
      TrailAppend(p, gs, init, b);
      assert (gs + hs)[..|gs + hs| - 1] == gs + init;
      var t := Trail(p, gs, b);
      var u := Trail(Last(p, t), init, b);
      assert Last(p, t + u) == Last(Last(p, t), u);
    }
  }

  /** The four positions one byte moves the cursor through. */
  lemma ByteTrail(p: Pos, byte: Byte, b: Bounds)
    ensures var p1 := Move(p, GroupAt(byte, 0), b);
            var p2 := Move(p1, GroupAt(byte, 2), b);
            var p3 := Move(p2, GroupAt(byte, 4), b);
            var p4 := Move(p3, GroupAt(byte, 6), b);
            Trail(p, ByteGroups(byte), b) == [p1, p2, p3, p4]
  {
    var gs := ByteGroups(byte);
    var p1 := Move(p, gs[0], b);
    var p2 := Move(p1, gs[1], b);
    var p3 := Move(p2, gs[2], b);
    assert gs[..1][..0] == [] && gs[..2][..1] == gs[..1] && gs[..3][..2] == gs[..2] && gs[..4] == gs;
    assert gs[..4][..3] == gs[..3];
    assert Trail(p, gs[..1], b) == [p1];
    assert Trail(p, gs[..2], b) == [p1, p2];
    assert Trail(p, gs[..3], b) == [p1, p2, p3];
  }

  /** The trail of a prefix of the input grows by one byte's four positions. */
  lemma TrailByByte(p: Pos, data: seq<Byte>, n: nat, b: Bounds)
    requires n < |data|
    ensures var t := Trail(p, Groups(data[..n]), b);
      Trail(p, Groups(data[..n + 1]), b) == t + Trail(Last(p, t), ByteGroups(data[n]), b)
  {
    GroupsSnoc(data, n);
    TrailAppend(p, Groups(data[..n]), ByteGroups(data[n]), b);
  }

  lemma {:induction false} VisitsAppend(t: seq<Pos>, u: seq<Pos>, q: Pos)
    ensures Visits(t + u, q) == Visits(t, q) + Visits(u, q)
    decreases |u|
  {
    if u == [] {
      assert t + u == t;
    } else {
      VisitsAppend(t, u[..|u| - 1], q);
      assert (t + u)[..|t + u| - 1] == t + u[..|u| - 1];
    }
  }

  /** The cursor never leaves the board. */
  lemma {:induction false} TrailInBounds(p: Pos, gs: seq<Group>, b: Bounds)
    requires ValidBounds(b) && InBounds(p, b)
    ensures forall k | 0 <= k < |gs| :: InBounds(Trail(p, gs, b)[k], b)
    ensures InBounds(Last(p, Trail(p, gs, b)), b)
    decreases |gs|
  {
    if gs != [] {
      var init := gs[..|gs| - 1];
      TrailInBounds(p, init, b);
      MoveIsClampedStep(Last(p, Trail(p, init, b)), gs[|gs| - 1], b);
    }
  }

  // ---------------------------------------------------------------------
  // The walk over the board

  /** The walk's state: the board so far and the cursor. */
  datatype State = State(grid: Grid, pos: Pos)

  predicate Sound(st: State, b: Bounds) {
    IsGrid(st.grid, b) && InBounds(st.pos, b)
  }

  /** Counting a landing on `p`: a cell holding a count (>= Empty) goes up by
      one; a cell holding a marker (negative) is left as it is. */
  function Landed(g: Grid, p: Pos): (r: Grid)
    requires 0 <= p.x < |g| && 0 <= p.y < |g[p.x]|
    ensures |r| == |g| && forall x | 0 <= x < |g| :: |r[x]| == |g[x]|
    ensures forall x, y | 0 <= x < |g| && 0 <= y < |g[x]| && Pos(x, y) != p :: r[x][y] == g[x][y]
    ensures g[p.x][p.y] >= Empty ==> r[p.x][p.y] == g[p.x][p.y] + 1
    ensures g[p.x][p.y] < Empty ==> r == g
  {
    if g[p.x][p.y] >= Empty then Put(g, p, g[p.x][p.y] + 1) else g
  }

  /** One step of `generateBoard`'s inner loop: move, then count the landing. */
  function Step(st: State, d: Group, b: Bounds): (r: State)
    requires Sound(st, b)
    ensures Sound(r, b)
  {
    var p := Move(st.pos, d, b);
    State(Landed(st.grid, p), p)
  }

  /** The steps for the groups `gs`, in order. */
  function Run(st: State, gs: seq<Group>, b: Bounds): (r: State)
    requires Sound(st, b)
    ensures Sound(r, b)
    decreases |gs|
  {
    if gs == [] then st else Step(Run(st, gs[..|gs| - 1], b), gs[|gs| - 1], b)
  }

  lemma RunSnoc(st: State, gs: seq<Group>, d: Group, b: Bounds)
    requires Sound(st, b)
    ensures Run(st, gs + [d], b) == Step(Run(st, gs, b), d, b)
  {
    assert (gs + [d])[..|gs|] == gs;
  }

  /** Running the first k + 1 groups of a byte is one more step after the first k. */
  lemma NextGroup(st: State, b: Byte, k: nat, bounds: Bounds)
    requires Sound(st, bounds) && k < 4
    ensures Run(st, ByteGroups(b)[..k + 1], bounds) ==
      Step(Run(st, ByteGroups(b)[..k], bounds), GroupAt(b, 2 * k), bounds)
  {
    var gs := ByteGroups(b);
    assert gs[k] == GroupAt(b, 2 * k) by {
      if k == 0 {} else if k == 1 {} else if k == 2 {} else {}
    }
    assert gs[..k + 1] == gs[..k] + [gs[k]];
    RunSnoc(st, gs[..k], gs[k], bounds);
  }

  /** Running two blocks of groups one after the other is running them together. */
  lemma {:induction false} RunAppend(st: State, gs: seq<Group>, hs: seq<Group>, b: Bounds)
    requires Sound(st, b)
    ensures Run(st, gs + hs, b) == Run(Run(st, gs, b), hs, b)
    decreases |hs|
  {
    if hs == [] {
      assert gs + hs == gs;
    } else {
      var init := hs[..|hs| - 1];
      RunAppend(st, gs, init, b);
      assert (gs + hs)[..|gs + hs| - 1] == gs + init;
      assert Run(st, gs + hs, b) == Step(Run(st, gs + init, b), hs[|hs| - 1], b);
    }
  }

  /** The board before the first step: all Empty, the centre marked Start. */
  function Initial(b: Bounds): (st: State)
    requires ValidBounds(b)
    ensures Sound(st, b)
  {
    State(Put(Filled(b, Empty), Centre(b), Start), Centre(b))
  }

  /** The board `generateBoard` returns: the walk, then End written over the
      cursor's final cell. */
  function Generate(data: seq<Byte>, b: Bounds): (g: Grid)
    requires ValidBounds(b)
    ensures IsGrid(g, b)
  {
    var st := Run(Initial(b), Groups(data), b);
    Put(st.grid, st.pos, End)
  }

  /** Where the cursor stops, from the trail alone. */
  function FinalPos(data: seq<Byte>, b: Bounds): Pos {
    Last(Centre(b), Trail(Centre(b), Groups(data), b))
  }

  /** The walk from the initial board follows the trail, keeps the start
      marker at the centre however often the cursor lands there, and leaves
      in every other cell the number of steps that landed on it. */
  lemma {:induction false} RunCounts(gs: seq<Group>, b: Bounds)
    requires ValidBounds(b)
    ensures Run(Initial(b), gs, b).pos == Last(Centre(b), Trail(Centre(b), gs, b))
    ensures forall x, y | 0 <= x < b.width && 0 <= y < b.height ::
      Run(Initial(b), gs, b).grid[x][y] ==
        if Pos(x, y) == Centre(b) then Start else Visits(Trail(Centre(b), gs, b), Pos(x, y))
    decreases |gs|
  {
    if gs != [] {
      var init, d := gs[..|gs| - 1], gs[|gs| - 1];
      RunCounts(init, b);
      var t := Trail(Centre(b), init, b);
      var st := Run(Initial(b), init, b);
      var p := Move(st.pos, d, b);
      assert Trail(Centre(b), gs, b) == t + [p];
      assert (t + [p])[..|t|] == t;
      assert Run(Initial(b), gs, b) == State(Landed(st.grid, p), p);
      forall x, y | 0 <= x < b.width && 0 <= y < b.height
        ensures Landed(st.grid, p)[x][y] ==
          if Pos(x, y) == Centre(b) then Start else Visits(t + [p], Pos(x, y))
      {
        assert Visits(t + [p], Pos(x, y)) == Visits(t, Pos(x, y)) + if p == Pos(x, y) then 1 else 0;
      }
    }
  }

  /** The markers of the generated board: End exactly at the final cursor
      position, Start exactly at the centre unless the walk ended there, and
      a visit count in every other cell. */
  lemma Markers(data: seq<Byte>, b: Bounds)
    requires ValidBounds(b)
    ensures InBounds(FinalPos(data, b), b)
    ensures forall x, y | 0 <= x < b.width && 0 <= y < b.height ::
      (Generate(data, b)[x][y] == End <==> Pos(x, y) == FinalPos(data, b))
    ensures forall x, y | 0 <= x < b.width && 0 <= y < b.height ::
      (Generate(data, b)[x][y] == Start <==> Pos(x, y) == Centre(b) != FinalPos(data, b))
    ensures forall x, y | 0 <= x < b.width && 0 <= y < b.height ::
      (Generate(data, b)[x][y] >= Empty <==> Pos(x, y) != FinalPos(data, b) && Pos(x, y) != Centre(b))
  {
    GenerateCells(data, b);
  }

  /** Each cell of the generated board, stated from the trail. */
  lemma GenerateCells(data: seq<Byte>, b: Bounds)
    requires ValidBounds(b)
    ensures InBounds(FinalPos(data, b), b)
    ensures forall x, y | 0 <= x < b.width && 0 <= y < b.height ::
      Generate(data, b)[x][y] ==
        if Pos(x, y) == FinalPos(data, b) then End
        else if Pos(x, y) == Centre(b) then Start
        else Visits(Trail(Centre(b), Groups(data), b), Pos(x, y))
  {
    RunCounts(Groups(data), b);
    TrailInBounds(Centre(b), Groups(data), b);
  }

  /** Without input the cursor never moves: End at the centre, Empty elsewhere. */
  lemma EmptyData(b: Bounds)
    requires ValidBounds(b)
    ensures FinalPos([], b) == Centre(b)
    ensures forall x, y | 0 <= x < b.width && 0 <= y < b.height ::
      Generate([], b)[x][y] == if Pos(x, y) == Centre(b) then End else Empty
  {
    assert Groups([]) == [];
  }
}
