/** Day 4 (src/day4.cpp): rolls of paper ('@') on a grid. A roll is
    accessible when fewer than four of its eight neighbours hold a roll.
    Part 1 counts the accessible rolls; part 2 sweeps the grid row by row,
    removing every roll that is accessible when its turn comes, and repeats
    the sweeps until one removes nothing. */
module Day4 {
  import opened Wrappers
  import opened Text
  import opened Grids

  const PaperSymbol := '@'
  const EmptySymbol := '.'

  /** What a Grid<char> holds: its shape and its buffer. */
  datatype Board = Board(nrows: nat, ncols: nat, cells: seq<char>)

  /** The shape every constructed grid has: a full buffer, and no more rows
      than columns (a taller grid fails to build). */
  predicate WellFormed(b: Board) {
    |b.cells| == b.nrows * b.ncols && b.nrows <= b.ncols
  }

  function View(g: Grid<char>): (b: Board)
    reads g, g.buf
  {
    Board(g.nrows, g.ncols, g.buf[..])
  }

  /** at(i, j) on the board: fails outside the grid or the buffer. */
  function Get(b: Board, i: nat, j: nat): (r: Option<char>)
    ensures r.Some? <==> i < b.nrows && j < b.ncols && Slot(b.nrows, i, j) < |b.cells|
    ensures r.Some? ==> r.value == b.cells[Slot(b.nrows, i, j)]
  {
    if i < b.nrows && j < b.ncols && Slot(b.nrows, i, j) < |b.cells| then Some(b.cells[Slot(b.nrows, i, j)]) else None
  }

  /** Grid::at(i, j) is Get on the grid's board. */
  lemma AtIsGet(g: Grid<char>, i: nat, j: nat)
    ensures g.At(i, j) == Get(View(g), i, j)
  {
  }

  /** On a well-formed board every cell inside the grid can be read. */
  lemma GetInGrid(b: Board, i: nat, j: nat)
    requires WellFormed(b)
    ensures Get(b, i, j).Some? <==> i < b.nrows && j < b.ncols
  {
    if i < b.nrows && j < b.ncols {
      SlotInBuffer(b.nrows, b.ncols, i, j);
    }
  }

  /** The cell one step from (i, j) in direction d. */
  function Target(i: nat, j: nat, d: (int, int)): (int, int) {
    (i + d.0, j + d.1)
  }

  predicate Inside(nrows: nat, ncols: nat, c: (int, int)) {
    0 <= c.0 < nrows && 0 <= c.1 < ncols
  }

  /** The cell c when it lies inside an nrows x ncols grid. */
  function Step(nrows: nat, ncols: nat, c: (int, int)): (s: seq<(nat, nat)>)
    ensures |s| == if Inside(nrows, ncols, c) then 1 else 0
  {
    if Inside(nrows, ncols, c) then [(c.0 as nat, c.1 as nat)] else []
  }

  /** The eight directions (row step, column step) in the order
      reachable_indices tries them: east, north-east, north, north-west,
      west, south-west, south, south-east. */
  function Direction(k: nat): (d: (int, int))
    requires k < 8
    ensures d != (0, 0) && -1 <= d.0 <= 1 && -1 <= d.1 <= 1
  {
    [(0, 1), (-1, 1), (-1, 0), (-1, -1), (0, -1), (1, -1), (1, 0), (1, 1)][k]
  }

  /** No direction is listed twice. */
  lemma DirectionsDistinct(s: nat, t: nat)
    requires s < 8 && t < 8 && s != t
    ensures Direction(s) != Direction(t)
  {
  }

  /** The cells one step from (i, j) in the first k directions that lie
      inside the grid, in the order of the directions. */
  function Around(nrows: nat, ncols: nat, i: nat, j: nat, k: nat): (ns: seq<(nat, nat)>)
    requires k <= 8
    ensures |ns| <= k
  {
    if k == 0 then []
    else Around(nrows, ncols, i, j, k - 1) + Step(nrows, ncols, Target(i, j, Direction(k - 1)))
  }

  /** p is a cell of the grid other than (i, j), at most one step from it
      in each coordinate. */
  predicate Adjacent(nrows: nat, ncols: nat, i: nat, j: nat, p: (nat, nat)) {
    p.0 < nrows && p.1 < ncols && p != (i, j) && -1 <= p.0 - i <= 1 && -1 <= p.1 - j <= 1
  }

  /** The neighbours of (i, j) inside the grid, in the order of the
      directions: exactly the adjacent cells, none of them twice. */
  function Neighbours(nrows: nat, ncols: nat, i: nat, j: nat): (ns: seq<(nat, nat)>)
    ensures forall p :: p in ns <==> Adjacent(nrows, ncols, i, j, p)
    ensures forall a, b :: 0 <= a < b < |ns| ==> ns[a] != ns[b]
  {
    AroundAre(nrows, ncols, i, j);
    AroundDistinct(nrows, ncols, i, j);
    Around(nrows, ncols, i, j, 8)
  }

  /** reachable_indices(grid, i, j): one push for each direction whose
      guard (first or last row, first or last column) lets it through. */
  method ReachableIndices<T>(g: Grid<T>, i: nat, j: nat) returns (idx: seq<(nat, nat)>)
    requires i < g.nrows && j < g.ncols
    ensures idx == Neighbours(g.nrows, g.ncols, i, j)
  {
    var firsti := i == 0;
    var firstj := j == 0;
    var lasti := i == g.nrows - 1;
    var lastj := j == g.ncols - 1;
    ghost var n, m := g.nrows, g.ncols;
    idx := [];
    idx := PushIf(n, m, i, j, 0, idx, !lastj, (i, j + 1));
    idx := PushIf(n, m, i, j, 1, idx, !firsti && !lastj, (i - 1, j + 1));
    idx := PushIf(n, m, i, j, 2, idx, !firsti, (i - 1, j));
    idx := PushIf(n, m, i, j, 3, idx, !firsti && !firstj, (i - 1, j - 1));
    idx := PushIf(n, m, i, j, 4, idx, !firstj, (i, j - 1));
    idx := PushIf(n, m, i, j, 5, idx, !lasti && !firstj, (i + 1, j - 1));
    idx := PushIf(n, m, i, j, 6, idx, !lasti, (i + 1, j));
    idx := PushIf(n, m, i, j, 7, idx, !lasti && !lastj, (i + 1, j + 1));
  }

  /** One guarded push_back of reachable_indices: direction k's cell is
      added exactly when the guard lets it through. */
  method PushIf(ghost nrows: nat, ghost ncols: nat, i: nat, j: nat, ghost k: nat, idx: seq<(nat, nat)>, guard: bool, c: (int, int)) returns (idx': seq<(nat, nat)>)
    requires k < 8 && idx == Around(nrows, ncols, i, j, k)
    requires c == Target(i, j, Direction(k)) && (guard <==> Inside(nrows, ncols, c))
    ensures idx' == Around(nrows, ncols, i, j, k + 1)
  {
    idx' := idx;
    if guard {
      idx' := idx' + [(c.0 as nat, c.1 as nat)];
    }
  }

  /** Which of the first k directions contribute a cell to Around, in
      order. */
  function Origins(nrows: nat, ncols: nat, i: nat, j: nat, k: nat): (ts: seq<nat>)
    requires k <= 8
  {
    if k == 0 then []
    else
      Origins(nrows, ncols, i, j, k - 1) +
      (if Inside(nrows, ncols, Target(i, j, Direction(k - 1))) then [k - 1] else [])
  }

  /** The a-th cell of Around is the target of direction Origins[a],
      which is one of the first k and lands inside the grid. */
  lemma {:induction false} AroundOrigins(nrows: nat, ncols: nat, i: nat, j: nat, k: nat)
    requires k <= 8
    ensures |Origins(nrows, ncols, i, j, k)| == |Around(nrows, ncols, i, j, k)|
    ensures forall a :: 0 <= a < |Origins(nrows, ncols, i, j, k)| ==>
      Origins(nrows, ncols, i, j, k)[a] < k &&
      Inside(nrows, ncols, Target(i, j, Direction(Origins(nrows, ncols, i, j, k)[a]))) &&
      Around(nrows, ncols, i, j, k)[a].0 == Target(i, j, Direction(Origins(nrows, ncols, i, j, k)[a])).0 &&
      Around(nrows, ncols, i, j, k)[a].1 == Target(i, j, Direction(Origins(nrows, ncols, i, j, k)[a])).1
  {
    if k > 0 {
      AroundOrigins(nrows, ncols, i, j, k - 1);
    }
  }

  /** The origins increase, and every direction whose target is inside the
      grid is among them. */
  lemma {:induction false} OriginsOrdered(nrows: nat, ncols: nat, i: nat, j: nat, k: nat)
    requires k <= 8
    ensures forall a :: 0 <= a < |Origins(nrows, ncols, i, j, k)| ==> Origins(nrows, ncols, i, j, k)[a] < k
    ensures forall a, b :: 0 <= a < b < |Origins(nrows, ncols, i, j, k)| ==>
      Origins(nrows, ncols, i, j, k)[a] < Origins(nrows, ncols, i, j, k)[b]
    ensures forall t :: 0 <= t < k && Inside(nrows, ncols, Target(i, j, Direction(t))) ==> t in Origins(nrows, ncols, i, j, k)
  {
    if k > 0 {
      OriginsOrdered(nrows, ncols, i, j, k - 1);
    }
  }

  /** The neighbours come in the order of the directions: the a-th
      neighbour is the target of direction Origins[a], and the origins
      increase. */
  lemma NeighboursInOrder(nrows: nat, ncols: nat, i: nat, j: nat)
    ensures |Origins(nrows, ncols, i, j, 8)| == |Neighbours(nrows, ncols, i, j)|
    ensures forall a :: 0 <= a < |Neighbours(nrows, ncols, i, j)| ==>
      Origins(nrows, ncols, i, j, 8)[a] < 8 &&
      Neighbours(nrows, ncols, i, j)[a].0 == i + Direction(Origins(nrows, ncols, i, j, 8)[a]).0 &&
      Neighbours(nrows, ncols, i, j)[a].1 == j + Direction(Origins(nrows, ncols, i, j, 8)[a]).1
    ensures forall a, b :: 0 <= a < b < |Neighbours(nrows, ncols, i, j)| ==>
      Origins(nrows, ncols, i, j, 8)[a] < Origins(nrows, ncols, i, j, 8)[b]
  {
    AroundOrigins(nrows, ncols, i, j, 8);
    OriginsOrdered(nrows, ncols, i, j, 8);
  }

  /** No direction contributes its cell twice. */
  lemma AroundDistinct(nrows: nat, ncols: nat, i: nat, j: nat)
    ensures forall a, b :: 0 <= a < b < |Around(nrows, ncols, i, j, 8)| ==>
      Around(nrows, ncols, i, j, 8)[a] != Around(nrows, ncols, i, j, 8)[b]
  {
    var ns, ts := Around(nrows, ncols, i, j, 8), Origins(nrows, ncols, i, j, 8);
    AroundOrigins(nrows, ncols, i, j, 8);
    OriginsOrdered(nrows, ncols, i, j, 8);
    forall a, b | 0 <= a < b < |ns|
      ensures ns[a] != ns[b]
    {
      DirectionsDistinct(ts[a], ts[b]);
    }
  }

  /** The direction from (i, j) to an adjacent cell p. */
  function DirectionTo(i: nat, j: nat, p: (nat, nat)): (t: nat)
    requires p != (i, j) && -1 <= p.0 - i <= 1 && -1 <= p.1 - j <= 1
    ensures t < 8 && Target(i, j, Direction(t)) == (p.0 as int, p.1 as int)
  {
    var di, dj := p.0 - i, p.1 - j;
    if di == 0 && dj == 1 then 0
    else if di == -1 && dj == 1 then 1
    else if di == -1 && dj == 0 then 2
    else if di == -1 && dj == -1 then 3
    else if di == 0 && dj == -1 then 4
    else if di == 1 && dj == -1 then 5
    else if di == 1 && dj == 0 then 6
    else 7
  }

  /** The eight directions reach exactly the adjacent cells. */
  lemma AroundAre(nrows: nat, ncols: nat, i: nat, j: nat)
    ensures forall p :: p in Around(nrows, ncols, i, j, 8) <==> Adjacent(nrows, ncols, i, j, p)
  {
    forall p | p in Around(nrows, ncols, i, j, 8)
      ensures Adjacent(nrows, ncols, i, j, p)
    {
      AroundAdjacent(nrows, ncols, i, j, p);
    }
    forall p | Adjacent(nrows, ncols, i, j, p)
      ensures p in Around(nrows, ncols, i, j, 8)
    {
      AdjacentAround(nrows, ncols, i, j, p);
    }
  }

  lemma AroundAdjacent(nrows: nat, ncols: nat, i: nat, j: nat, p: (nat, nat))
    requires p in Around(nrows, ncols, i, j, 8)
    ensures Adjacent(nrows, ncols, i, j, p)
  {
    var ns, ts := Around(nrows, ncols, i, j, 8), Origins(nrows, ncols, i, j, 8);
    AroundOrigins(nrows, ncols, i, j, 8);
    var a :| 0 <= a < |ns| && ns[a] == p;
    var d := Direction(ts[a]);
    assert d != (0, 0);
  }

  lemma AdjacentAround(nrows: nat, ncols: nat, i: nat, j: nat, p: (nat, nat))
    requires Adjacent(nrows, ncols, i, j, p)
    ensures p in Around(nrows, ncols, i, j, 8)
  {
    var ns, ts := Around(nrows, ncols, i, j, 8), Origins(nrows, ncols, i, j, 8);
    AroundOrigins(nrows, ncols, i, j, 8);
    OriginsOrdered(nrows, ncols, i, j, 8);
    var t := DirectionTo(i, j, p);
    assert t in ts;
    var a :| 0 <= a < |ts| && ts[a] == t;
    assert ns[a] == p;
  }

  /** On a grid of at least 2 x 2, an inner cell has 8 neighbours, a cell on
      an edge 5 and a corner 3. */
  lemma NeighbourCount(nrows: nat, ncols: nat, i: nat, j: nat)
    requires 2 <= nrows && 2 <= ncols && i < nrows && j < ncols
    ensures (i == 0 || i == nrows - 1) && (j == 0 || j == ncols - 1) ==> |Neighbours(nrows, ncols, i, j)| == 3
    ensures (0 < i < nrows - 1) != (0 < j < ncols - 1) ==> |Neighbours(nrows, ncols, i, j)| == 5
    ensures 0 < i < nrows - 1 && 0 < j < ncols - 1 ==> |Neighbours(nrows, ncols, i, j)| == 8
  {
    var c0, c1 := Target(i, j, Direction(0)), Target(i, j, Direction(1));
    var c2, c3 := Target(i, j, Direction(2)), Target(i, j, Direction(3));
    var c4, c5 := Target(i, j, Direction(4)), Target(i, j, Direction(5));
    var c6, c7 := Target(i, j, Direction(6)), Target(i, j, Direction(7));
    assert |Around(nrows, ncols, i, j, 2)| == |Step(nrows, ncols, c0)| + |Step(nrows, ncols, c1)|;
    assert |Around(nrows, ncols, i, j, 4)| == |Around(nrows, ncols, i, j, 2)| + |Step(nrows, ncols, c2)| + |Step(nrows, ncols, c3)|;
    assert |Around(nrows, ncols, i, j, 6)| == |Around(nrows, ncols, i, j, 4)| + |Step(nrows, ncols, c4)| + |Step(nrows, ncols, c5)|;
    assert |Around(nrows, ncols, i, j, 8)| == |Around(nrows, ncols, i, j, 6)| + |Step(nrows, ncols, c6)| + |Step(nrows, ncols, c7)|;
  }

  /** How many of the listed cells hold a roll. */
  function PaperCount(b: Board, ns: seq<(nat, nat)>): (n: nat)
    ensures n <= |ns|
  {
    if ns == [] then 0
    else PaperCount(b, ns[..|ns| - 1]) + if Get(b, ns[|ns| - 1].0, ns[|ns| - 1].1) == Some(PaperSymbol) then 1 else 0
  }

  lemma {:induction false} PaperCountPrefix(b: Board, ns: seq<(nat, nat)>, k: nat)
    requires k <= |ns|
    ensures PaperCount(b, ns[..k]) <= PaperCount(b, ns)
    decreases |ns| - k
  {
    if k < |ns| {
      PaperCountPrefix(b, ns, k + 1);
      assert ns[..k + 1][..k] == ns[..k];
    } else {
      assert ns[..k] == ns;
    }
  }

  /** The cells adjacent to (i, j) that hold a roll. */
  function AdjacentRolls(b: Board, i: nat, j: nat): set<(nat, nat)> {
    set x: nat, y: nat | x < b.nrows && y < b.ncols && Adjacent(b.nrows, b.ncols, i, j, (x, y)) && Get(b, x, y) == Some(PaperSymbol) :: (x, y)
  }

  /** The listed cells that hold a roll. */
  function RollsIn(b: Board, ns: seq<(nat, nat)>): set<(nat, nat)> {
    set p | p in ns && Get(b, p.0, p.1) == Some(PaperSymbol)
  }

  /** On a list without repeats, PaperCount is the number of listed cells
      that hold a roll. */
  lemma {:induction false} PaperCountRolls(b: Board, ns: seq<(nat, nat)>)
    requires forall a, c :: 0 <= a < c < |ns| ==> ns[a] != ns[c]
    ensures PaperCount(b, ns) == |RollsIn(b, ns)|
  {
    if ns != [] {
      var init, last := ns[..|ns| - 1], ns[|ns| - 1];
      PaperCountRolls(b, init);
      assert ns == init + [last];
      assert last !in init;
      if Get(b, last.0, last.1) == Some(PaperSymbol) {
        assert RollsIn(b, ns) == RollsIn(b, init) + {last};
      } else {
        assert RollsIn(b, ns) == RollsIn(b, init);
      }
    }
  }

  /** A roll with fewer than four rolls among the cells reachable_indices
      lists; only a cell holding a roll can be accessible. */
  predicate Accessible(b: Board, i: nat, j: nat): (acc: bool)
    ensures acc ==> Get(b, i, j) == Some(PaperSymbol)
  {
    Get(b, i, j) == Some(PaperSymbol) && PaperCount(b, Neighbours(b.nrows, b.ncols, i, j)) < 4
  }

  /** A cell is accessible exactly when it holds a roll and fewer than four
      of the cells adjacent to it hold a roll. */
  lemma AccessibleMeaning(b: Board, i: nat, j: nat)
    ensures Accessible(b, i, j) <==> Get(b, i, j) == Some(PaperSymbol) && |AdjacentRolls(b, i, j)| < 4
  {
    var ns := Neighbours(b.nrows, b.ncols, i, j);
    PaperCountRolls(b, ns);
    assert RollsIn(b, ns) == AdjacentRolls(b, i, j);
  }

  /** What is_accessible_roll gives: it fails only where at(i, j) fails. */
  function AccessibleResult(b: Board, i: nat, j: nat): Result<bool> {
    if Get(b, i, j).None? then Err else Ok(Accessible(b, i, j))
  }

  /** is_accessible_roll(grid, i, j): counts the rolls among the neighbours
      and gives up as soon as it has seen four. */
  method IsAccessibleRoll(g: Grid<char>, i: nat, j: nat) returns (r: Result<bool>)
    requires g.Valid() && g.nrows <= g.ncols
    ensures r == AccessibleResult(View(g), i, j)
  {
    AtIsGet(g, i, j);
    var c := g.At(i, j);
    if c.None? {
      return Err;
    }
    if c.value != PaperSymbol {
      return Ok(false);
    }
    var ns := ReachableIndices(g, i, j);
    var few := FewerThanFour(g, ns);
    return Ok(few);
  }

  /** The loop of is_accessible_roll: whether fewer than four of the cells
      hold a roll, stopping at the fourth. */
  method FewerThanFour(g: Grid<char>, ns: seq<(nat, nat)>) returns (few: bool)
    ensures few <==> PaperCount(View(g), ns) < 4
  {
    ghost var b := View(g);
    var count := 0;
    var k := 0;
    while k < |ns|
      invariant k <= |ns|
      invariant count == PaperCount(b, ns[..k]) < 4
    {
      var p := ns[k];
      AtIsGet(g, p.0, p.1);
      assert ns[..k + 1][..k] == ns[..k];
      if g.At(p.0, p.1) == Some(PaperSymbol) {
        count := count + 1;
        if count == 4 {
          PaperCountPrefix(b, ns, k + 1);
          return false;
        }
      }
      k := k + 1;
    }
    assert ns[..k] == ns;
    return true;
  }

  /** How many cells before (i, j), in row-major order over rows of ncols
      cells, satisfy p. */
  function CountBefore(ncols: nat, p: (nat, nat) -> bool, i: nat, j: nat): nat
    requires j <= ncols
    decreases i, j
  {
    if j == 0 then
      if i == 0 then 0 else CountBefore(ncols, p, i - 1, ncols)
    else
      CountBefore(ncols, p, i, j - 1) + if p(i, j - 1) then 1 else 0
  }

  /** The cells before (i, j) that satisfy p. */
  function SetBefore(ncols: nat, p: (nat, nat) -> bool, i: nat, j: nat): set<(nat, nat)> {
    set i': nat, j': nat | i' <= i && j' < ncols && Before(i', j', i, j) && p(i', j') :: (i', j')
  }

  /** The count is the size of the set: each cell is counted once. */
  lemma {:induction false} CountBeforeIsSize(ncols: nat, p: (nat, nat) -> bool, i: nat, j: nat)
    requires j <= ncols
    ensures CountBefore(ncols, p, i, j) == |SetBefore(ncols, p, i, j)|
    decreases i, j
  {
    if j == 0 {
      if i == 0 {
        assert SetBefore(ncols, p, i, j) == {};
      } else {
        CountBeforeIsSize(ncols, p, i - 1, ncols);
        assert SetBefore(ncols, p, i, 0) == SetBefore(ncols, p, i - 1, ncols);
      }
    } else {
      CountBeforeIsSize(ncols, p, i, j - 1);
      var prev := SetBefore(ncols, p, i, j - 1);
      if p(i, j - 1) {
        assert SetBefore(ncols, p, i, j) == prev + {(i, j - 1)};
      } else {
        assert SetBefore(ncols, p, i, j) == prev;
      }
    }
  }

  /** How many cells before (i, j) are accessible rolls. */
  function AccessibleBefore(b: Board, i: nat, j: nat): nat
    requires j <= b.ncols
  {
    CountBefore(b.ncols, (x: nat, y: nat) => Accessible(b, x, y), i, j)
  }

  /** The number of accessible rolls on the board. */
  function CountAccessible(b: Board): nat {
    AccessibleBefore(b, b.nrows, 0)
  }

  /** The number part 1 gives is the number of accessible cells of the grid. */
  lemma CountAccessibleIsSize(b: Board)
    ensures CountAccessible(b) == |set i: nat, j: nat | i < b.nrows && j < b.ncols && Accessible(b, i, j) :: (i, j)|
  {
    var p := (x: nat, y: nat) => Accessible(b, x, y);
    CountBeforeIsSize(b.ncols, p, b.nrows, 0);
    assert SetBefore(b.ncols, p, b.nrows, 0) == set i: nat, j: nat | i < b.nrows && j < b.ncols && Accessible(b, i, j) :: (i, j);
  }

  /** The value-initialised char std::vector::resize fills the buffer with. */
  const Zero: char := 0 as char

  /** The board Grid<char>(input, identity) holds. */
  ghost function BoardOf(lines: seq<string>): Board {
    if lines == [] then Board(0, 0, [])
    else Board(|lines|, |lines[0]|, Written(lines, |lines[0]|, CharCell, Zero, |lines|, 0))
  }

  /** Whether the grid constructor fails on these lines. */
  predicate BuildFails(lines: seq<string>) {
    lines != [] && (Ragged(lines) || |lines| > |lines[0]|)
  }

  /** Builds the grid of part_1 and part_2. */
  method ReadGrid(input: string) returns (r: Result<Grid<char>>)
    ensures r.Err? <==> BuildFails(Lines(input))
    ensures r.Ok? ==> fresh(r.value) && fresh(r.value.buf) && r.value.Valid() && r.value.nrows <= r.value.ncols
    ensures r.Ok? ==> View(r.value) == BoardOf(Lines(input))
  {
    r := Build(input, CharCell, Zero);
    if r.Ok? {
      var g := r.value;
      if Lines(input) == [] {
        assert g.buf[..] == [];
      }
    }
  }

  /** The well-formedness a built grid has. */
  lemma BuiltWellFormed(g: Grid<char>)
    requires g.Valid() && g.nrows <= g.ncols
    ensures WellFormed(View(g))
  {
  }

  /** part_1(input): the number of accessible rolls. */
  ghost function Part1Spec(input: string): Result<nat> {
    if BuildFails(Lines(input)) then Err else Ok(CountAccessible(BoardOf(Lines(input))))
  }

  method Part1(input: string) returns (r: Result<nat>)
    ensures r == Part1Spec(input)
  {
    var gr := ReadGrid(input);
    if gr.Err? {
      return Err;
    }
    var g := gr.value;
    var b := View(g);
    var counter := 0;
    var i := 0;
    while i < g.nrows
      invariant i <= g.nrows && View(g) == b
      invariant counter == AccessibleBefore(b, i, 0)
    {
      counter := CountRow(g, i, counter);
      i := i + 1;
    }
    return Ok(counter);
  }

  /** The inner loop of part_1 over row i. */
  method CountRow(g: Grid<char>, i: nat, counter: nat) returns (counter': nat)
    requires g.Valid() && g.nrows <= g.ncols && i < g.nrows
    requires counter == AccessibleBefore(View(g), i, 0)
    ensures counter' == AccessibleBefore(View(g), i + 1, 0)
  {
    ghost var b := View(g);
    counter' := counter;
    var j := 0;
    while j < g.ncols
      invariant j <= g.ncols
      invariant counter' == AccessibleBefore(b, i, j)
    {
      var acc := IsAccessibleRoll(g, i, j);
      GetInGrid(b, i, j);
      if acc == Ok(true) {
        counter' := counter' + 1;
      }
      j := j + 1;
    }
  }

  /** The number of rolls in a buffer. */
  function Papers(cells: seq<char>): nat {
    multiset(cells)[PaperSymbol]
  }

  /** try_remove_roll on the board: an accessible roll becomes '.' and
      counts 1; anything else stays and counts 0. */
  function TryRemove(b: Board, i: nat, j: nat): (r: (Board, nat))
    ensures r.1 <= 1
  {
    if Accessible(b, i, j) then (b.(cells := b.cells[Slot(b.nrows, i, j) := EmptySymbol]), 1) else (b, 0)
  }

  /** A removal takes exactly the one roll it counts off the board. */
  lemma TryRemovePapers(b: Board, i: nat, j: nat)
    ensures TryRemove(b, i, j).0.nrows == b.nrows && TryRemove(b, i, j).0.ncols == b.ncols
    ensures |TryRemove(b, i, j).0.cells| == |b.cells|
    ensures Papers(TryRemove(b, i, j).0.cells) + TryRemove(b, i, j).1 == Papers(b.cells)
  {
    if Accessible(b, i, j) {
      var k := Slot(b.nrows, i, j);
      assert multiset(b.cells[k := EmptySymbol]) == multiset(b.cells) - multiset{b.cells[k]} + multiset{EmptySymbol};
    }
  }

  /** try_remove_roll(grid, i, j). */
  method TryRemoveRoll(g: Grid<char>, i: nat, j: nat) returns (r: Result<nat>)
    requires g.Valid() && g.nrows <= g.ncols
    modifies g.buf
    ensures Get(old(View(g)), i, j).None? ==> r == Err && View(g) == old(View(g))
    ensures Get(old(View(g)), i, j).Some? ==> r == Ok(TryRemove(old(View(g)), i, j).1) && View(g) == TryRemove(old(View(g)), i, j).0
  {
    AtIsGet(g, i, j);
    var c := g.At(i, j);
    if c.None? {
      return Err;
    }
    if c.value != PaperSymbol {
      return Ok(0);
    }
    var acc := IsAccessibleRoll(g, i, j);
    if acc == Ok(true) {
      var ok := g.Ref(i, j, EmptySymbol);
      return Ok(1);
    }
    return Ok(0);
  }

  /** The board and the count after a sweep has tried every cell before
      (i, j), in row-major order, each on the board as the earlier
      removals left it. */
  function Swept(b: Board, i: nat, j: nat): (r: (Board, nat))
    requires j <= b.ncols
    decreases i, j
  {
    if j == 0 then
      if i == 0 then (b, 0) else Swept(b, i - 1, b.ncols)
    else
      Then(Swept(b, i, j - 1), i, j - 1)
  }

  /** A sweep so far, followed by try_remove_roll at (i, j). */
  function Then(s: (Board, nat), i: nat, j: nat): (r: (Board, nat)) {
    (TryRemove(s.0, i, j).0, s.1 + TryRemove(s.0, i, j).1)
  }

  /** One sweep over the whole grid: the body of part_2's do-while. */
  function Sweep(b: Board): (r: (Board, nat)) {
    Swept(b, b.nrows, 0)
  }

  /** The shape and the rolls a step keeps: a removal takes exactly the one
      roll it counts. */
  lemma ThenPapers(s: (Board, nat), i: nat, j: nat)
    ensures Then(s, i, j).0.nrows == s.0.nrows && Then(s, i, j).0.ncols == s.0.ncols
    ensures |Then(s, i, j).0.cells| == |s.0.cells|
    ensures Papers(Then(s, i, j).0.cells) + Then(s, i, j).1 == Papers(s.0.cells) + s.1
  {
    TryRemovePapers(s.0, i, j);
  }

  /** A sweep removes exactly the rolls it counts. */
  lemma {:induction false} SweptPapers(b: Board, i: nat, j: nat)
    requires j <= b.ncols
    ensures Swept(b, i, j).0.nrows == b.nrows && Swept(b, i, j).0.ncols == b.ncols
    ensures |Swept(b, i, j).0.cells| == |b.cells|
    ensures Papers(Swept(b, i, j).0.cells) + Swept(b, i, j).1 == Papers(b.cells)
    decreases i, j
  {
    if j == 0 {
      if i > 0 {
        SweptPapers(b, i - 1, b.ncols);
      }
    } else {
      SweptPapers(b, i, j - 1);
      ThenPapers(Swept(b, i, j - 1), i, j - 1);
    }
  }

  /** A sweep that removes nothing leaves the board as it was, and then no
      cell it tried is accessible. */
  lemma SweptNothing(b: Board, i: nat, j: nat)
    requires j <= b.ncols
    requires Swept(b, i, j).1 == 0
    ensures Swept(b, i, j).0 == b
    ensures forall i': nat, j': nat :: Before(i', j', i, j) && j' < b.ncols ==> !Accessible(b, i', j')
  {
    SweptUnchanged(b, i, j);
    SweptInaccessible(b, i, j);
  }

  /** A sweep that removes nothing leaves the board as it was. */
  lemma {:induction false} SweptUnchanged(b: Board, i: nat, j: nat)
    requires j <= b.ncols
    requires Swept(b, i, j).1 == 0
    ensures Swept(b, i, j).0 == b
    decreases i, j
  {
    if j == 0 {
      if i > 0 {
        SweptUnchanged(b, i - 1, b.ncols);
      }
    } else {
      ThenNothing(Swept(b, i, j - 1), i, j - 1);
      SweptUnchanged(b, i, j - 1);
    }
  }

  /** A sweep that removes nothing found no accessible cell. */
  lemma {:induction false} SweptInaccessible(b: Board, i: nat, j: nat)
    requires j <= b.ncols
    requires Swept(b, i, j).1 == 0
    ensures forall i': nat, j': nat :: Before(i', j', i, j) && j' < b.ncols ==> !Accessible(b, i', j')
    decreases i, j
  {
    if j == 0 {
      if i > 0 {
        SweptInaccessible(b, i - 1, b.ncols);
      }
    } else {
      var s := Swept(b, i, j - 1);
      ThenNothing(s, i, j - 1);
      SweptUnchanged(b, i, j - 1);
      SweptInaccessible(b, i, j - 1);
      BeforeStep(b, s.0, i, j);
    }
  }

  /** The cells before (i, j) are those before (i, j - 1) and (i, j - 1)
      itself, so none of them is accessible when none of those is. */
  lemma BeforeStep(b: Board, c: Board, i: nat, j: nat)
    requires 0 < j <= b.ncols
    requires forall i': nat, j': nat :: Before(i', j', i, j - 1) && j' < b.ncols ==> !Accessible(b, i', j')
    requires c == b && !Accessible(c, i, j - 1)
    ensures forall i': nat, j': nat :: Before(i', j', i, j) && j' < b.ncols ==> !Accessible(b, i', j')
  {
    forall i': nat, j': nat | Before(i', j', i, j) && j' < b.ncols
      ensures !Accessible(b, i', j')
    {
      if !Before(i', j', i, j - 1) {
        assert (i', j') == (i, j - 1);
      }
    }
  }

  /** A step that removes nothing found no accessible roll and changed
      nothing. */
  lemma ThenNothing(s: (Board, nat), i: nat, j: nat)
    requires Then(s, i, j).1 == 0
    ensures s.1 == 0 && Then(s, i, j).0 == s.0 && !Accessible(s.0, i, j)
  {
  }

  /** part_2 as a function: sweep until a sweep removes nothing; the total
      removed, and the board left. */
  function Settle(b: Board): (r: (Board, nat))
    decreases Papers(b.cells)
  {
    var (b', n) := Sweep(b);
    SweptPapers(b, b.nrows, 0);
    if n == 0 then (b', 0)
    else
      var (f, t) := Settle(b');
      (f, n + t)
  }

  /** Part 2 removes exactly total rolls, and the board it leaves has no
      accessible roll left. */
  lemma {:induction false} SettleProperties(b: Board)
    ensures Settle(b).0.nrows == b.nrows && Settle(b).0.ncols == b.ncols
    ensures Papers(Settle(b).0.cells) + Settle(b).1 == Papers(b.cells)
    ensures forall i: nat, j: nat :: i < b.nrows && j < b.ncols ==> !Accessible(Settle(b).0, i, j)
    decreases Papers(b.cells)
  {
    var (b', n) := Sweep(b);
    SweptPapers(b, b.nrows, 0);
    if n == 0 {
      SweptNothing(b, b.nrows, 0);
    } else {
      SettleProperties(b');
    }
  }

  /** One sweep of part_2 on the grid. */
  method SweepGrid(g: Grid<char>) returns (update: nat)
    requires g.Valid() && g.nrows <= g.ncols
    modifies g.buf
    ensures View(g) == Sweep(old(View(g))).0 && update == Sweep(old(View(g))).1
  {
    ghost var b0 := View(g);
    update := 0;
    var i := 0;
    while i < g.nrows
      invariant i <= g.nrows && g.Valid()
      invariant (View(g), update) == Swept(b0, i, 0)
    {
      update := SweepRow(g, b0, i, update);
      i := i + 1;
    }
  }

  /** The inner loop of part_2's sweep over row i. */
  method SweepRow(g: Grid<char>, ghost b0: Board, i: nat, update: nat) returns (update': nat)
    requires g.Valid() && g.nrows <= g.ncols && i < g.nrows && b0.ncols == g.ncols
    requires (View(g), update) == Swept(b0, i, 0)
    modifies g.buf
    ensures (View(g), update') == Swept(b0, i + 1, 0)
  {
    update' := update;
    var j := 0;
    while j < g.ncols
      invariant j <= g.ncols && g.Valid()
      invariant View(g) == Swept(b0, i, j).0 && update' == Swept(b0, i, j).1
    {
      GetInGrid(View(g), i, j);
      var r := TryRemoveRoll(g, i, j);
      update' := update' + r.value;
      j := j + 1;
    }
  }

  /** part_2(input): the number of rolls the sweeps remove. */
  ghost function Part2Spec(input: string): Result<nat> {
    if BuildFails(Lines(input)) then Err else Ok(Settle(BoardOf(Lines(input))).1)
  }

  method Part2(input: string) returns (r: Result<nat>)
    ensures r == Part2Spec(input)
  {
    var gr := ReadGrid(input);
    if gr.Err? {
      return Err;
    }
    var g := gr.value;
    ghost var b0 := View(g);
    var update := SweepGrid(g);
    var counter := update;
    while update != 0
      invariant fresh(g.buf) && g.Valid() && g.nrows <= g.ncols
      invariant update != 0 ==> counter + Settle(View(g)).1 == Settle(b0).1
      invariant update == 0 ==> counter == Settle(b0).1
      decreases Papers(View(g).cells) + if update != 0 then 1 else 0
    {
      ghost var before := View(g);
      update := SweepGrid(g);
      SweptPapers(before, before.nrows, 0);
      counter := counter + update;
    }
    return Ok(counter);
  }
}
