/** Day 7 (src/day7.cpp): a beam enters a manifold at the source 'S' and
    falls straight down; a splitter '^' directly below it stops it and sends
    two new beams down from the cells to the left and to the right of the
    splitter. Part 1 counts the splitters some beam reaches; part 2 weighs
    every splitter's arrival count (the sum of its parents' counts, the
    source counting 1) by the beams it lets escape.

    parse_input builds a Splitters whose map sends every splitter to the
    list of its parents (empty at first); mark_activations threads the beams
    and appends each parent that hits a splitter; count_activations fills
    the arrival counts in std::map order, which is the lexicographic order of
    (row, column). */
module Day7 {
  import opened Wrappers
  import opened Text

  /** A (row, column) pair of int64_t's. */
  type Pos = (int, int)

  /** std::pair's operator<, the order in which a std::map is iterated. */
  predicate Less(a: Pos, b: Pos) {
    a.0 < b.0 || (a.0 == b.0 && a.1 < b.1)
  }

  /** The positions are in strictly increasing map order. */
  predicate Increasing(ks: seq<Pos>) {
    forall i, j :: 0 <= i < j < |ks| ==> Less(ks[i], ks[j])
  }

  /** m is the first of s in map order. */
  predicate IsLeast(m: Pos, s: set<Pos>) {
    m in s && forall x :: x in s && x != m ==> Less(m, x)
  }

  /** Every non-empty set of positions has a first element. */
  lemma LeastExists(s: set<Pos>)
    requires s != {}
    ensures exists m :: IsLeast(m, s)
    decreases |s|
  {
    var x :| x in s;
    if s != {x} {
      LeastExists(s - {x});
      var m :| IsLeast(m, s - {x});
      if !Less(x, m) {
        assert IsLeast(m, s);
      } else {
        forall y | y in s && y != x
          ensures Less(x, y)
        {
          assert y == m || Less(m, y);
        }
        assert IsLeast(x, s);
      }
    } else {
      assert IsLeast(x, s);
    }
  }

  /** The keys of a map in the order a std::map visits them. */
  function SortedKeys(s: set<Pos>): (ks: seq<Pos>)
    ensures |ks| == |s|
    decreases |s|
  {
    if s == {} then
      []
    else
      LeastExists(s);
      var m :| m in s && IsLeast(m, s);
      [m] + SortedKeys(s - {m})
  }

  /** SortedKeys lists exactly the set, in strictly increasing order. */
  lemma {:induction false} SortedKeysMeaning(s: set<Pos>)
    ensures Increasing(SortedKeys(s))
    ensures forall x :: x in SortedKeys(s) <==> x in s
    decreases |s|
  {
    if s != {} {
      var ks := SortedKeys(s);
      var m := ks[0];
      assert IsLeast(m, s);
      SortedKeysMeaning(s - {m});
      assert ks[1..] == SortedKeys(s - {m});
      forall x
        ensures x in ks <==> x in s
      {
        assert x in ks <==> x == m || x in ks[1..];
      }
      forall i, j | 0 <= i < j < |ks|
        ensures Less(ks[i], ks[j])
      {
        if i > 0 {
          assert ks[i] == ks[1..][i - 1] && ks[j] == ks[1..][j - 1];
        } else {
          assert ks[j] == ks[1..][j - 1];
        }
      }
    }
  }

  /** The map order determines the sequence: any strictly increasing
      listing of a set is its SortedKeys. */
  lemma {:induction false} SortedKeysUnique(s: set<Pos>, ks: seq<Pos>)
    requires Increasing(ks)
    requires forall x :: x in ks <==> x in s
    ensures SortedKeys(s) == ks
    decreases |ks|
  {
    if ks == [] {
      assert forall x :: x !in s;
      assert s == {};
    } else {
      assert ks[0] in s;
      var sk := SortedKeys(s);
      var m := sk[0];
      assert IsLeast(m, s);
      assert IsLeast(ks[0], s) by {
        forall x | x in s && x != ks[0]
          ensures Less(ks[0], x)
        {
          var u :| 0 <= u < |ks| && ks[u] == x;
        }
      }
      assert m == ks[0];
      TailMembers(s, ks);
      SortedKeysUnique(s - {m}, ks[1..]);
      assert ks == [m] + ks[1..];
    }
  }

  /** The tail of an increasing listing of s lists s without its head. */
  lemma TailMembers(s: set<Pos>, ks: seq<Pos>)
    requires ks != [] && Increasing(ks)
    requires forall x :: x in ks <==> x in s
    ensures forall x :: x in ks[1..] <==> x in s - {ks[0]}
  {
    forall x
      ensures x in ks[1..] <==> x in s - {ks[0]}
    {
      if x in ks[1..] {
        var u :| 0 <= u < |ks[1..]| && ks[1..][u] == x;
        assert ks[u + 1] == x;
      }
      if x in s - {ks[0]} {
        var u :| 0 <= u < |ks| && ks[u] == x;
        assert u != 0;
        assert ks[1..][u - 1] == x;
      }
    }
  }

  /** The splitters of a map in iteration order. */
  function MapOrder(g: map<Pos, seq<Pos>>): (ks: seq<Pos>)
    ensures forall i :: 0 <= i < |ks| ==> ks[i] in g
  {
    SortedKeysMeaning(g.Keys);
    SortedKeys(g.Keys)
  }

  // ---------------------------------------------------------------------
  // parse_input

  /** The cell p of the lines holds c. */
  predicate HoldsAt(lines: seq<string>, p: Pos, c: char) {
    0 <= p.0 < |lines| && 0 <= p.1 < |lines[p.0]| && lines[p.0][p.1] == c
  }

  /** The splitters among the first n cells of line i. */
  function RowSplitters(line: string, i: int, n: nat): set<Pos>
    requires n <= |line|
  {
    if n == 0 then {}
    else RowSplitters(line, i, n - 1) + (if line[n - 1] == '^' then {(i, n - 1)} else {})
  }

  /** The splitters of the first n lines. */
  function SplittersOf(lines: seq<string>, n: nat): set<Pos>
    requires n <= |lines|
  {
    if n == 0 then {}
    else SplittersOf(lines, n - 1) + RowSplitters(lines[n - 1], n - 1, |lines[n - 1]|)
  }

  /** The source after scanning the first n cells of line i, starting from src:
      every 'S' overwrites it. */
  function RowSource(line: string, i: int, n: nat, src: Pos): Pos
    requires n <= |line|
  {
    if n == 0 then src
    else if line[n - 1] == 'S' then (i, n - 1)
    else RowSource(line, i, n - 1, src)
  }

  /** The source after scanning the first n lines; a Splitters starts with
      the value-initialised pair (0, 0). */
  function SourceOf(lines: seq<string>, n: nat): Pos
    requires n <= |lines|
  {
    if n == 0 then (0, 0)
    else RowSource(lines[n - 1], n - 1, |lines[n - 1]|, SourceOf(lines, n - 1))
  }

  /** Every splitter with an empty list of parents. */
  function Unmarked(keys: set<Pos>): (g: map<Pos, seq<Pos>>)
    ensures g.Keys == keys
  {
    map p | p in keys :: []
  }

  /** What parse_input builds: the splitter map, the limits (number of
      lines, length of the first line) and the source. */
  datatype Board = Board(parents: map<Pos, seq<Pos>>, limits: (int, int), source: Pos)

  /** parse_input(input); lines.front() of an input without lines is
      undefined behaviour, modelled as an error. */
  function ParseSpec(input: string): Result<Board> {
    var lines := Lines(input);
    if lines == [] then Err
    else Ok(Board(Unmarked(SplittersOf(lines, |lines|)), (|lines|, |lines[0]|), SourceOf(lines, |lines|)))
  }

  lemma {:induction false} RowSplittersMeaning(line: string, i: int, n: nat)
    requires n <= |line|
    ensures forall p :: p in RowSplitters(line, i, n) <==> p.0 == i && 0 <= p.1 < n && line[p.1] == '^'
  {
    if n > 0 {
      RowSplittersMeaning(line, i, n - 1);
    }
  }

  /** The splitters parse_input collects are exactly the cells holding '^'. */
  lemma {:induction false} SplittersMeaning(lines: seq<string>, n: nat)
    requires n <= |lines|
    ensures forall p: Pos :: p in SplittersOf(lines, n) <==> p.0 < n && HoldsAt(lines, p, '^')
  {
    if n > 0 {
      SplittersMeaning(lines, n - 1);
      RowSplittersMeaning(lines[n - 1], n - 1, |lines[n - 1]|);
    }
  }

  lemma {:induction false} RowSourceMeaning(line: string, i: int, n: nat, src: Pos)
    requires n <= |line|
    ensures RowSource(line, i, n, src) == src || (RowSource(line, i, n, src).0 == i && RowSource(line, i, n, src).1 < n
                                                 && 0 <= RowSource(line, i, n, src).1 && line[RowSource(line, i, n, src).1] == 'S')
    ensures forall j :: 0 <= j < n && line[j] == 'S' ==>
              RowSource(line, i, n, src) == (i, j) || (RowSource(line, i, n, src).0 == i && j < RowSource(line, i, n, src).1)
  {
    if n > 0 {
      RowSourceMeaning(line, i, n - 1, src);
    }
  }

  /** The source is the last 'S' in reading order, or (0, 0) when there is none. */
  lemma {:induction false} SourceMeaning(lines: seq<string>, n: nat)
    requires n <= |lines|
    ensures SourceOf(lines, n) == (0, 0) || (SourceOf(lines, n).0 < n && HoldsAt(lines, SourceOf(lines, n), 'S'))
    ensures forall p: Pos :: p.0 < n && HoldsAt(lines, p, 'S') ==>
              HoldsAt(lines, SourceOf(lines, n), 'S') && (p == SourceOf(lines, n) || Less(p, SourceOf(lines, n)))
  {
    if n > 0 {
      SourceMeaning(lines, n - 1);
      RowSourceMeaning(lines[n - 1], n - 1, |lines[n - 1]|, SourceOf(lines, n - 1));
    }
  }

  // ---------------------------------------------------------------------
  // mark_activations

  /** The row number is inside the field and so is the column. */
  predicate InField(limits: (int, int), p: Pos) {
    0 <= p.0 < limits.0 && 0 <= p.1 < limits.1
  }

  /** mark_activations(from, parent) on the map g: the beam leaving `from`
      falls until the cell below it is a splitter, which gains `parent`
      as a parent; on the splitter's first visit two beams leave the cells
      beside it, with the splitter as their parent. A beam leaving the
      field stops. */
  function Mark(g: map<Pos, seq<Pos>>, limits: (int, int), from: Pos, parent: Pos): (h: map<Pos, seq<Pos>>)
    ensures h.Keys == g.Keys
    decreases limits.0 - from.0
  {
    if !InField(limits, from) then
      g
    else
      var below := (from.0 + 1, from.1);
      if below in g then
        var g1 := g[below := g[below] + [parent]];
        if g[below] == [] then
          Mark(Mark(g1, limits, (below.0, below.1 - 1), below), limits, (below.0, below.1 + 1), below)
        else
          g1
      else
        Mark(g, limits, below, parent)
  }

  /** Marking only appends: every list of parents is a prefix of its
      new value. */
  lemma {:induction false} MarkAppends(g: map<Pos, seq<Pos>>, limits: (int, int), from: Pos, parent: Pos)
    ensures forall k :: k in g ==> g[k] <= Mark(g, limits, from, parent)[k]
    decreases limits.0 - from.0
  {
    if InField(limits, from) {
      var below := (from.0 + 1, from.1);
      if below in g {
        var g1 := g[below := g[below] + [parent]];
        if g[below] == [] {
          var g2 := Mark(g1, limits, (below.0, below.1 - 1), below);
          MarkAppends(g1, limits, (below.0, below.1 - 1), below);
          MarkAppends(g2, limits, (below.0, below.1 + 1), below);
          forall k | k in g
            ensures g[k] <= Mark(g, limits, from, parent)[k]
          {
            assert g[k] <= g1[k];
          }
        }
      } else {
        MarkAppends(g, limits, below, parent);
      }
    }
  }

  /** Parent p of splitter k is the source or a splitter in an earlier row. */
  predicate Feeds(g: map<Pos, seq<Pos>>, source: Pos, p: Pos, k: Pos) {
    p == source || (p in g && p.0 < k.0)
  }

  /** Every recorded parent is the source or an earlier splitter. */
  predicate Ordered(g: map<Pos, seq<Pos>>, source: Pos) {
    forall k, i :: k in g && 0 <= i < |g[k]| ==> Feeds(g, source, g[k][i], k)
  }

  /** Marking from a beam whose parent is the source, or a splitter no
      lower than the beam, records only the source and earlier splitters. */
  lemma {:induction false} MarkOrdered(g: map<Pos, seq<Pos>>, limits: (int, int), from: Pos, parent: Pos, source: Pos)
    requires Ordered(g, source)
    requires parent == source || (parent in g && parent.0 <= from.0)
    ensures Ordered(Mark(g, limits, from, parent), source)
    decreases limits.0 - from.0
  {
    if InField(limits, from) {
      var below := (from.0 + 1, from.1);
      if below in g {
        var g1 := g[below := g[below] + [parent]];
        assert Ordered(g1, source) by {
          forall k, i | k in g1 && 0 <= i < |g1[k]|
            ensures Feeds(g1, source, g1[k][i], k)
          {
            if k == below && i == |g[below]| {
              assert g1[k][i] == parent;
            } else {
              assert g1[k][i] == g[k][i];
            }
          }
        }
        if g[below] == [] {
          var g2 := Mark(g1, limits, (below.0, below.1 - 1), below);
          MarkOrdered(g1, limits, (below.0, below.1 - 1), below, source);
          MarkOrdered(g2, limits, (below.0, below.1 + 1), below, source);
        }
      } else {
        MarkOrdered(g, limits, below, parent, source);
      }
    }
  }

  // ---------------------------------------------------------------------
  // Which splitters the beams reach

  /** The splitter a beam leaving `from` meets: the first one straight
      below it, provided the beam is still inside the field when it steps
      onto it; None when the beam leaves the field first. */
  function FirstHit(keys: set<Pos>, limits: (int, int), from: Pos): (r: Option<Pos>)
    ensures r.Some? ==> r.value in keys && r.value.1 == from.1 && from.0 < r.value.0
    ensures r.Some? ==> forall i :: from.0 < i < r.value.0 ==> (i, from.1) !in keys
    decreases limits.0 - from.0
  {
    if !InField(limits, from) then
      None
    else if (from.0 + 1, from.1) in keys then
      Some((from.0 + 1, from.1))
    else
      FirstHit(keys, limits, (from.0 + 1, from.1))
  }

  /** Splitter b is the first one a beam leaving a side of splitter a meets. */
  predicate SplitsInto(keys: set<Pos>, limits: (int, int), a: Pos, b: Pos) {
    FirstHit(keys, limits, (a.0, a.1 - 1)) == Some(b) || FirstHit(keys, limits, (a.0, a.1 + 1)) == Some(b)
  }

  /** A chain of splitters: the beam leaving `from` meets the first, and a
      beam from a side of each meets the next. */
  predicate Chain(keys: set<Pos>, limits: (int, int), from: Pos, ps: seq<Pos>) {
    && |ps| >= 1
    && FirstHit(keys, limits, from) == Some(ps[0])
    && forall t :: 0 <= t < |ps| - 1 ==> SplitsInto(keys, limits, ps[t], ps[t + 1])
  }

  /** Some chain of splitters leads from the beam leaving `from` to k. */
  ghost predicate ReachedFrom(keys: set<Pos>, limits: (int, int), from: Pos, k: Pos) {
    exists ps :: Chain(keys, limits, from, ps) && ps[|ps| - 1] == k
  }

  /** The splitters that the beams starting at the source reach. */
  ghost function Reachable(keys: set<Pos>, limits: (int, int), source: Pos): set<Pos> {
    set k | k in keys && ReachedFrom(keys, limits, source, k)
  }

  /** Both beams leaving the sides of splitter k meet, if anything, a
      splitter whose list of parents is not empty. */
  predicate Spread(h: map<Pos, seq<Pos>>, limits: (int, int), k: Pos) {
    && (FirstHit(h.Keys, limits, (k.0, k.1 - 1)).Some? ==> h[FirstHit(h.Keys, limits, (k.0, k.1 - 1)).value] != [])
    && (FirstHit(h.Keys, limits, (k.0, k.1 + 1)).Some? ==> h[FirstHit(h.Keys, limits, (k.0, k.1 + 1)).value] != [])
  }

  /** Marking gives the splitter the beam meets a parent. */
  lemma {:induction false} MarkHits(g: map<Pos, seq<Pos>>, limits: (int, int), from: Pos, parent: Pos)
    ensures FirstHit(g.Keys, limits, from).Some? ==> Mark(g, limits, from, parent)[FirstHit(g.Keys, limits, from).value] != []
    decreases limits.0 - from.0
  {
    if InField(limits, from) {
      var below := (from.0 + 1, from.1);
      if below in g {
        var g1 := g[below := g[below] + [parent]];
        if g[below] == [] {
          var g2 := Mark(g1, limits, (below.0, below.1 - 1), below);
          MarkAppends(g1, limits, (below.0, below.1 - 1), below);
          MarkAppends(g2, limits, (below.0, below.1 + 1), below);
          assert |g1[below]| <= |g2[below]| <= |Mark(g, limits, from, parent)[below]|;
        }
      } else {
        MarkHits(g, limits, below, parent);
      }
    }
  }

  /** A chain from a side of the splitter the beam meets is a chain from
      the beam, once that splitter is put in front. */
  lemma ChainCons(keys: set<Pos>, limits: (int, int), from: Pos, b: Pos, side: Pos, ps: seq<Pos>)
    requires FirstHit(keys, limits, from) == Some(b)
    requires side == (b.0, b.1 - 1) || side == (b.0, b.1 + 1)
    requires Chain(keys, limits, side, ps)
    ensures Chain(keys, limits, from, [b] + ps) && ([b] + ps)[|ps|] == ps[|ps| - 1]
  {
    var qs := [b] + ps;
    forall t | 0 <= t < |qs| - 1
      ensures SplitsInto(keys, limits, qs[t], qs[t + 1])
    {
      if t > 0 {
        assert qs[t] == ps[t - 1] && qs[t + 1] == ps[t];
      }
    }
  }

  /** Every splitter that marking gives its first parent is reached by the
      beam leaving `from`. */
  lemma {:induction false} MarkSound(g: map<Pos, seq<Pos>>, limits: (int, int), from: Pos, parent: Pos)
    ensures forall k :: k in g && g[k] == [] && Mark(g, limits, from, parent)[k] != [] ==> ReachedFrom(g.Keys, limits, from, k)
    decreases limits.0 - from.0
  {
    if InField(limits, from) {
      var below := (from.0 + 1, from.1);
      var keys := g.Keys;
      if below in g {
        var g1 := g[below := g[below] + [parent]];
        assert Chain(keys, limits, from, [below]);
        if g[below] == [] {
          var left, right := (below.0, below.1 - 1), (below.0, below.1 + 1);
          var g2 := Mark(g1, limits, left, below);
          MarkSound(g1, limits, left, below);
          MarkSound(g2, limits, right, below);
          forall k | k in g && g[k] == [] && Mark(g, limits, from, parent)[k] != []
            ensures ReachedFrom(keys, limits, from, k)
          {
            if k != below {
              if g2[k] != [] {
                var ps :| Chain(keys, limits, left, ps) && ps[|ps| - 1] == k;
                ChainCons(keys, limits, from, below, left, ps);
              } else {
                var ps :| Chain(keys, limits, right, ps) && ps[|ps| - 1] == k;
                ChainCons(keys, limits, from, below, right, ps);
              }
            }
          }
        }
      } else {
        MarkSound(g, limits, below, parent);
        forall k | k in g && g[k] == [] && Mark(g, limits, from, parent)[k] != []
          ensures ReachedFrom(keys, limits, from, k)
        {
          var ps :| Chain(keys, limits, below, ps) && ps[|ps| - 1] == k;
          assert Chain(keys, limits, from, ps);
        }
      }
    }
  }

  /** Marking keeps a splitter's beams marked: a splitter that gains its
      first parent has both beams leaving its sides meet splitters that
      end with parents too. */
  lemma {:induction false} MarkSpreads(g: map<Pos, seq<Pos>>, limits: (int, int), from: Pos, parent: Pos)
    ensures forall k :: k in g && g[k] == [] && Mark(g, limits, from, parent)[k] != [] ==> Spread(Mark(g, limits, from, parent), limits, k)
    decreases limits.0 - from.0
  {
    if InField(limits, from) {
      var below := (from.0 + 1, from.1);
      if below in g {
        var g1 := g[below := g[below] + [parent]];
        if g[below] == [] {
          var left, right := (below.0, below.1 - 1), (below.0, below.1 + 1);
          var g2 := Mark(g1, limits, left, below);
          var h := Mark(g2, limits, right, below);
          MarkSpreads(g1, limits, left, below);
          MarkSpreads(g2, limits, right, below);
          MarkHits(g1, limits, left, below);
          MarkHits(g2, limits, right, below);
          MarkAppends(g2, limits, right, below);
          SplitSpreads(g, g1, g2, h, limits, below);
        }
      } else {
        MarkSpreads(g, limits, below, parent);
      }
    }
  }

  /** The step of MarkSpreads at a splitter's first visit: the splitter
      `below` gains its first parent (g1), the left beam marks (g2), then the
      right beam (h). */
  lemma SplitSpreads(g: map<Pos, seq<Pos>>, g1: map<Pos, seq<Pos>>, g2: map<Pos, seq<Pos>>, h: map<Pos, seq<Pos>>,
                     limits: (int, int), below: Pos)
    requires below in g && g1.Keys == g.Keys && g2.Keys == g.Keys && h.Keys == g.Keys
    requires g1[below] != [] && forall k :: k in g && k != below ==> g1[k] == g[k]
    requires forall k :: k in g ==> g2[k] <= h[k]
    requires forall k :: k in g1 && g1[k] == [] && g2[k] != [] ==> Spread(g2, limits, k)
    requires forall k :: k in g2 && g2[k] == [] && h[k] != [] ==> Spread(h, limits, k)
    requires FirstHit(g.Keys, limits, (below.0, below.1 - 1)).Some? ==> g2[FirstHit(g.Keys, limits, (below.0, below.1 - 1)).value] != []
    requires FirstHit(g.Keys, limits, (below.0, below.1 + 1)).Some? ==> h[FirstHit(g.Keys, limits, (below.0, below.1 + 1)).value] != []
    ensures forall k :: k in g && g[k] == [] && h[k] != [] ==> Spread(h, limits, k)
  {
    forall k | k in g && g[k] == [] && h[k] != []
      ensures Spread(h, limits, k)
    {
      if k == below {
        var l := FirstHit(g.Keys, limits, (below.0, below.1 - 1));
        if l.Some? {
          assert |g2[l.value]| <= |h[l.value]|;
        }
      } else if g2[k] != [] {
        SpreadGrows(g2, h, limits, k);
      }
    }
  }

  /** A splitter whose beams meet marked splitters keeps that property as
      lists of parents grow. */
  lemma SpreadGrows(g: map<Pos, seq<Pos>>, h: map<Pos, seq<Pos>>, limits: (int, int), k: Pos)
    requires h.Keys == g.Keys && forall x :: x in g ==> g[x] <= h[x]
    requires Spread(g, limits, k)
    ensures Spread(h, limits, k)
  {
    var l := FirstHit(g.Keys, limits, (k.0, k.1 - 1));
    var r := FirstHit(g.Keys, limits, (k.0, k.1 + 1));
    if l.Some? {
      assert |g[l.value]| <= |h[l.value]|;
    }
    if r.Some? {
      assert |g[r.value]| <= |h[r.value]|;
    }
  }

  /** Every splitter of a chain from a beam that meets a marked splitter,
      in a map where every marked splitter spreads, is marked. */
  lemma {:induction false} ChainMarked(h: map<Pos, seq<Pos>>, limits: (int, int), from: Pos, ps: seq<Pos>)
    requires Chain(h.Keys, limits, from, ps)
    requires h[ps[0]] != []
    requires forall k :: k in h && h[k] != [] ==> Spread(h, limits, k)
    ensures ps[|ps| - 1] in h && h[ps[|ps| - 1]] != []
    decreases |ps|
  {
    if |ps| > 1 {
      var n := |ps| - 1;
      assert Chain(h.Keys, limits, from, ps[..n]);
      ChainMarked(h, limits, from, ps[..n]);
      assert SplitsInto(h.Keys, limits, ps[n - 1], ps[n]);
    }
  }

  /** mark_activations() gives a parent to exactly the splitters that the
      beams from the source reach. */
  lemma MarkReaches(keys: set<Pos>, limits: (int, int), source: Pos)
    ensures Reached(Mark(Unmarked(keys), limits, source, source)) == Reachable(keys, limits, source)
    ensures forall k :: k in keys ==> (Mark(Unmarked(keys), limits, source, source)[k] != [] <==> k in Reachable(keys, limits, source))
  {
    var g := Unmarked(keys);
    var h := Mark(g, limits, source, source);
    MarkSound(g, limits, source, source);
    MarkSpreads(g, limits, source, source);
    MarkHits(g, limits, source, source);
    forall k | k in Reachable(keys, limits, source)
      ensures k in Reached(h)
    {
      var ps :| Chain(keys, limits, source, ps) && ps[|ps| - 1] == k;
      ChainMarked(h, limits, source, ps);
    }
  }

  // ---------------------------------------------------------------------
  // count_activations

  /** The std::accumulate over a splitter's parents, from 0: the source
      resets the sum to 1, any other parent adds its count, and a parent
      without a count makes counts.at throw. */
  function Arrivals(ps: seq<Pos>, counts: map<Pos, int>, source: Pos): Result<int> {
    if ps == [] then
      Ok(0)
    else
      var acc :- Arrivals(ps[..|ps| - 1], counts, source);
      var p := ps[|ps| - 1];
      if p == source then Ok(1)
      else if p in counts then Ok(acc + counts[p])
      else Err
  }

  /** One pass of the for_each over the splitters `keys`, in that order:
      each splitter's count becomes the sum over its parents (0 when it
      has none), read from the counts as updated so far. */
  function Sweep(keys: seq<Pos>, g: map<Pos, seq<Pos>>, source: Pos, counts: map<Pos, int>): Result<map<Pos, int>>
    requires forall i :: 0 <= i < |keys| ==> keys[i] in g
  {
    if keys == [] then
      Ok(counts)
    else
      var c :- Sweep(keys[..|keys| - 1], g, source, counts);
      var k := keys[|keys| - 1];
      var a :- Arrivals(g[k], c, source);
      Ok(c[k := a])
  }

  /** The rank loop: n passes. */
  function Sweeps(n: int, keys: seq<Pos>, g: map<Pos, seq<Pos>>, source: Pos, counts: map<Pos, int>): Result<map<Pos, int>>
    requires forall i :: 0 <= i < |keys| ==> keys[i] in g
    decreases n
  {
    if n <= 0 then
      Ok(counts)
    else
      var c :- Sweeps(n - 1, keys, g, source, counts);
      Sweep(keys, g, source, c)
  }

  /** The counts solve the recurrence on the splitters `keys`: each holds
      the sum over its parents of their counts. */
  predicate Settled(g: map<Pos, seq<Pos>>, source: Pos, keys: seq<Pos>, counts: map<Pos, int>)
    requires forall i :: 0 <= i < |keys| ==> keys[i] in g
  {
    forall j :: 0 <= j < |keys| ==> keys[j] in counts && Arrivals(g[keys[j]], counts, source) == Ok(counts[keys[j]])
  }

  /** Every parent of the j-th splitter is the source or a splitter listed
      before it. */
  predicate Closed(keys: seq<Pos>, g: map<Pos, seq<Pos>>, source: Pos)
    requires forall i :: 0 <= i < |keys| ==> keys[i] in g
  {
    forall j, t :: 0 <= j < |keys| && 0 <= t < |g[keys[j]]| ==> g[keys[j]][t] == source || g[keys[j]][t] in keys[..j]
  }

  /** Two count maps that agree on the parents give the same sum, and it
      exists. */
  lemma {:induction false} ArrivalsAgree(ps: seq<Pos>, c: map<Pos, int>, c': map<Pos, int>, source: Pos)
    requires forall t :: 0 <= t < |ps| ==> ps[t] == source || (ps[t] in c && ps[t] in c' && c[ps[t]] == c'[ps[t]])
    ensures Arrivals(ps, c, source).Ok? && Arrivals(ps, c, source) == Arrivals(ps, c', source)
  {
    if ps != [] {
      ArrivalsAgree(ps[..|ps| - 1], c, c', source);
    }
  }

  /** A pass over distinct splitters, each of whose parents comes earlier,
      succeeds and settles all of them; it adds exactly their counts. */
  lemma {:induction false} SweepClosed(keys: seq<Pos>, g: map<Pos, seq<Pos>>, source: Pos, counts: map<Pos, int>)
    requires forall i :: 0 <= i < |keys| ==> keys[i] in g
    requires forall i, j :: 0 <= i < j < |keys| ==> keys[i] != keys[j]
    requires Closed(keys, g, source)
    ensures Sweep(keys, g, source, counts).Ok?
    ensures Settled(g, source, keys, Sweep(keys, g, source, counts).value)
    ensures forall k :: k in Sweep(keys, g, source, counts).value <==> k in counts || k in keys
  {
    if keys != [] {
      var n := |keys| - 1;
      var init := keys[..n];
      ClosedPrefix(keys, g, source);
      SweepClosed(init, g, source, counts);
      var c := Sweep(init, g, source, counts).value;
      SettleLast(keys, g, source, c);
      assert keys == init + [keys[n]];
    }
  }

  /** The splitters before the last are closed too. */
  lemma ClosedPrefix(keys: seq<Pos>, g: map<Pos, seq<Pos>>, source: Pos)
    requires keys != [] && forall i :: 0 <= i < |keys| ==> keys[i] in g
    requires Closed(keys, g, source)
    ensures Closed(keys[..|keys| - 1], g, source)
  {
    var init := keys[..|keys| - 1];
    forall j, t | 0 <= j < |init| && 0 <= t < |g[init[j]]|
      ensures g[init[j]][t] == source || g[init[j]][t] in init[..j]
    {
      assert init[j] == keys[j] && init[..j] == keys[..j];
    }
  }

  /** Counting the last splitter, once the earlier ones are settled, settles
      them all. */
  lemma SettleLast(keys: seq<Pos>, g: map<Pos, seq<Pos>>, source: Pos, c: map<Pos, int>)
    requires keys != [] && forall i :: 0 <= i < |keys| ==> keys[i] in g
    requires forall i, j :: 0 <= i < j < |keys| ==> keys[i] != keys[j]
    requires Closed(keys, g, source)
    requires Settled(g, source, keys[..|keys| - 1], c)
    ensures Arrivals(g[keys[|keys| - 1]], c, source).Ok?
    ensures Settled(g, source, keys, c[keys[|keys| - 1] := Arrivals(g[keys[|keys| - 1]], c, source).value])
  {
    var n := |keys| - 1;
    var init, k := keys[..n], keys[n];
    forall t | 0 <= t < |g[k]|
      ensures g[k][t] == source || (g[k][t] in c && g[k][t] != k)
    {
      if g[k][t] != source {
        var u :| 0 <= u < n && keys[..n][u] == g[k][t];
        assert init[u] == g[k][t];
      }
    }
    ArrivalsAgree(g[k], c, c, source);
    var c' := c[k := Arrivals(g[k], c, source).value];
    ArrivalsAgree(g[k], c', c, source);
    forall j | 0 <= j < n
      ensures keys[j] in c' && Arrivals(g[keys[j]], c', source) == Ok(c'[keys[j]])
    {
      SettleKeep(keys, g, source, c, Arrivals(g[k], c, source).value, c', j);
    }
  }

  /** Counting the last splitter leaves every earlier one settled: none of
      them has it as a parent. */
  lemma SettleKeep(keys: seq<Pos>, g: map<Pos, seq<Pos>>, source: Pos, c: map<Pos, int>, a: int, c': map<Pos, int>, j: nat)
    requires keys != [] && forall i :: 0 <= i < |keys| ==> keys[i] in g
    requires forall i, j :: 0 <= i < j < |keys| ==> keys[i] != keys[j]
    requires Closed(keys, g, source)
    requires Settled(g, source, keys[..|keys| - 1], c)
    requires j < |keys| - 1
    requires c' == c[keys[|keys| - 1] := a]
    ensures keys[j] in c' && Arrivals(g[keys[j]], c', source) == Ok(c'[keys[j]])
  {
    var n := |keys| - 1;
    var kj := keys[j];
    assert kj == keys[..n][j] && kj != keys[n];
    forall t | 0 <= t < |g[kj]|
      ensures g[kj][t] == source || (g[kj][t] in c' && g[kj][t] in c && c'[g[kj][t]] == c[g[kj][t]])
    {
      if g[kj][t] != source {
        var u :| 0 <= u < j && keys[..j][u] == g[kj][t];
        assert keys[..n][u] == g[kj][t] && u != n;
      }
    }
    ArrivalsAgree(g[kj], c', c, source);
  }

  /** A pass over settled counts changes nothing. */
  lemma {:induction false} SweepSettled(keys: seq<Pos>, g: map<Pos, seq<Pos>>, source: Pos, counts: map<Pos, int>)
    requires forall i :: 0 <= i < |keys| ==> keys[i] in g
    requires Settled(g, source, keys, counts)
    ensures Sweep(keys, g, source, counts) == Ok(counts)
  {
    if keys != [] {
      var n := |keys| - 1;
      SweepSettled(keys[..n], g, source, counts);
      assert counts[keys[n] := counts[keys[n]]] == counts;
    }
  }

  /** Splitters listed in map order, each recording only the source and
      earlier splitters: every parent is listed before its child. */
  lemma OrderedClosed(keys: seq<Pos>, g: map<Pos, seq<Pos>>, source: Pos)
    requires Increasing(keys) && forall k :: k in g <==> k in keys
    requires Ordered(g, source)
    ensures Closed(keys, g, source)
  {
    forall j, t | 0 <= j < |keys| && 0 <= t < |g[keys[j]]|
      ensures g[keys[j]][t] == source || g[keys[j]][t] in keys[..j]
    {
      var p := g[keys[j]][t];
      assert Feeds(g, source, p, keys[j]);
      if p != source {
        var u :| 0 <= u < |keys| && keys[u] == p;
        assert u < j;
        assert keys[..j][u] == p;
      }
    }
  }

  /** When every parent is the source or an earlier splitter, a pass in map
      order succeeds and settles every splitter: the counts get exactly the
      splitters' keys, each with the sum over its parents. */
  lemma SweepSettles(keys: seq<Pos>, g: map<Pos, seq<Pos>>, source: Pos, counts: map<Pos, int>)
    requires Ordered(g, source) && keys == MapOrder(g)
    ensures Sweep(keys, g, source, counts).Ok?
    ensures Settled(g, source, keys, Sweep(keys, g, source, counts).value)
    ensures forall k :: k in Sweep(keys, g, source, counts).value <==> k in counts || k in g
  {
    SortedKeysMeaning(g.Keys);
    OrderedClosed(keys, g, source);
    SweepClosed(keys, g, source, counts);
  }

  /** ... so the later passes of count_activations change nothing. */
  lemma {:induction false} SweepsSettle(n: int, keys: seq<Pos>, g: map<Pos, seq<Pos>>, source: Pos, counts: map<Pos, int>)
    requires n >= 1 && Ordered(g, source) && keys == MapOrder(g)
    ensures Sweeps(n, keys, g, source, counts) == Sweep(keys, g, source, counts)
    decreases n
  {
    if n > 1 {
      SweepsSettle(n - 1, keys, g, source, counts);
      SweepSettles(keys, g, source, counts);
      SweepSettled(keys, g, source, Sweep(keys, g, source, counts).value);
    }
  }

  /** A pass that has failed on a prefix of the splitters fails. */
  lemma {:induction false} SweepFailsLater(keys: seq<Pos>, i: nat, j: nat, g: map<Pos, seq<Pos>>, source: Pos, counts: map<Pos, int>)
    requires forall t :: 0 <= t < |keys| ==> keys[t] in g
    requires i <= j <= |keys|
    requires Sweep(keys[..i], g, source, counts).Err?
    ensures Sweep(keys[..j], g, source, counts).Err?
    decreases j - i
  {
    if i < j {
      assert keys[..i + 1][..i] == keys[..i];
      SweepFailsLater(keys, i + 1, j, g, source, counts);
    }
  }

  /** Once a pass fails, so does the whole rank loop. */
  lemma {:induction false} SweepsFailLater(n: int, m: int, keys: seq<Pos>, g: map<Pos, seq<Pos>>, source: Pos, counts: map<Pos, int>)
    requires forall t :: 0 <= t < |keys| ==> keys[t] in g
    requires n <= m
    requires Sweeps(n, keys, g, source, counts).Err?
    ensures Sweeps(m, keys, g, source, counts).Err?
    decreases m - n
  {
    if n < m {
      SweepsFailLater(n + 1, m, keys, g, source, counts);
    }
  }

  // ---------------------------------------------------------------------
  // count_children, leaf_nodes, part_1, part_2

  /** count_children(cand): the number of splitters that list cand as a
      parent. It is 0 exactly when no list of parents names cand, and never
      more than the number of splitters. */
  function Children(g: map<Pos, seq<Pos>>, cand: Pos): (n: nat)
    ensures n == 0 <==> forall k :: k in g ==> cand !in g[k]
    ensures n <= |g.Keys|
  {
    KidsNone(g, cand);
    SubsetSize(Kids(g, cand), g.Keys);
    |Kids(g, cand)|
  }

  /** The splitters that list cand as a parent. */
  function Kids(g: map<Pos, seq<Pos>>, cand: Pos): set<Pos> {
    set k | k in g && cand in g[k]
  }

  /** No splitter lists cand exactly when no list of parents names it. */
  lemma KidsNone(g: map<Pos, seq<Pos>>, cand: Pos)
    ensures Kids(g, cand) == {} <==> forall k :: k in g ==> cand !in g[k]
  {
    var kids := Kids(g, cand);
    if kids == {} {
      forall k | k in g
        ensures cand !in g[k]
      {
        assert k !in kids;
      }
    } else {
      var k :| k in kids;
      assert k in g && cand in g[k];
    }
  }

  /** A subset is no larger. */
  lemma {:induction false} SubsetSize<T>(a: set<T>, b: set<T>)
    requires a <= b
    ensures |a| <= |b|
    decreases |a|
  {
    if a != {} {
      var x :| x in a;
      SubsetSize(a - {x}, b - {x});
    }
  }

  /** The splitters `keys` without children, in their order. */
  function LeavesOf(keys: seq<Pos>, g: map<Pos, seq<Pos>>): seq<Pos> {
    if keys == [] then
      []
    else
      var k := keys[|keys| - 1];
      LeavesOf(keys[..|keys| - 1], g) + if Children(g, k) == 0 then [k] else []
  }

  /** leaf_nodes: the splitters without children, in map order. */
  function Leaves(g: map<Pos, seq<Pos>>): seq<Pos> {
    LeavesOf(MapOrder(g), g)
  }

  lemma {:induction false} LeavesOfMeaning(keys: seq<Pos>, g: map<Pos, seq<Pos>>)
    requires Increasing(keys)
    ensures Increasing(LeavesOf(keys, g))
    ensures forall x :: x in LeavesOf(keys, g) <==> x in keys && Children(g, x) == 0
  {
    if keys != [] {
      var n := |keys| - 1;
      var init := keys[..n];
      var k := keys[n];
      var rest := LeavesOf(init, g);
      assert Increasing(init) by {
        forall i, j | 0 <= i < j < |init|
          ensures Less(init[i], init[j])
        {
          assert init[i] == keys[i] && init[j] == keys[j];
        }
      }
      LeavesOfMeaning(init, g);
      assert keys == init + [k];
      if Children(g, k) == 0 {
        forall x | x in rest
          ensures Less(x, k)
        {
          var u :| 0 <= u < n && init[u] == x;
        }
        IncreasingSnoc(rest, k);
      }
    }
  }

  /** Appending a position after every element keeps a sequence increasing. */
  lemma IncreasingSnoc(s: seq<Pos>, x: Pos)
    requires Increasing(s)
    requires forall y :: y in s ==> Less(y, x)
    ensures Increasing(s + [x])
  {
    var t := s + [x];
    forall i, j | 0 <= i < j < |t|
      ensures Less(t[i], t[j])
    {
      if j == |s| {
        assert t[i] in s;
      }
    }
  }

  /** leaf_nodes lists, in map order, exactly the splitters that no list of
      parents names. */
  lemma LeavesMeaning(g: map<Pos, seq<Pos>>)
    ensures Increasing(Leaves(g))
    ensures forall x :: x in Leaves(g) <==> x in g && forall k :: k in g ==> x !in g[k]
  {
    SortedKeysMeaning(g.Keys);
    LeavesOfMeaning(SortedKeys(g.Keys), g);
  }

  /** The count_if of part_1: the splitters some beam reached. */
  function Activated(g: map<Pos, seq<Pos>>): nat {
    |Reached(g)|
  }

  /** The splitters whose list of parents is not empty. */
  function Reached(g: map<Pos, seq<Pos>>): set<Pos> {
    set k | k in g && g[k] != []
  }

  /** Marking never unmarks: a reached splitter stays reached, so part 1's
      count only grows; it never exceeds the number of splitters. */
  lemma MarkActivates(g: map<Pos, seq<Pos>>, limits: (int, int), from: Pos, parent: Pos)
    ensures Activated(g) <= Activated(Mark(g, limits, from, parent)) <= |g.Keys|
  {
    var h := Mark(g, limits, from, parent);
    MarkAppends(g, limits, from, parent);
    var before := Reached(g);
    var after := Reached(h);
    forall k | k in before
      ensures k in after
    {
      assert g[k] <= h[k];
    }
    SubsetSize(before, after);
    SubsetSize(after, h.Keys);
  }

  /** The std::accumulate of part_2 over the splitters `keys`: each
      contributes (2 - its children) times its count; counts.at throws for
      a splitter without a count. */
  function Weigh(keys: seq<Pos>, g: map<Pos, seq<Pos>>, counts: map<Pos, int>): (r: Result<int>)
    ensures r.Ok? <==> forall i :: 0 <= i < |keys| ==> keys[i] in counts
  {
    if keys == [] then
      Ok(0)
    else
      var acc :- Weigh(keys[..|keys| - 1], g, counts);
      var k := keys[|keys| - 1];
      if k in counts then Ok(acc + (2 - Children(g, k)) * counts[k]) else Err
  }

  /** part_1(input): fails exactly on an input without lines, and
      otherwise counts the splitters that the beams from the source reach,
      no more than the manifold holds. */
  function Part1Spec(input: string): (r: Result<nat>)
    ensures r.Ok? <==> Lines(input) != []
    ensures var lines := Lines(input);
      r.Ok? ==> r.value == |Reachable(SplittersOf(lines, |lines|), (|lines|, |lines[0]|), SourceOf(lines, |lines|))|
    ensures r.Ok? ==> r.value <= |SplittersOf(Lines(input), |Lines(input)|)|
  {
    var b :- ParseSpec(input);
    MarkActivates(b.parents, b.limits, b.source, b.source);
    MarkReaches(b.parents.Keys, b.limits, b.source);
    Ok(Activated(Mark(b.parents, b.limits, b.source, b.source)))
  }

  /** part_2(input): parse, mark from the source, count, weigh. It fails
      only on an input without lines: beams only record the source and
      earlier splitters, so no counts.at throws. */
  function Part2Spec(input: string): (r: Result<int>)
    ensures r.Ok? <==> Lines(input) != []
  {
    var b :- ParseSpec(input);
    assert b.limits.0 >= 1;
    MarkOrdered(b.parents, b.limits, b.source, b.source, b.source);
    var g := Mark(b.parents, b.limits, b.source, b.source);
    var keys := MapOrder(g);
    SweepsSettle(b.limits.0, keys, g, b.source, map[]);
    SweepSettles(keys, g, b.source, map[]);
    SortedKeysMeaning(g.Keys);
    var counts := Sweeps(b.limits.0, keys, g, b.source, map[]);
    if counts.Err? then Err else Weigh(keys, g, counts.value)
  }

  /** The splitter field: the Splitters struct, whose members the solver
      updates in place. */
  class Splitters {
    /** The C++ member `map`: each splitter and the parents that reached it. */
    var parents: map<Pos, seq<Pos>>
    var counts: map<Pos, int>
    var limits: (int, int)
    var source: Pos

    /** A value-initialised Splitters. */
    constructor ()
      ensures parents == map[] && counts == map[] && limits == (0, 0) && source == (0, 0)
    {
      parents := map[];
      counts := map[];
      limits := (0, 0);
      source := (0, 0);
    }

    /** mark_activations(from, parent). */
    method MarkFrom(from: Pos, parent: Pos)
      modifies this
      ensures parents == Mark(old(parents), limits, from, parent)
      ensures counts == old(counts) && limits == old(limits) && source == old(source)
      decreases limits.0 - from.0
    {
      if from.0 >= limits.0 || from.1 >= limits.1 || from.0 < 0 || from.1 < 0 {
        return;
      }
      var below := (from.0 + 1, from.1);
      if below in parents {
        var firstVisit := parents[below] == [];
        parents := parents[below := parents[below] + [parent]];
        if firstVisit {
          MarkFrom((below.0, below.1 - 1), below);
          MarkFrom((below.0, below.1 + 1), below);
        }
      } else {
        MarkFrom(below, parent);
      }
    }

    /** mark_activations(): one beam from the source, with the source as its parent. */
    method MarkActivations()
      modifies this
      ensures parents == Mark(old(parents), limits, source, source)
      ensures counts == old(counts) && limits == old(limits) && source == old(source)
    {
      MarkFrom(source, source);
    }

    /** count_activations: limits.first passes over the splitters in map
        order. An exception from counts.at ends the computation; the
        method then reports failure and the counts are not used. */
    method CountActivations() returns (ok: bool)
      modifies this
      ensures parents == old(parents) && limits == old(limits) && source == old(source)
      ensures ok == Sweeps(limits.0, MapOrder(parents), parents, source, old(counts)).Ok?
      ensures ok ==> Sweeps(limits.0, MapOrder(parents), parents, source, old(counts)) == Ok(counts)
    {
      var rank := 0;
      while rank < limits.0
        invariant parents == old(parents) && limits == old(limits) && source == old(source)
        invariant rank <= limits.0 || rank == 0
        invariant Sweeps(rank, MapOrder(parents), parents, source, old(counts)) == Ok(counts)
      {
        var r := CountPass(parents, source, counts);
        if r.Err? {
          ok := false;
          SweepsFailLater(rank + 1, limits.0, MapOrder(parents), parents, source, old(counts));
          return;
        }
        counts := r.value;
        rank := rank + 1;
      }
      return true;
    }
  }

  /** One pass of the for_each of count_activations over the map g, in
      map order, updating the counts as it goes. */
  method CountPass(g: map<Pos, seq<Pos>>, source: Pos, counts: map<Pos, int>) returns (r: Result<map<Pos, int>>)
    ensures r == Sweep(MapOrder(g), g, source, counts)
  {
    var keys := MapOrder(g);
    var c := counts;
    var i := 0;
    while i < |keys|
      invariant 0 <= i <= |keys|
      invariant Sweep(keys[..i], g, source, counts) == Ok(c)
    {
      var k := keys[i];
      assert keys[..i + 1][..i] == keys[..i];
      if g[k] == [] {
        c := c[k := 0];
      } else {
        var acc := Arrivals(g[k], c, source);
        if acc.Err? {
          SweepFailsLater(keys, i + 1, |keys|, g, source, counts);
          assert keys[..|keys|] == keys;
          return Err;
        }
        c := c[k := acc.value];
      }
      i := i + 1;
    }
    assert keys[..|keys|] == keys;
    return Ok(c);
  }

  /** parse_input: every 'S' moves the source, every '^' becomes a splitter
      with no parents. */
  method ParseInput(input: string) returns (r: Result<Splitters>)
    ensures r.Err? <==> ParseSpec(input).Err?
    ensures r.Ok? ==> fresh(r.value) && r.value.counts == map[]
                      && Board(r.value.parents, r.value.limits, r.value.source) == ParseSpec(input).value
  {
    var lines := Lines(input);
    if |lines| == 0 {
      return Err;
    }
    var s := new Splitters();
    s.limits := (|lines|, |lines[0]|);
    var i := 0;
    while i < |lines|
      invariant 0 <= i <= |lines|
      invariant s.parents.Keys == SplittersOf(lines, i) && forall k :: k in s.parents ==> s.parents[k] == []
      invariant s.source == SourceOf(lines, i)
      invariant s.counts == map[] && s.limits == (|lines|, |lines[0]|)
    {
      ReadRow(s, lines, i);
      i := i + 1;
    }
    assert s.parents == Unmarked(SplittersOf(lines, |lines|));
    return Ok(s);
  }

  /** The inner loop of parse_input over the characters of line i. */
  method ReadRow(s: Splitters, lines: seq<string>, i: nat)
    requires i < |lines|
    requires s.parents.Keys == SplittersOf(lines, i) && forall k :: k in s.parents ==> s.parents[k] == []
    requires s.source == SourceOf(lines, i)
    modifies s
    ensures s.parents.Keys == SplittersOf(lines, i + 1) && forall k :: k in s.parents ==> s.parents[k] == []
    ensures s.source == SourceOf(lines, i + 1)
    ensures s.counts == old(s.counts) && s.limits == old(s.limits)
  {
    var line := lines[i];
    var j := 0;
    while j < |line|
      invariant 0 <= j <= |line|
      invariant s.parents.Keys == SplittersOf(lines, i) + RowSplitters(line, i, j)
      invariant forall k :: k in s.parents ==> s.parents[k] == []
      invariant s.source == RowSource(line, i, j, SourceOf(lines, i))
      invariant s.counts == old(s.counts) && s.limits == old(s.limits)
    {
      if line[j] == 'S' {
        s.source := (i, j);
      } else if line[j] == '^' {
        if (i, j) !in s.parents {
          s.parents := s.parents[(i, j) := []];
        }
      }
      j := j + 1;
    }
  }

  /** leaf_nodes(splitters). */
  method LeafNodes(s: Splitters) returns (leaves: seq<Pos>)
    ensures leaves == Leaves(s.parents)
  {
    var keys := MapOrder(s.parents);
    leaves := [];
    var i := 0;
    while i < |keys|
      invariant 0 <= i <= |keys|
      invariant leaves == LeavesOf(keys[..i], s.parents)
    {
      assert keys[..i + 1][..i] == keys[..i];
      if Children(s.parents, keys[i]) == 0 {
        leaves := leaves + [keys[i]];
      }
      i := i + 1;
    }
    assert keys[..i] == keys;
  }

  /** part_1(input). */
  method Part1(input: string) returns (r: Result<nat>)
    ensures r == Part1Spec(input)
    ensures var lines := Lines(input);
      r.Ok? ==> r.value == |Reachable(SplittersOf(lines, |lines|), (|lines|, |lines[0]|), SourceOf(lines, |lines|))|
  {
    var parsed := ParseInput(input);
    if parsed.Err? {
      return Err;
    }
    var s := parsed.value;
    s.MarkActivations();
    r := Ok(Activated(s.parents));
  }

  /** part_2(input). */
  method Part2(input: string) returns (r: Result<int>)
    ensures r == Part2Spec(input)
  {
    var parsed := ParseInput(input);
    if parsed.Err? {
      return Err;
    }
    var s := parsed.value;
    s.MarkActivations();
    var ok := s.CountActivations();
    if !ok {
      return Err;
    }
    r := Weigh(MapOrder(s.parents), s.parents, s.counts);
  }

  // ---------------------------------------------------------------------
  // Drawn manifolds and the checks of tests()

  /** The character drawn at p: the source, a splitter or empty space. */
  function Glyph(p: Pos, source: Pos, keys: set<Pos>): char {
    if p == source then 'S' else if p in keys then '^' else '.'
  }

  /** h lines of w characters each. */
  function Drawn(h: nat, w: nat, source: Pos, keys: set<Pos>): (lines: seq<string>)
    ensures |lines| == h && forall i :: 0 <= i < h ==> |lines[i]| == w
  {
    seq(h, i => seq(w, j => Glyph((i, j), source, keys)))
  }

  /** The text of a drawn manifold: each line ended by a newline. */
  function Drawing(h: nat, w: nat, source: Pos, keys: set<Pos>): string
    requires h >= 1
  {
    Join(Drawn(h, w, source, keys), '\n') + "\n"
  }

  predicate Inside(p: Pos, h: nat, w: nat) {
    0 <= p.0 < h && 0 <= p.1 < w
  }

  /** parse_input reads back what was drawn: the limits, the source and
      every splitter, with no parents. */
  lemma DrawingParsed(h: nat, w: nat, source: Pos, keys: set<Pos>)
    requires h >= 1 && w >= 1
    requires Inside(source, h, w) && source !in keys
    requires forall k :: k in keys ==> Inside(k, h, w)
    ensures ParseSpec(Drawing(h, w, source, keys)) == Ok(Board(Unmarked(keys), (h, w), source))
  {
    var lines := Drawn(h, w, source, keys);
    forall i | 0 <= i < h
      ensures '\n' !in lines[i] && lines[i] != []
    {
      assert lines[i][0] == Glyph((i, 0), source, keys);
    }
    SplitOfTerminated(lines, '\n', false);
    assert Lines(Drawing(h, w, source, keys)) == lines;
    DrawnSplitters(h, w, source, keys);
    DrawnSource(h, w, source, keys);
    assert |lines[0]| == w;
  }

  lemma DrawnSplitters(h: nat, w: nat, source: Pos, keys: set<Pos>)
    requires source !in keys && forall k :: k in keys ==> Inside(k, h, w)
    ensures SplittersOf(Drawn(h, w, source, keys), h) == keys
  {
    var lines := Drawn(h, w, source, keys);
    SplittersMeaning(lines, h);
    forall p: Pos
      ensures p in SplittersOf(lines, h) <==> p in keys
    {
      DrawnCell(h, w, source, keys, p);
    }
  }

  /** A drawn cell holds '^' exactly at a splitter. */
  lemma DrawnCell(h: nat, w: nat, source: Pos, keys: set<Pos>, p: Pos)
    requires source !in keys && forall k :: k in keys ==> Inside(k, h, w)
    ensures HoldsAt(Drawn(h, w, source, keys), p, '^') <==> p in keys
  {
    if Inside(p, h, w) {
      assert Drawn(h, w, source, keys)[p.0][p.1] == Glyph(p, source, keys);
    }
  }

  lemma DrawnSource(h: nat, w: nat, source: Pos, keys: set<Pos>)
    requires Inside(source, h, w)
    ensures SourceOf(Drawn(h, w, source, keys), h) == source
  {
    var lines := Drawn(h, w, source, keys);
    SourceMeaning(lines, h);
    assert HoldsAt(lines, source, 'S');
    var src := SourceOf(lines, h);
    assert HoldsAt(lines, src, 'S');
    assert lines[src.0][src.1] == Glyph(src, source, keys);
  }

  /** The splitters of the second test manifold of tests(). */
  const SampleKeys: set<Pos> := {(2, 7), (5, 6), (5, 8)}

  /** A beam falls n rows through empty cells. */
  lemma {:induction false} FallThrough(g: map<Pos, seq<Pos>>, limits: (int, int), from: Pos, parent: Pos, n: nat)
    requires 0 <= from.0 && from.0 + n <= limits.0 && 0 <= from.1 < limits.1
    requires forall r :: from.0 < r <= from.0 + n ==> (r, from.1) !in g
    ensures Mark(g, limits, from, parent) == Mark(g, limits, (from.0 + n, from.1), parent)
    decreases n
  {
    if n > 0 {
      FallThrough(g, limits, (from.0 + 1, from.1), parent, n - 1);
    }
  }

  /** A beam with no splitter below it leaves the field and changes nothing. */
  lemma Escape(g: map<Pos, seq<Pos>>, limits: (int, int), from: Pos, parent: Pos)
    requires 0 <= from.0 < limits.0 && 0 <= from.1 < limits.1
    requires forall t :: from.0 < t <= limits.0 ==> (t, from.1) !in g
    ensures Mark(g, limits, from, parent) == g
  {
    FallThrough(g, limits, from, parent, limits.0 - from.0);
    assert Mark(g, limits, (limits.0, from.1), parent) == g;
  }

  /** A beam hitting a splitter on its first visit: the splitter records
      the parent and both side beams start from the splitter's row. */
  lemma Hit(g: map<Pos, seq<Pos>>, limits: (int, int), from: Pos, parent: Pos)
    requires InField(limits, from) && (from.0 + 1, from.1) in g && g[(from.0 + 1, from.1)] == []
    ensures var below := (from.0 + 1, from.1);
      Mark(g, limits, from, parent)
      == Mark(Mark(g[below := [parent]], limits, (below.0, below.1 - 1), below), limits, (below.0, below.1 + 1), below)
  {
    var below := (from.0 + 1, from.1);
    assert g[below] + [parent] == [parent];
  }

  /** The beams of the second test manifold that leave (2, 7) to the left
      reach (5, 6) on its first visit; both of its beams escape. */
  lemma SampleLeft(g: map<Pos, seq<Pos>>, limits: (int, int))
    requires g.Keys == SampleKeys && g[(5, 6)] == [] && limits == (7, 15)
    ensures Mark(g, limits, (2, 6), (2, 7)) == g[(5, 6) := [(2, 7)]]
  {
    FallThrough(g, limits, (2, 6), (2, 7), 2);
    Hit(g, limits, (4, 6), (2, 7));
    var g' := g[(5, 6) := [(2, 7)]];
    Escape(g', limits, (5, 5), (5, 6));
    Escape(g', limits, (5, 7), (5, 6));
  }

  /** Likewise to the right, reaching (5, 8). */
  lemma SampleRight(g: map<Pos, seq<Pos>>, limits: (int, int))
    requires g.Keys == SampleKeys && g[(5, 8)] == [] && limits == (7, 15)
    ensures Mark(g, limits, (2, 8), (2, 7)) == g[(5, 8) := [(2, 7)]]
  {
    FallThrough(g, limits, (2, 8), (2, 7), 2);
    Hit(g, limits, (4, 8), (2, 7));
    var g' := g[(5, 8) := [(2, 7)]];
    Escape(g', limits, (5, 7), (5, 8));
    Escape(g', limits, (5, 9), (5, 8));
  }

  /** The splitter map of the second test manifold once marked: (2, 7) is
      reached from the source, (5, 6) and (5, 8) from (2, 7). */
  predicate SampleMarked(m: map<Pos, seq<Pos>>) {
    m.Keys == SampleKeys && m[(2, 7)] == [(0, 7)] && m[(5, 6)] == [(2, 7)] && m[(5, 8)] == [(2, 7)]
  }

  /** The beam from the source of the second test manifold hits (2, 7) on
      its first visit. */
  lemma SampleTop(g: map<Pos, seq<Pos>>, limits: (int, int), source: Pos)
    requires g.Keys == SampleKeys && g[(2, 7)] == []
    requires limits == (7, 15) && source == (0, 7)
    ensures Mark(g, limits, source, source)
            == Mark(Mark(g[(2, 7) := [source]], limits, (2, 6), (2, 7)), limits, (2, 8), (2, 7))
  {
    FallThrough(g, limits, (0, 7), source, 1);
    Hit(g, limits, (1, 7), source);
  }

  /** Marking the second test manifold from its source. */
  lemma SampleMark(g: map<Pos, seq<Pos>>, limits: (int, int), source: Pos)
    requires g.Keys == SampleKeys && g[(2, 7)] == [] && g[(5, 6)] == [] && g[(5, 8)] == []
    requires limits == (7, 15) && source == (0, 7)
    ensures SampleMarked(Mark(g, limits, source, source))
  {
    var g1 := g[(2, 7) := [source]];
    var g2 := g1[(5, 6) := [(2, 7)]];
    var g3 := g2[(5, 8) := [(2, 7)]];
    SampleTop(g, limits, source);
    SampleLeft(g1, limits);
    SampleRight(g2, limits);
    assert Mark(g, limits, source, source) == g3;
    assert g3.Keys == SampleKeys;
  }

  /** The second test manifold of tests() parses as drawn and marking
      it records the parents above. */
  lemma SampleParsed(input: string, h: nat, w: nat, source: Pos, keys: set<Pos>)
    requires h == 7 && w == 15 && source == (0, 7) && keys == SampleKeys
    requires input == Drawing(h, w, source, keys)
    ensures ParseSpec(input) == Ok(Board(Unmarked(keys), (h, w), source))
    ensures SampleMarked(Mark(Unmarked(keys), (h, w), source, source))
  {
    DrawingParsed(h, w, source, keys);
    SampleMark(Unmarked(keys), (h, w), source);
  }

  /** All three splitters are reached. */
  lemma SampleReached(m: map<Pos, seq<Pos>>)
    requires SampleMarked(m)
    ensures Activated(m) == 3
  {
    assert Reached(m) == SampleKeys;
  }

  /** part_1 of the second test manifold is 3, as tests() checks. */
  lemma SamplePart1(input: string, h: nat, w: nat, source: Pos, keys: set<Pos>)
    requires h == 7 && w == 15 && source == (0, 7) && keys == SampleKeys
    requires input == Drawing(h, w, source, keys)
    ensures Part1Spec(input) == Ok(3)
  {
    SampleParsed(input, h, w, source, keys);
    SampleReached(Mark(Unmarked(keys), (h, w), source, source));
  }

  /** count_children on the marked second manifold, as tests() checks it: (2, 7)
      has two children, (5, 6) and (5, 8) have none. */
  lemma SampleChildren(m: map<Pos, seq<Pos>>)
    requires SampleMarked(m)
    ensures Children(m, (2, 7)) == 2
    ensures Children(m, (5, 6)) == 0 && Children(m, (5, 8)) == 0
  {
    assert forall k :: k in m ==> k == (2, 7) || k == (5, 6) || k == (5, 8);
    assert Kids(m, (2, 7)) == {(5, 6), (5, 8)};
    assert Kids(m, (5, 6)) == {};
    assert Kids(m, (5, 8)) == {};
  }

  /** leaf_nodes on the marked second manifold, as tests() checks it: (5, 6) and
      (5, 8) are leaves, (2, 7) is not. */
  lemma SampleLeaves(m: map<Pos, seq<Pos>>)
    requires SampleMarked(m)
    ensures (2, 7) !in Leaves(m)
    ensures (5, 6) in Leaves(m) && (5, 8) in Leaves(m)
  {
    SampleChildren(m);
    SortedKeysMeaning(m.Keys);
    LeavesOfMeaning(MapOrder(m), m);
  }

  /** The map order of the second manifold's splitters. */
  lemma SampleOrder(m: map<Pos, seq<Pos>>)
    requires SampleMarked(m)
    ensures MapOrder(m) == [(2, 7), (5, 6), (5, 8)]
  {
    SortedKeysUnique(m.Keys, [(2, 7), (5, 6), (5, 8)]);
  }

  /** The counts of the marked second manifold: each splitter counts 1. */
  lemma SampleCounts(m: map<Pos, seq<Pos>>, source: Pos, keys: seq<Pos>)
    requires SampleMarked(m) && source == (0, 7) && keys == [(2, 7), (5, 6), (5, 8)]
    ensures Sweep(keys, m, source, map[]) == Ok(map[(2, 7) := 1, (5, 6) := 1, (5, 8) := 1])
  {
    assert keys[..2][..1] == keys[..1] && keys[..1][..0] == keys[..0] && keys[..3] == keys;
    var c1 := map[(2, 7) := 1];
    assert Arrivals([], map[], source) == Ok(0);
    assert Arrivals(m[(2, 7)], map[], source) == Ok(1);
    assert Sweep(keys[..1][..0], m, source, map[]) == Ok(map[]);
    assert Sweep(keys[..1], m, source, map[]) == Ok(c1);
    var c2 := c1[(5, 6) := 1];
    assert Arrivals(m[(5, 6)], c1, source) == Ok(1);
    assert Sweep(keys[..2], m, source, map[]) == Ok(c2);
    assert Arrivals(m[(5, 8)], c2, source) == Ok(1);
  }

  /** Weighing the second manifold: (2 - 2) * 1 + (2 - 0) * 1 + (2 - 0) * 1. */
  lemma SampleWeigh(m: map<Pos, seq<Pos>>, keys: seq<Pos>, c: map<Pos, int>)
    requires SampleMarked(m) && keys == [(2, 7), (5, 6), (5, 8)]
    requires c == map[(2, 7) := 1, (5, 6) := 1, (5, 8) := 1]
    ensures Weigh(keys, m, c) == Ok(4)
  {
    SampleChildren(m);
    assert keys[..2][..1] == keys[..1] && keys[..1][..0] == keys[..0] && keys[..3] == keys;
    assert Weigh(keys[..1], m, c) == Ok(0);
    assert Weigh(keys[..2], m, c) == Ok(2);
  }

  /** part_2 of the second test manifold is 4, as tests() checks, after settling
      the counts in one pass. */
  lemma SamplePart2(input: string, h: nat, w: nat, source: Pos, keys: set<Pos>)
    requires h == 7 && w == 15 && source == (0, 7) && keys == SampleKeys
    requires input == Drawing(h, w, source, keys)
    ensures Part2Spec(input) == Ok(4)
  {
    SampleParsed(input, h, w, source, keys);
    var g := Unmarked(keys);
    var m := Mark(g, (h, w), source, source);
    MarkOrdered(g, (h, w), source, source, source);
    SampleOrder(m);
    var ks := MapOrder(m);
    SweepsSettle(h, ks, m, source, map[]);
    SampleCounts(m, source, ks);
    SampleWeigh(m, ks, map[(2, 7) := 1, (5, 6) := 1, (5, 8) := 1]);
  }
}
