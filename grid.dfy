/** The rectangular grid of src/common.hpp.

    A Grid<T> keeps its cells in one row-major buffer `buf` of nrows * ncols
    elements. As written, the slot of cell (i, j) is i * nrows + j (the row
    is scaled by the number of ROWS): on a square grid this is the usual
    row-major slot, on a wider grid rows share slots, and a taller grid
    cannot be built because a write falls outside the buffer. */
module Grids {
  import opened Wrappers
  import opened Text

  /** Some line's length differs from the first line's. */
  predicate Ragged(lines: seq<string>) {
    exists i :: 0 <= i < |lines| && |lines[i]| != |lines[0]|
  }

  /** The buffer slot of cell (i, j) on a grid of nrows rows, as written
      in idx(i, j). */
  function Slot(nrows: nat, i: nat, j: nat): nat {
    i * nrows + j
  }

  lemma {:induction false} MulLe(a: nat, b: nat, c: nat)
    requires a <= b
    ensures a * c <= b * c
    decreases b - a
  {
    if a < b {
      MulLe(a, b - 1, c);
      assert (b - 1) * c + c == b * c;
    }
  }

  /** On a grid that is not taller than wide, every cell's slot is inside the buffer. */
  lemma SlotInBuffer(nrows: nat, ncols: nat, i: nat, j: nat)
    requires i < nrows && j < ncols && nrows <= ncols
    ensures Slot(nrows, i, j) < nrows * ncols
  {
    MulLe(i, nrows - 1, nrows);
    MulLe(nrows, ncols, nrows - 1);
    assert (nrows - 1) * nrows == nrows * (nrows - 1);
    assert (nrows - 1) * ncols + ncols == nrows * ncols;
  }

  /** On a taller grid the last cell's slot is outside the buffer. */
  lemma LastSlotOutside(nrows: nat, ncols: nat)
    requires 1 <= ncols < nrows
    ensures Slot(nrows, nrows - 1, ncols - 1) >= nrows * ncols
  {
    MulLe(ncols + 1, nrows, nrows - 1);
    assert (ncols + 1) * (nrows - 1) == nrows * ncols + nrows - ncols - 1;
    assert nrows * (nrows - 1) == (nrows - 1) * nrows;
  }

  /** Distinct cells of a square grid have distinct slots. */
  lemma SquareSlotsDistinct(n: nat, i: nat, j: nat, i': nat, j': nat)
    requires i < n && j < n && i' < n && j' < n
    requires (i, j) != (i', j')
    ensures Slot(n, i, j) != Slot(n, i', j')
  {
    if i < i' {
      MulLe(i + 1, i', n);
      assert (i + 1) * n == i * n + n;
    } else if i' < i {
      MulLe(i' + 1, i, n);
      assert (i' + 1) * n == i' * n + n;
    }
  }

  /** The buffer the constructor has written once it has filled all rows
      before row i and the first j cells of row i, in that order; a later
      write to a slot replaces an earlier one. A write the constructor would
      refuse is skipped here; on the inputs it accepts there is none. */
  ghost function Written<T>(lines: seq<string>, ncols: nat, f: (nat, nat, char) -> T, zero: T, i: nat, j: nat): (b: seq<T>)
    requires i <= |lines| && j <= ncols && (i == |lines| ==> j == 0)
    ensures |b| == |lines| * ncols
    decreases i, j
  {
    var nrows := |lines|;
    if j == 0 then
      if i == 0 then seq(nrows * ncols, _ => zero) else Written(lines, ncols, f, zero, i - 1, ncols)
    else
      var prev := Written(lines, ncols, f, zero, i, j - 1);
      var p := Slot(nrows, i, j - 1);
      if j - 1 < |lines[i]| && p < nrows * ncols then prev[p := f(i, j - 1, lines[i][j - 1])] else prev
  }

  /** Cell (i', j') comes before cell (i, j) in row-major order. */
  predicate Before(i': nat, j': nat, i: nat, j: nat) {
    i' < i || (i' == i && j' < j)
  }

  /** On a square grid every cell's slot is its own, so the buffer holds
      exactly the cells written so far. */
  lemma {:induction false} WrittenSquare<T>(lines: seq<string>, f: (nat, nat, char) -> T, zero: T, i: nat, j: nat, i': nat, j': nat)
    requires lines != [] && !Ragged(lines) && |lines[0]| == |lines|
    requires i <= |lines| && j <= |lines| && (i == |lines| ==> j == 0)
    requires i' < |lines| && j' < |lines|
    ensures Slot(|lines|, i', j') < |lines| * |lines|
    ensures Written(lines, |lines|, f, zero, i, j)[Slot(|lines|, i', j')] ==
      if Before(i', j', i, j) then f(i', j', lines[i'][j']) else zero
    decreases i, j
  {
    var n := |lines|;
    SlotInBuffer(n, n, i', j');
    if j == 0 {
      if i > 0 {
        WrittenSquare(lines, f, zero, i - 1, n, i', j');
      }
    } else {
      WrittenSquare(lines, f, zero, i, j - 1, i', j');
      assert |lines[i]| == n;
      SlotInBuffer(n, n, i, j - 1);
      if (i', j') != (i, j - 1) {
        SquareSlotsDistinct(n, i, j - 1, i', j');
      }
    }
  }

  /** A grid of the characters themselves. */
  function CharCell(i: nat, j: nat, c: char): char {
    c
  }

  const WideLines: seq<string> := ["abc", "def"]

  lemma WideFirstRow()
    ensures Written(WideLines, 3, CharCell, '.', 1, 0) == ['a', 'b', 'c', '.', '.', '.']
  {
    var w0 := Written(WideLines, 3, CharCell, '.', 0, 0);
    assert w0 == ['.', '.', '.', '.', '.', '.'];
    var w1 := Written(WideLines, 3, CharCell, '.', 0, 1);
    assert w1 == w0[0 := 'a'];
    var w2 := Written(WideLines, 3, CharCell, '.', 0, 2);
    assert w2 == w1[1 := 'b'];
    var w3 := Written(WideLines, 3, CharCell, '.', 0, 3);
    assert w3 == w2[2 := 'c'];
  }

  /** On the wide grid "abc" / "def" the two rows share slot 2: it ends up
      holding the first cell of the second row, and the last slot is never
      written. */
  lemma WideGridShares()
    ensures Written(WideLines, 3, CharCell, '.', 2, 0) == ['a', 'b', 'd', 'e', 'f', '.']
  {
    var w3 := Written(WideLines, 3, CharCell, '.', 1, 0);
    WideFirstRow();
    var w4 := Written(WideLines, 3, CharCell, '.', 1, 1);
    assert w4 == w3[2 := 'd'];
    var w5 := Written(WideLines, 3, CharCell, '.', 1, 2);
    assert w5 == w4[3 := 'e'];
    var w6 := Written(WideLines, 3, CharCell, '.', 1, 3);
    assert w6 == w5[4 := 'f'];
  }

  class Grid<T> {
    var nrows: nat
    var ncols: nat
    var buf: array<T>

    ghost predicate Valid()
      reads this
    {
      buf.Length == nrows * ncols
    }

    /** The grid before its buffer is filled: nrows * ncols copies of `zero`,
        the value-initialised element std::vector::resize puts there. */
    constructor Sized(nrows: nat, ncols: nat, zero: T)
      ensures this.nrows == nrows && this.ncols == ncols
      ensures Valid() && fresh(buf)
      ensures buf[..] == seq(nrows * ncols, _ => zero)
    {
      this.nrows, this.ncols := nrows, ncols;
      buf := new T[nrows * ncols](_ => zero);
    }

    /** idx(i, j): fails unless the cell is inside the grid. */
    function Idx(i: nat, j: nat): (r: Option<nat>)
      reads this
      ensures r.Some? <==> i < nrows && j < ncols
      ensures r.Some? && nrows <= ncols ==> r.value < nrows * ncols
    {
      if i < nrows && j < ncols then
        if nrows <= ncols then SlotInBuffer(nrows, ncols, i, j); Some(Slot(nrows, i, j))
        else Some(Slot(nrows, i, j))
      else
        None
    }

    /** at(p): the bounds-checked read of std::vector::at. */
    function AtIndex(p: nat): (r: Option<T>)
      reads this, buf
      ensures r.Some? <==> p < buf.Length
      ensures r.Some? ==> r.value == buf[p]
    {
      if p < buf.Length then Some(buf[p]) else None
    }

    /** at(i, j): fails outside the grid, and where the slot falls outside
        the buffer. */
    function At(i: nat, j: nat): (r: Option<T>)
      reads this, buf
      ensures Valid() && nrows <= ncols ==> (r.Some? <==> i < nrows && j < ncols)
      ensures r.Some? <==> Idx(i, j).Some? && Idx(i, j).value < buf.Length
      ensures r.Some? ==> r.value == buf[Idx(i, j).value]
    {
      match Idx(i, j)
      case None => None
      case Some(p) => AtIndex(p)
    }

    /** Assignment through ref(p). */
    method RefIndex(p: nat, v: T) returns (ok: bool)
      modifies buf
      ensures ok <==> p < buf.Length
      ensures buf[..] == if ok then old(buf[..])[p := v] else old(buf[..])
    {
      ok := p < buf.Length;
      if ok {
        buf[p] := v;
      }
    }

    /** Assignment through ref(i, j): only slot idx(i, j) changes. */
    method Ref(i: nat, j: nat, v: T) returns (ok: bool)
      modifies buf
      ensures ok <==> Idx(i, j).Some? && Idx(i, j).value < buf.Length
      ensures buf[..] == if ok then old(buf[..])[Idx(i, j).value := v] else old(buf[..])
    {
      match Idx(i, j)
      case None =>
        ok := false;
      case Some(p) =>
        ok := RefIndex(p, v);
    }
  }

  /** The constructor Grid(input, f): the grid of the lines of the input. */
  method Build<T>(input: string, f: (nat, nat, char) -> T, zero: T) returns (r: Result<Grid<T>>)
    ensures r == Err <==> Lines(input) != [] && (Ragged(Lines(input)) || |Lines(input)| > |Lines(input)[0]|)
    ensures r.Ok? ==> fresh(r.value) && fresh(r.value.buf) && r.value.Valid() && r.value.nrows <= r.value.ncols
    ensures r.Ok? ==> Shaped(r.value, Lines(input), f, zero)
  {
    var lines := SplitLines(input);
    assert forall k :: 0 <= k < |lines| ==> lines[k] in lines;
    r := FromLines(lines, f, zero);
  }

  /** What a grid built from `lines` holds: nothing for no lines; otherwise
      one row per line, one column per character of the first line, and the
      buffer the row-by-row writes leave, which on a square grid is every
      cell at its own place. */
  ghost predicate Shaped<T>(g: Grid<T>, lines: seq<string>, f: (nat, nat, char) -> T, zero: T)
    reads g, g.buf
  {
    && (lines == [] ==> g.nrows == 0 && g.ncols == 0 && g.buf.Length == 0)
    && (lines != [] ==>
      && !Ragged(lines)
      && g.nrows == |lines| && g.ncols == |lines[0]| > 0
      && g.buf[..] == Written(lines, |lines[0]|, f, zero, |lines|, 0)
      && (g.nrows == g.ncols ==>
        forall i: nat, j: nat :: i < g.nrows && j < g.ncols ==> g.At(i, j) == Some(f(i, j, lines[i][j]))))
  }

  /** The constructor's loop over the lines, checking each against the
      first line's length and writing every cell through idx. */
  method FromLines<T>(lines: seq<string>, f: (nat, nat, char) -> T, zero: T) returns (r: Result<Grid<T>>)
    requires forall k :: 0 <= k < |lines| ==> lines[k] != []
    ensures r == Err <==> lines != [] && (Ragged(lines) || |lines| > |lines[0]|)
    ensures r.Ok? ==> fresh(r.value) && fresh(r.value.buf) && r.value.Valid() && r.value.nrows <= r.value.ncols
    ensures r.Ok? ==> Shaped(r.value, lines, f, zero)
  {
    if lines == [] {
      var g := new Grid<T>.Sized(0, 0, zero);
      return Ok(g);
    }
    var g := new Grid<T>.Sized(|lines|, |lines[0]|, zero);
    var i := 0;
    while i < g.nrows
      invariant 0 <= i <= g.nrows == |lines| && g.ncols == |lines[0]| > 0
      invariant g.Valid() && fresh(g) && fresh(g.buf)
      invariant forall i' :: 0 <= i' < i ==> |lines[i']| == g.ncols
      invariant i > 0 ==> Slot(g.nrows, i - 1, g.ncols - 1) < g.nrows * g.ncols
      invariant g.buf[..] == Written(lines, g.ncols, f, zero, i, 0)
    {
      if |lines[i]| != g.ncols {
        return Err;
      }
      var ok := FillRow(g, lines, f, zero, i);
      if !ok {
        return Err;
      }
      i := i + 1;
    }
    if g.nrows > g.ncols {
      LastSlotOutside(g.nrows, g.ncols);
    }
    if g.nrows == g.ncols {
      var n := g.nrows;
      forall i: nat, j: nat | i < n && j < n
        ensures g.At(i, j) == Some(f(i, j, lines[i][j]))
      {
        WrittenSquare(lines, f, zero, n, 0, i, j);
      }
    }
    return Ok(g);
  }

  /** One row of the constructor's loop: writes the cells of line i through
      idx, and stops at the first slot outside the buffer, which only a grid
      taller than wide has. */
  method FillRow<T>(g: Grid<T>, lines: seq<string>, f: (nat, nat, char) -> T, zero: T, i: nat) returns (ok: bool)
    requires g.Valid() && i < g.nrows == |lines| && g.ncols == |lines[0]| > 0 && |lines[i]| == g.ncols
    requires g.buf[..] == Written(lines, g.ncols, f, zero, i, 0)
    modifies g.buf
    ensures !ok ==> g.nrows > g.ncols
    ensures ok ==> Slot(g.nrows, i, g.ncols - 1) < g.nrows * g.ncols
    ensures ok ==> g.buf[..] == Written(lines, g.ncols, f, zero, i + 1, 0)
  {
    var j := 0;
    while j < g.ncols
      invariant 0 <= j <= g.ncols
      invariant j > 0 ==> Slot(g.nrows, i, j - 1) < g.nrows * g.ncols
      invariant g.buf[..] == Written(lines, g.ncols, f, zero, i, j)
    {
      var p := g.Idx(i, j).value;
      if p >= g.buf.Length {
        return false;
      }
      g.buf[p] := f(i, j, lines[i][j]);
      j := j + 1;
    }
    return true;
  }
}
