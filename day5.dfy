/** Day 5 (src/day5.cpp): an inventory lists ranges of fresh ingredient ids,
    a blank line, then the ids of the available ingredients. Part 1 counts
    the available ingredients that fall in some range; part 2 merges the
    ranges and counts every id they cover. */
module Day5 {
  import opened Wrappers
  import opened Text
  import opened Decimal
  import opened Blocks

  /** An inclusive range of ingredient ids: a pair of size_t's. */
  datatype Range = Range(first: nat, second: nat)

  /** The CHECK of parse_input: a range does not end before it starts. */
  predicate AllValid(rs: seq<Range>) {
    forall k :: 0 <= k < |rs| ==> rs[k].first <= rs[k].second
  }

  /** The range on one line: the first two '-'-separated fields, read by
      stoull; fewer than two fields make fields.at(1) throw. */
  function ParseRange(line: string): (r: Result<Range>)
    ensures r.Ok? ==> |Split(line, '-', false)| >= 2
  {
    var fields := Split(line, '-', false);
    if |fields| < 2 then
      Err
    else
      var first :- Parse(fields[0]);
      var second :- Parse(fields[1]);
      Ok(Range(first, second))
  }

  /** The index of the first empty line, or the number of lines if there is none. */
  function FirstEmpty(lines: seq<string>): (b: nat)
    ensures b <= |lines|
    ensures forall k :: 0 <= k < b ==> lines[k] != []
    ensures b < |lines| ==> lines[b] == []
  {
    if lines == [] || lines[0] == [] then 0 else 1 + FirstEmpty(lines[1..])
  }

  /** What parse_input(input) returns: the ranges on the lines before the
      first empty line and the ids on the lines after it, or Err when a
      line does not parse or a range ends before it starts. */
  function ParseSpec(input: string): (r: Result<(seq<Range>, seq<nat>)>)
    ensures r.Ok? ==> AllValid(r.value.0)
  {
    var lines := Split(input, '\n', true);
    var b := FirstEmpty(lines);
    var ranges :- ParseAll(lines[..b], ParseRange);
    var ids :- ParseAll(lines[Min(b + 1, |lines|)..], Parse);
    if AllValid(ranges) then Ok((ranges, ids)) else Err
  }

  function Min(a: nat, b: nat): nat {
    if a <= b then a else b
  }

  function Max(a: nat, b: nat): (m: nat)
    ensures m >= a && m >= b && (m == a || m == b)
  {
    if a >= b then a else b
  }

  /** parse_input(input): the ranges, then the ids, then the CHECK that
      every range is well formed. */
  method ParseInput(input: string) returns (r: Result<(seq<Range>, seq<nat>)>)
    ensures r == ParseSpec(input)
  {
    var lines := SplitAt(input, '\n', true);
    var ranges, i := ReadUntilEmpty(lines, ParseRange);
    if ranges.Err? {
      return Err;
    }
    var ids := ReadRest(lines, i, Parse);
    if ids.Err? {
      return Err;
    }
    if !AllValid(ranges.value) {
      return Err;
    }
    return Ok((ranges.value, ids.value));
  }

  /** The first loop of parse_input: it parses each line up to the first
      empty one and stops just after that line. */
  method ReadUntilEmpty<T>(lines: seq<string>, parse: string -> Result<T>) returns (r: Result<seq<T>>, next: nat)
    ensures r == ParseAll(lines[..FirstEmpty(lines)], parse)
    ensures r.Ok? ==> next == Min(FirstEmpty(lines) + 1, |lines|)
  {
    ghost var b := FirstEmpty(lines);
    var xs: seq<T> := [];
    var i := 0;
    while i < |lines|
      invariant i <= b
      invariant ParseAll(lines[..i], parse) == Ok(xs)
    {
      if lines[i] == [] {
        i := i + 1;
        break;
      }
      assert i < b;
      var x := parse(lines[i]);
      if x.Err? {
        assert lines[..b][i] == lines[i];
        ParseAllFails(lines[..b], parse, i);
        return Err, i;
      }
      ParseAllStep(lines, parse, i, xs, x.value);
      xs := xs + [x.value];
      i := i + 1;
    }
    if i == b + 1 {
      assert lines[..b] == lines[..i - 1];
    } else {
      assert lines[..b] == lines[..i];
    }
    return Ok(xs), i;
  }

  /** The second loop of parse_input: it parses each remaining line. */
  method ReadRest<T>(lines: seq<string>, start: nat, parse: string -> Result<T>) returns (r: Result<seq<T>>)
    requires start <= |lines|
    ensures r == ParseAll(lines[start..], parse)
  {
    ghost var rest := lines[start..];
    var xs: seq<T> := [];
    var i := start;
    while i < |lines|
      invariant start <= i <= |lines|
      invariant ParseAll(rest[..i - start], parse) == Ok(xs)
    {
      var x := parse(lines[i]);
      assert rest[i - start] == lines[i];
      if x.Err? {
        ParseAllFails(rest, parse, i - start);
        return Err;
      }
      ParseAllStep(rest, parse, i - start, xs, x.value);
      xs := xs + [x.value];
      i := i + 1;
    }
    assert rest[..i - start] == rest;
    return Ok(xs);
  }

  /** The id lies in the range. */
  predicate Covers(r: Range, id: nat) {
    r.first <= id <= r.second
  }

  /** is_fresh(id, ranges): the any_of over the ranges, true exactly when
      one of them holds the id. */
  predicate IsFresh(id: nat, ranges: seq<Range>): (held: bool)
    ensures held <==> exists r :: r in ranges && Covers(r, id)
  {
    if ranges == [] then
      false
    else
      var init := ranges[..|ranges| - 1];
      assert ranges == init + [ranges[|ranges| - 1]];
      IsFresh(id, init) || Covers(ranges[|ranges| - 1], id)
  }

  lemma FreshSnoc(id: nat, ranges: seq<Range>, x: Range)
    ensures IsFresh(id, ranges + [x]) <==> IsFresh(id, ranges) || Covers(x, id)
  {
    assert (ranges + [x])[..|ranges|] == ranges;
  }

  /** The count_if of part_1: how many of the ids are fresh. */
  function CountFresh(ids: seq<nat>, ranges: seq<Range>): (n: nat)
    ensures n <= |ids|
  {
    if ids == [] then 0
    else CountFresh(ids[..|ids| - 1], ranges) + if IsFresh(ids[|ids| - 1], ranges) then 1 else 0
  }

  /** The positions of the fresh ids. */
  function FreshPositions(ids: seq<nat>, ranges: seq<Range>): set<nat> {
    set k: nat | k < |ids| && IsFresh(ids[k], ranges)
  }

  /** Part 1 counts the positions of the fresh ids. */
  lemma {:induction false} CountFreshIsSize(ids: seq<nat>, ranges: seq<Range>)
    ensures CountFresh(ids, ranges) == |FreshPositions(ids, ranges)|
  {
    if ids != [] {
      var n := |ids| - 1;
      CountFreshIsSize(ids[..n], ranges);
      var before := FreshPositions(ids[..n], ranges);
      assert before == set k: nat | k < n && IsFresh(ids[k], ranges);
      if IsFresh(ids[n], ranges) {
        assert FreshPositions(ids, ranges) == before + {n};
      } else {
        assert FreshPositions(ids, ranges) == before;
      }
    }
  }

  /** The result of part_1(input). */
  function Part1Spec(input: string): (r: Result<nat>)
    ensures r.Ok? <==> ParseSpec(input).Ok?
    ensures r.Ok? ==> r.value <= |ParseSpec(input).value.1|
  {
    var p :- ParseSpec(input);
    Ok(CountFresh(p.1, p.0))
  }

  method Part1(input: string) returns (r: Result<nat>)
    ensures r == Part1Spec(input)
  {
    var p := ParseInput(input);
    if p.Err? {
      return Err;
    }
    return Ok(CountFresh(p.value.1, p.value.0));
  }

  /** ranges_overlap(lhs, rhs): rhs starts no later than lhs ends. For a
      non-empty rhs that starts no earlier than lhs, as in a sorted list,
      this is exactly when some id lies in both. */
  predicate RangesOverlap(lhs: Range, rhs: Range): (overlap: bool)
    ensures lhs.first <= rhs.first <= rhs.second ==> (overlap <==> exists id: nat :: Covers(lhs, id) && Covers(rhs, id))
  {
    assert lhs.first <= rhs.first <= lhs.second ==> Covers(lhs, rhs.first);
    rhs.first <= lhs.second
  }

  /** The order of std::pair: by first element, then by second. */
  predicate LexLe(a: Range, b: Range) {
    a.first < b.first || (a.first == b.first && a.second <= b.second)
  }

  predicate Sorted(rs: seq<Range>) {
    forall a, b :: 0 <= a < b < |rs| ==> LexLe(rs[a], rs[b])
  }

  function Insert(x: Range, rs: seq<Range>): (out: seq<Range>)
    ensures |out| == |rs| + 1
  {
    if rs == [] then [x]
    else if LexLe(x, rs[0]) then [x] + rs
    else [rs[0]] + Insert(x, rs[1..])
  }

  /** The result of std::ranges::sort on a vector of ranges. */
  function SortRanges(rs: seq<Range>): (out: seq<Range>)
    ensures |out| == |rs|
  {
    if rs == [] then [] else Insert(rs[0], SortRanges(rs[1..]))
  }

  lemma {:induction false} InsertMultiset(x: Range, rs: seq<Range>)
    ensures multiset(Insert(x, rs)) == multiset(rs) + multiset{x}
  {
    if rs != [] && !LexLe(x, rs[0]) {
      InsertMultiset(x, rs[1..]);
      assert rs == [rs[0]] + rs[1..];
    }
  }

  lemma {:induction false} InsertSorted(x: Range, rs: seq<Range>)
    requires Sorted(rs)
    ensures Sorted(Insert(x, rs))
    ensures rs != [] ==> Insert(x, rs)[0] == x || Insert(x, rs)[0] == rs[0]
  {
    if rs != [] && !LexLe(x, rs[0]) {
      var tail := rs[1..];
      InsertSorted(x, tail);
      var t := Insert(x, tail);
      assert LexLe(rs[0], t[0]) by {
        if tail != [] {
          assert tail[0] == rs[1];
        }
      }
      var out := [rs[0]] + t;
      assert Insert(x, rs) == out;
      forall a, b | 0 <= a < b < |out|
        ensures LexLe(out[a], out[b])
      {
        assert out[b] == t[b - 1];
        if a > 0 {
          assert out[a] == t[a - 1];
        } else if b > 1 {
          assert LexLe(t[0], t[b - 1]);
        }
      }
    }
  }

  /** std::ranges::sort orders the ranges and keeps each one. */
  lemma {:induction false} SortRangesSorted(rs: seq<Range>)
    ensures Sorted(SortRanges(rs))
    ensures multiset(SortRanges(rs)) == multiset(rs)
  {
    if rs != [] {
      SortRangesSorted(rs[1..]);
      InsertSorted(rs[0], SortRanges(rs[1..]));
      InsertMultiset(rs[0], SortRanges(rs[1..]));
      assert rs == [rs[0]] + rs[1..];
    }
  }

  /** One step of the merging loop of deoverlap: the next range is folded
      into the last merged one when the two overlap, and appended otherwise. */
  function Absorb(merged: seq<Range>, x: Range): (out: seq<Range>)
    ensures |merged| <= |out| <= |merged| + 1
  {
    if merged != [] && RangesOverlap(merged[|merged| - 1], x) then
      var last := merged[|merged| - 1];
      merged[..|merged| - 1] + [Range(last.first, Max(last.second, x.second))]
    else
      merged + [x]
  }

  /** The ranges the merging loop leaves, folding the ranges in order. */
  function Merge(rs: seq<Range>): (out: seq<Range>)
    ensures |out| <= |rs|
    ensures rs != [] ==> out != []
  {
    if rs == [] then [] else Absorb(Merge(rs[..|rs| - 1]), rs[|rs| - 1])
  }

  /** What deoverlap(ranges) leaves in the vector. */
  function Deoverlapped(rs: seq<Range>): (out: seq<Range>)
    ensures |out| <= |rs|
  {
    Merge(SortRanges(rs))
  }

  lemma MergeSnoc(s: seq<Range>, k: nat)
    requires k < |s|
    ensures Merge(s[..k + 1]) == Absorb(Merge(s[..k]), s[k])
  {
    assert s[..k + 1][..k] == s[..k];
  }

  /** The state of the merging loop of deoverlap over the sorted ranges s:
      the first k of them are merged into r[..it + 1], the others are not
      touched yet. */
  ghost predicate MergeState(s: seq<Range>, k: nat, it: nat, r: seq<Range>) {
    1 <= k <= |s| && |Merge(s[..k])| == it + 1 && r == Merge(s[..k]) + s[k..]
  }

  /** Extending the current range and erasing the next one merges one more range. */
  lemma OverlapStep(s: seq<Range>, k: nat, it: nat, r: seq<Range>, r1: seq<Range>, r2: seq<Range>)
    requires MergeState(s, k, it, r) && k < |s|
    requires RangesOverlap(r[it], r[it + 1])
    requires r1 == r[it := Range(r[it].first, Max(r[it].second, r[it + 1].second))]
    requires r2 == r1[..it + 1] + r1[it + 2..]
    ensures MergeState(s, k + 1, it, r2)
  {
    MergeSnoc(s, k);
    var m := Merge(s[..k]);
    var y := Range(m[it].first, Max(m[it].second, s[k].second));
    ReplaceErase(m, s[k..], y);
    assert s[k..][0] == s[k] && s[k..][1..] == s[k + 1..];
  }

  /** Overwriting the last element of a prefix and erasing the element after it. */
  lemma ReplaceErase<T>(m: seq<T>, rest: seq<T>, y: T)
    requires m != [] && rest != []
    ensures var r1 := (m + rest)[|m| - 1 := y];
      r1[..|m|] + r1[|m| + 1..] == m[..|m| - 1] + [y] + rest[1..]
  {
    var r1 := (m + rest)[|m| - 1 := y];
    assert r1[..|m|] == m[..|m| - 1] + [y];
    assert r1[|m| + 1..] == rest[1..];
  }

  /** Stepping past a range that does not overlap its successor merges one
      more range. */
  lemma SeparateStep(s: seq<Range>, k: nat, it: nat, r: seq<Range>)
    requires MergeState(s, k, it, r) && k < |s|
    requires !RangesOverlap(r[it], r[it + 1])
    ensures MergeState(s, k + 1, it + 1, r)
  {
    MergeSnoc(s, k);
    var m := Merge(s[..k]);
    assert r[it] == m[it] && r[it + 1] == s[k];
    assert r == (m + [s[k]]) + s[k + 1..];
  }

  /** deoverlap(ranges): a vector of at most one range is left alone;
      otherwise the vector is sorted, and each range that overlaps the
      following one swallows it, which is erased. */
  method Deoverlap(ranges: seq<Range>) returns (r: seq<Range>)
    ensures r == Deoverlapped(ranges)
  {
    if |ranges| <= 1 {
      DeoverlapSmall(ranges);
      return ranges;
    }
    r := SortRanges(ranges);
    ghost var s := r;
    var it := 0;
    ghost var k := 1;
    assert s[..1][..0] == [];
    while it < |r| - 1
      invariant MergeState(s, k, it, r)
      decreases |s| - k
    {
      if RangesOverlap(r[it], r[it + 1]) {
        ghost var r0 := r;
        r := r[it := Range(r[it].first, Max(r[it].second, r[it + 1].second))];
        ghost var r1 := r;
        r := r[..it + 1] + r[it + 2..];
        OverlapStep(s, k, it, r0, r1, r);
      } else {
        SeparateStep(s, k, it, r);
        it := it + 1;
      }
      k := k + 1;
    }
    assert s[..k] == s;
  }

  /** A vector of at most one range is already deoverlapped. */
  lemma DeoverlapSmall(rs: seq<Range>)
    requires |rs| <= 1
    ensures Deoverlapped(rs) == rs
  {
    if |rs| == 1 {
      assert rs[1..] == [];
      assert SortRanges(rs) == rs;
      assert SortRanges(rs)[..0] == [];
    }
  }

  /** Each merged range ends before the next starts. */
  predicate Separated(rs: seq<Range>) {
    forall k :: 0 <= k < |rs| - 1 ==> rs[k].second < rs[k + 1].first
  }

  /** The merged ranges are separated, whatever order they come in. */
  lemma {:induction false} MergeSeparated(rs: seq<Range>)
    ensures Separated(Merge(rs))
  {
    if rs != [] {
      var m := Merge(rs[..|rs| - 1]);
      MergeSeparated(rs[..|rs| - 1]);
      var x := rs[|rs| - 1];
      if m != [] && RangesOverlap(m[|m| - 1], x) {
        var out := Merge(rs);
        assert forall k :: 0 <= k < |out| - 1 ==> out[k] == m[k];
        assert |out| == |m| && out[|m| - 1].first == m[|m| - 1].first;
      }
    }
  }

  /** Each range starts no earlier than the one before. */
  predicate StartsAscending(rs: seq<Range>) {
    forall k :: 0 <= k < |rs| - 1 ==> rs[k].first <= rs[k + 1].first
  }

  lemma StartsAscendingInit(rs: seq<Range>)
    requires StartsAscending(rs) && rs != []
    ensures StartsAscending(rs[..|rs| - 1])
  {
    var init := rs[..|rs| - 1];
    forall k | 0 <= k < |init| - 1
      ensures init[k].first <= init[k + 1].first
    {
      assert init[k] == rs[k] && init[k + 1] == rs[k + 1];
    }
  }

  /** With the starts ascending, the last merged range starts no later than
      the last range. */
  lemma {:induction false} MergeLastStart(rs: seq<Range>)
    requires StartsAscending(rs) && rs != []
    ensures Merge(rs)[|Merge(rs)| - 1].first <= rs[|rs| - 1].first
  {
    var init := rs[..|rs| - 1];
    if init != [] {
      StartsAscendingInit(rs);
      MergeLastStart(init);
      assert init[|init| - 1] == rs[|rs| - 2];
    }
  }

  /** Folding a range in adds exactly the ids of that range, when it starts
      no earlier than the last merged range. */
  lemma AbsorbCovers(m: seq<Range>, x: Range, id: nat)
    requires m != [] ==> m[|m| - 1].first <= x.first
    ensures IsFresh(id, Absorb(m, x)) <==> IsFresh(id, m) || Covers(x, id)
  {
    if m != [] && RangesOverlap(m[|m| - 1], x) {
      var init := m[..|m| - 1];
      var last := m[|m| - 1];
      var y := Range(last.first, Max(last.second, x.second));
      FreshSnoc(id, init, y);
      FreshSnoc(id, init, last);
      assert m == init + [last];
      assert Covers(y, id) <==> Covers(last, id) || Covers(x, id);
    } else {
      FreshSnoc(id, m, x);
    }
  }

  /** Merging ranges whose starts ascend keeps the same ids fresh. */
  lemma {:induction false} MergeCovers(rs: seq<Range>, id: nat)
    requires StartsAscending(rs)
    ensures IsFresh(id, Merge(rs)) <==> IsFresh(id, rs)
  {
    if rs != [] {
      var init := rs[..|rs| - 1];
      var x := rs[|rs| - 1];
      StartsAscendingInit(rs);
      MergeCovers(init, id);
      if init != [] {
        MergeLastStart(init);
        assert init[|init| - 1] == rs[|rs| - 2];
      }
      AbsorbCovers(Merge(init), x, id);
    }
  }

  /** Merging keeps every range well formed. */
  lemma {:induction false} MergeValid(rs: seq<Range>)
    requires AllValid(rs)
    ensures AllValid(Merge(rs))
  {
    if rs != [] {
      MergeValid(rs[..|rs| - 1]);
    }
  }

  /** What deoverlap promises: the ranges end up separated and, when well
      formed, strictly ascending; they are never more numerous; and they
      hold exactly the same ids. */
  lemma DeoverlapProperties(rs: seq<Range>)
    ensures Separated(Deoverlapped(rs))
    ensures |Deoverlapped(rs)| <= |rs|
    ensures forall id: nat :: IsFresh(id, Deoverlapped(rs)) <==> IsFresh(id, rs)
    ensures AllValid(rs) ==> AllValid(Deoverlapped(rs)) && Ascending(Deoverlapped(rs))
  {
    var s := SortRanges(rs);
    SortRangesSorted(rs);
    assert StartsAscending(s) by {
      forall k | 0 <= k < |s| - 1
        ensures s[k].first <= s[k + 1].first
      {
        assert LexLe(s[k], s[k + 1]);
      }
    }
    MergeSeparated(s);
    forall id: nat
      ensures IsFresh(id, Deoverlapped(rs)) <==> IsFresh(id, rs)
    {
      MergeCovers(s, id);
      SameMembersFresh(s, rs, id);
    }
    if AllValid(rs) {
      forall k | 0 <= k < |s|
        ensures s[k].first <= s[k].second
      {
        assert s[k] in multiset(rs);
      }
      MergeValid(s);
      SeparatedAscending(Deoverlapped(rs));
    }
  }

  lemma SameMembersFresh(s: seq<Range>, t: seq<Range>, id: nat)
    requires multiset(s) == multiset(t)
    ensures IsFresh(id, s) <==> IsFresh(id, t)
  {
    if IsFresh(id, s) {
      var r :| r in s && Covers(r, id);
      assert r in multiset(t);
    }
    if IsFresh(id, t) {
      var r :| r in t && Covers(r, id);
      assert r in multiset(s);
    }
  }

  /** Every range ends before every later range starts. */
  predicate Ascending(rs: seq<Range>) {
    forall a, b :: 0 <= a < b < |rs| ==> rs[a].second < rs[b].first
  }

  lemma {:induction false} SeparatedAscending(rs: seq<Range>)
    requires AllValid(rs) && Separated(rs)
    ensures Ascending(rs)
  {
    if rs != [] {
      var init := rs[..|rs| - 1];
      SeparatedAscending(init);
      forall a, b | 0 <= a < b < |rs|
        ensures rs[a].second < rs[b].first
      {
        if b == |rs| - 1 && a < b - 1 {
          assert rs[a] == init[a] && rs[b - 1] == init[b - 1];
        }
      }
    }
  }

  /** The ids of a range. */
  function Span(r: Range): (ids: set<nat>)
    ensures forall id: nat :: id in ids <==> Covers(r, id)
  {
    set id: nat | r.first <= id <= r.second && Covers(r, id)
  }

  /** A range holds second - first + 1 ids. */
  lemma {:induction false} SpanSize(r: Range)
    requires r.first <= r.second
    ensures |Span(r)| == r.second - r.first + 1
    decreases r.second - r.first
  {
    if r.first < r.second {
      var shorter := Range(r.first, r.second - 1);
      SpanSize(shorter);
      assert Span(r) == Span(shorter) + {r.second};
    } else {
      assert Span(r) == {r.first};
    }
  }

  /** Every id some range holds. */
  function Covered(rs: seq<Range>): (ids: set<nat>)
    ensures forall id: nat :: id in ids <==> IsFresh(id, rs)
  {
    if rs == [] then
      {}
    else
      var init := rs[..|rs| - 1];
      assert rs == init + [rs[|rs| - 1]];
      Covered(init) + Span(rs[|rs| - 1])
  }

  /** The summand of the accumulate of part_2. */
  function Width(r: Range): int {
    r.second - r.first + 1
  }

  /** The accumulate of part_2 over the ranges. */
  function SumWidths(rs: seq<Range>): int {
    if rs == [] then 0 else SumWidths(rs[..|rs| - 1]) + Width(rs[|rs| - 1])
  }

  /** For well-formed ascending ranges, the ids they hold are below the end
      of the last one. */
  lemma {:induction false} CoveredBelow(rs: seq<Range>, id: nat)
    requires rs != [] && AllValid(rs) && Ascending(rs)
    requires id in Covered(rs)
    ensures id <= rs[|rs| - 1].second
  {
    var r :| r in rs && Covers(r, id);
    var k :| 0 <= k < |rs| && rs[k] == r;
    if k < |rs| - 1 {
      assert rs[k].second < rs[|rs| - 1].first;
    }
  }

  /** For well-formed ascending ranges, the widths add up to the number of
      ids covered. */
  lemma {:induction false} WidthsCount(rs: seq<Range>)
    requires AllValid(rs) && Ascending(rs)
    ensures SumWidths(rs) == |Covered(rs)|
  {
    if rs != [] {
      var init := rs[..|rs| - 1];
      var last := rs[|rs| - 1];
      WidthsCount(init);
      SpanSize(last);
      if init != [] {
        forall id | id in Covered(init)
          ensures id !in Span(last)
        {
          CoveredBelow(init, id);
          assert init[|init| - 1] == rs[|rs| - 2];
        }
      }
      assert Covered(init) * Span(last) == {};
    }
  }

  /** The result of part_2(input). */
  function Part2Spec(input: string): (r: Result<int>)
    ensures r.Ok? <==> ParseSpec(input).Ok?
  {
    var p :- ParseSpec(input);
    Ok(SumWidths(Deoverlapped(p.0)))
  }

  method Part2(input: string) returns (r: Result<int>)
    ensures r == Part2Spec(input)
  {
    var p := ParseInput(input);
    if p.Err? {
      return Err;
    }
    var ranges := Deoverlap(p.value.0);
    return Ok(SumWidths(ranges));
  }

  /** Part 2 counts the distinct fresh ids: each id of the original ranges
      once, however many ranges hold it. */
  lemma Part2Counts(input: string)
    requires ParseSpec(input).Ok?
    ensures Part2Spec(input) == Ok(|Covered(ParseSpec(input).value.0)|)
  {
    var rs := ParseSpec(input).value.0;
    DeoverlapProperties(rs);
    WidthsCount(Deoverlapped(rs));
    assert Covered(Deoverlapped(rs)) == Covered(rs);
  }

  /** Merging leaves part 1 unchanged: an id is fresh for the merged ranges
      exactly when it is fresh for the original ones. */
  lemma {:induction false} CountFreshDeoverlapped(ids: seq<nat>, rs: seq<Range>)
    ensures CountFresh(ids, Deoverlapped(rs)) == CountFresh(ids, rs)
  {
    if ids != [] {
      CountFreshDeoverlapped(ids[..|ids| - 1], rs);
      DeoverlapProperties(rs);
    }
  }

  /** The text of a range on its line. */
  function RangeText(r: Range): (s: string)
    ensures s != [] && '\n' !in s
  {
    ToDecimal(r.first) + "-" + ToDecimal(r.second)
  }

  lemma DigitsNoDelimiter(s: string, d: char)
    requires AllDigits(s) && !IsDigit(d)
    ensures d !in s
  {
    assert forall t :: 0 <= t < |s| ==> s[t] != d;
  }

  /** A range line reads back as the range. */
  lemma RangeTextRoundTrip(r: Range)
    ensures ParseRange(RangeText(r)) == Ok(r)
  {
    var a, b := ToDecimal(r.first), ToDecimal(r.second);
    DigitsNoDelimiter(a, '-');
    DigitsNoDelimiter(b, '-');
    assert RangeText(r) == Join([a, b], '-');
    SplitOfJoin([a, b], '-', false);
  }

  /** The text of an inventory: one line per range, an empty line, one line
      per id, every line ending in a newline. */
  function InputText(rs: seq<Range>, ids: seq<nat>): string {
    var rangeLines := seq(|rs|, k requires 0 <= k < |rs| => RangeText(rs[k]));
    var idLines := seq(|ids|, k requires 0 <= k < |ids| => ToDecimal(ids[k]));
    Join(rangeLines + [""] + idLines, '\n') + "\n"
  }

  /** parse_input reads back the text of every inventory whose ranges are
      well formed. */
  lemma ParseInputText(rs: seq<Range>, ids: seq<nat>)
    requires AllValid(rs)
    ensures ParseSpec(InputText(rs, ids)) == Ok((rs, ids))
  {
    var rangeLines := seq(|rs|, k requires 0 <= k < |rs| => RangeText(rs[k]));
    var idLines := seq(|ids|, k requires 0 <= k < |ids| => ToDecimal(ids[k]));
    var lines := rangeLines + [""] + idLines;
    forall k | 0 <= k < |lines|
      ensures '\n' !in lines[k]
    {
      if k > |rs| {
        DigitsNoDelimiter(idLines[k - |rs| - 1], '\n');
      }
    }
    FieldsOfTerminated(lines, '\n');
    assert FirstEmpty(lines) == |rs| by {
      FirstEmptyAt(lines, |rs|);
    }
    assert lines[..|rs|] == rangeLines;
    assert lines[|rs| + 1..] == idLines;
    forall k | 0 <= k < |rs|
      ensures ParseRange(rangeLines[k]) == Ok(rs[k])
    {
      RangeTextRoundTrip(rs[k]);
    }
    ParseAllOk(rangeLines, ParseRange, rs);
    ParseAllOk(idLines, Parse, ids);
  }

  /** The first empty line is the empty line that only non-empty lines precede. */
  lemma {:induction false} FirstEmptyAt(lines: seq<string>, b: nat)
    requires b < |lines| && lines[b] == []
    requires forall k :: 0 <= k < b ==> lines[k] != []
    ensures FirstEmpty(lines) == b
  {
    if b > 0 {
      assert forall k :: 0 <= k < b - 1 ==> lines[1..][k] == lines[k + 1];
      FirstEmptyAt(lines[1..], b - 1);
    }
  }

  /** The inventory of tests(). */
  const SampleRanges: seq<Range> := [Range(3, 5), Range(10, 14), Range(16, 20), Range(12, 18)]
  const SampleIds: seq<nat> := [1, 5, 8, 11, 17, 32]

  /** The sample reads back as its ranges and ids, and its first range is 3-5. */
  lemma SampleParses(input: string)
    requires input == InputText(SampleRanges, SampleIds)
    ensures ParseSpec(input) == Ok((SampleRanges, SampleIds))
    ensures |SampleRanges| == 4 && SampleRanges[0] == Range(3, 5)
  {
    ParseInputText(SampleRanges, SampleIds);
  }

  /** The freshness checks of tests(): 5, 11 and 17 are fresh, 1, 8 and 32
      are not, which makes three fresh ingredients. */
  lemma SampleFresh()
    ensures !IsFresh(1, SampleRanges) && IsFresh(5, SampleRanges) && !IsFresh(8, SampleRanges)
    ensures IsFresh(11, SampleRanges) && IsFresh(17, SampleRanges) && !IsFresh(32, SampleRanges)
    ensures CountFresh(SampleIds, SampleRanges) == 3
  {
    var rs := SampleRanges;
    assert rs[0] in rs && Covers(rs[0], 5);
    assert rs[1] in rs && Covers(rs[1], 11);
    assert rs[2] in rs && Covers(rs[2], 17);
    var ids := SampleIds;
    assert ids[..1][..0] == [];
    assert CountFresh(ids[..1], rs) == 0;
    assert ids[..2][..1] == ids[..1];
    assert CountFresh(ids[..2], rs) == 1;
    assert ids[..3][..2] == ids[..2];
    assert CountFresh(ids[..3], rs) == 1;
    assert ids[..4][..3] == ids[..3];
    assert CountFresh(ids[..4], rs) == 2;
    assert ids[..5][..4] == ids[..4];
    assert CountFresh(ids[..5], rs) == 3;
    assert ids[..5] == ids[..|ids| - 1];
  }

  /** The overlap checks and merge results of tests(): the sample merges
      into 3-5 and 10-20, which hold 14 ids. */
  lemma SampleMerge()
    ensures RangesOverlap(Range(10, 14), Range(12, 18))
    ensures RangesOverlap(Range(10, 18), Range(16, 20))
    ensures Deoverlapped(SampleRanges) == [Range(3, 5), Range(10, 20)]
    ensures SumWidths(Deoverlapped(SampleRanges)) == 14
  {
    var a, b, c, d := Range(3, 5), Range(10, 14), Range(16, 20), Range(12, 18);
    assert [d][1..] == [];
    assert SortRanges([d]) == [d];
    assert [c, d][1..] == [d];
    assert Insert(c, [d]) == [d] + Insert(c, []);
    assert SortRanges([c, d]) == [d, c];
    assert [b, c, d][1..] == [c, d];
    assert SortRanges([b, c, d]) == [b, d, c];
    assert SampleRanges[1..] == [b, c, d];
    assert SortRanges(SampleRanges) == [a, b, d, c];
    var sorted := [a, b, d, c];
    assert sorted[..1][..0] == [];
    assert Merge(sorted[..1]) == [a];
    assert sorted[..2][..1] == sorted[..1];
    assert Merge(sorted[..2]) == [a, b];
    assert sorted[..3][..2] == sorted[..2];
    assert Merge(sorted[..3]) == [a, Range(10, 18)];
    assert sorted[..4][..3] == sorted[..3];
    assert sorted[..4] == sorted;
    var merged := [a, Range(10, 20)];
    assert merged[..1][..0] == [];
    assert merged[..1] == merged[..|merged| - 1];
  }

  /** The second merge of tests(): 1-10, 3-5 and 2-11 merge into 1-11. */
  lemma SampleMergeNested()
    ensures Deoverlapped([Range(1, 10), Range(3, 5), Range(2, 11)]) == [Range(1, 11)]
  {
    var a, b, c := Range(1, 10), Range(3, 5), Range(2, 11);
    assert [c][1..] == [];
    assert SortRanges([c]) == [c];
    assert [b, c][1..] == [c];
    assert Insert(b, [c]) == [c] + Insert(b, []);
    assert SortRanges([b, c]) == [c, b];
    assert [a, b, c][1..] == [b, c];
    assert SortRanges([a, b, c]) == [a, c, b];
    var sorted := [a, c, b];
    assert sorted[..1][..0] == [];
    assert Merge(sorted[..1]) == [a];
    assert sorted[..2][..1] == sorted[..1];
    assert Merge(sorted[..2]) == [Range(1, 11)];
    assert sorted[..3][..2] == sorted[..2];
    assert sorted[..3] == sorted;
  }

  /** On the sample, part 1 gives 3 and part 2 gives 14. */
  lemma SampleAnswers(input: string)
    requires input == InputText(SampleRanges, SampleIds)
    ensures Part1Spec(input) == Ok(3)
    ensures Part2Spec(input) == Ok(14)
  {
    SampleParses(input);
    SampleFresh();
    SampleMerge();
  }
}
