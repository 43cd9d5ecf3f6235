/** Day 2 (src/day2.cpp): the "invalid" ids of a range are the numbers in it
    whose decimal form is one block of digits repeated. Part 1 allows exactly
    two repetitions, part 2 any number from two up to the length of the
    range's upper end. Each part sums the invalid ids of every range of a
    comma-separated list of "start-end" entries. */
module Day2 {
  import opened Wrappers
  import opened Text
  import opened Decimal
  import opened Totals

  /** `s` written `n` times in a row. */
  function Repeat(s: string, n: nat): string {
    if n == 0 then [] else Repeat(s, n - 1) + s
  }

  lemma {:induction false} RepeatLength(s: string, n: nat)
    ensures |Repeat(s, n)| == n * |s|
  {
    if n > 0 {
      RepeatLength(s, n - 1);
      MulSucc(n - 1, |s|);
    }
  }

  lemma MulSucc(a: nat, b: nat)
    ensures (a + 1) * b == a * b + b
  {
  }

  lemma {:induction false} MulLeft(a: nat, b: nat, c: nat)
    requires a <= b
    ensures c * a <= c * b
  {
    if c > 0 {
      MulLeft(a, b, c - 1);
      MulSucc(c - 1, a);
      MulSucc(c - 1, b);
    }
  }

  lemma MulStrict(a: nat, b: nat, c: nat)
    requires a < b && c >= 1
    ensures a * c < b * c
  {
    MulLeft(a + 1, b, c);
    MulSucc(a, c);
    assert c * (a + 1) == (a + 1) * c;
    assert c * b == b * c;
  }

  lemma Distrib(w: nat, v: nat, u: nat, p: nat)
    requires w == v * u
    ensures w * p + v == v * (u * p + 1)
  {
    assert (v * u) * p == v * (u * p);
  }

  /** generate_invalid(s, n): the CHECK refuses fewer than two copies. */
  method GenerateInvalid(s: string, n: nat) returns (r: Result<string>)
    ensures n < 2 ==> r == Err
    ensures n >= 2 ==> r == Ok(Repeat(s, n))
  {
    if n < 2 {
      return Err;
    }
    var inv := s;
    assert Repeat(s, 1) == [] + s;
    var i := 1;
    while i < n
      invariant 1 <= i <= n
      invariant inv == Repeat(s, i)
    {
      inv := inv + s;
      i := i + 1;
    }
    return Ok(inv);
  }

  lemma {:induction false} RepeatDigits(s: string, n: nat)
    requires AllDigits(s)
    ensures AllDigits(Repeat(s, n))
  {
    if n > 0 {
      RepeatDigits(s, n - 1);
    }
  }

  lemma {:induction false} RepeatHead(s: string, n: nat)
    requires s != [] && n >= 1
    ensures Repeat(s, n)[0] == s[0]
  {
    if n > 1 {
      RepeatHead(s, n - 1);
    }
  }

  /** 1, then 1 followed by L - 1 zeros and a 1, and so on: the multiplier
      that writes an L-digit block i times. */
  function RepUnit(L: nat, i: nat): (u: nat)
    ensures i >= 1 ==> u >= 1
  {
    if i == 0 then 0 else RepUnit(L, i - 1) * Pow10(L) + 1
  }

  lemma {:induction false} ValueRepeat(s: string, n: nat)
    requires AllDigits(s)
    ensures AllDigits(Repeat(s, n))
    ensures Value(Repeat(s, n)) == Value(s) * RepUnit(|s|, n)
  {
    RepeatDigits(s, n);
    if n == 0 {
      return;
    }
    var r := Repeat(s, n - 1);
    assert Repeat(s, n) == r + s;
    ValueRepeat(s, n - 1);
    ValueConcat(r, s);
    Distrib(Value(r), Value(s), RepUnit(|s|, n - 1), Pow10(|s|));
  }


  /** The number of decimal digits of j. */
  function NumDigits(j: nat): (n: nat)
    ensures n >= 1
  {
    if j < 10 then 1 else 1 + NumDigits(j / 10)
  }

  lemma {:induction false} ToDecimalLength(j: nat)
    ensures |ToDecimal(j)| == NumDigits(j)
  {
    if j >= 10 {
      ToDecimalLength(j / 10);
    }
  }

  lemma {:induction false} NumDigitsMono(j: nat, j': nat)
    requires j <= j'
    ensures NumDigits(j) <= NumDigits(j')
  {
    if j >= 10 {
      NumDigitsMono(j / 10, j' / 10);
    }
  }

  /** The number whose decimal form is the block j written i times. */
  function Candidate(j: nat, i: nat): nat {
    j * RepUnit(NumDigits(j), i)
  }

  /** stoll(generate_invalid(to_string(j), i)) is Candidate(j, i). */
  lemma ParseCandidate(j: nat, i: nat)
    requires i >= 1
    ensures Parse(Repeat(ToDecimal(j), i)) == Ok(Candidate(j, i))
  {
    var s := ToDecimal(j);
    ValueRepeat(s, i);
    ToDecimalLength(j);
    RepeatDigits(s, i);
    RepeatHead(s, i);
  }

  lemma CandidateAtLeast(j: nat, i: nat)
    requires i >= 1
    ensures Candidate(j, i) >= j
  {
    MulLeft(1, RepUnit(NumDigits(j), i), j);
  }

  lemma {:induction false} Pow10Mono(a: nat, b: nat)
    requires a <= b
    ensures Pow10(a) <= Pow10(b)
    decreases b - a
  {
    if a < b {
      Pow10Mono(a, b - 1);
    }
  }

  lemma LeadingDigit(s: string)
    requires AllDigits(s) && s != [] && s[0] != '0'
    ensures Value(s) >= Pow10(|s| - 1)
  {
    ValueCons(s);
    assert DigitOf(s[0]) >= 1;
    MulLeft(1, DigitOf(s[0]), Pow10(|s| - 1));
    assert Pow10(|s| - 1) * DigitOf(s[0]) == DigitOf(s[0]) * Pow10(|s| - 1);
  }

  lemma ToDecimalLead(j: nat)
    requires j >= 1
    ensures ToDecimal(j)[0] != '0'
  {
    var s := ToDecimal(j);
    if |s| == 1 {
      assert s[..0] == [];
      assert Value(s) == DigitOf(s[0]);
    }
  }

  /** The candidates of one repetition count grow with the block. */
  lemma CandidateMono(j: nat, j': nat, i: nat)
    requires 1 <= j < j' && i >= 1
    ensures Candidate(j, i) < Candidate(j', i)
  {
    NumDigitsMono(j, j');
    if NumDigits(j) == NumDigits(j') {
      MulStrict(j, j', RepUnit(NumDigits(j), i));
    } else {
      CandidateBelowLonger(j, j', i);
    }
  }

  lemma CandidateBelowLonger(j: nat, j': nat, i: nat)
    requires 1 <= j < j' && i >= 1 && NumDigits(j) < NumDigits(j')
    ensures Candidate(j, i) < Candidate(j', i)
  {
    var s, s' := ToDecimal(j), ToDecimal(j');
    ToDecimalLength(j);
    ToDecimalLength(j');
    var L, L' := |s|, |s'|;
    assert Candidate(j, i) < Pow10(i * L) by {
      ValueRepeat(s, i);
      RepeatLength(s, i);
      ValueBound(Repeat(s, i));
    }
    assert Candidate(j', i) >= Pow10(i * L' - 1) by {
      ValueRepeat(s', i);
      RepeatLength(s', i);
      ToDecimalLead(j');
      RepeatHead(s', i);
      LeadingDigit(Repeat(s', i));
    }
    assert i * L < i * L' by {
      MulLeft(L + 1, L', i);
      MulSucc(L, i);
      assert (L + 1) * i == i * (L + 1) && L' * i == i * L';
    }
    Pow10Mono(i * L, i * L' - 1);
  }


  /** The candidates of `i` repetitions, for blocks 1 to J in that order,
      that lie in [lo, hi]. */
  function Cands(lo: nat, hi: nat, i: nat, J: nat): seq<nat> {
    if J == 0 then
      []
    else
      var c := Candidate(J, i);
      Cands(lo, hi, i, J - 1) + if lo <= c <= hi then [c] else []
  }

  /** Past the first candidate above hi there is nothing more to take: the
      inner loop's `break`. */
  lemma {:induction false} CandsAbove(lo: nat, hi: nat, i: nat, a: nat, J: nat)
    requires 1 <= a <= J + 1 && i >= 1
    requires Candidate(a, i) > hi
    ensures Cands(lo, hi, i, J) == Cands(lo, hi, i, a - 1)
    decreases J
  {
    if J >= a {
      CandsAbove(lo, hi, i, a, J - 1);
      if J > a {
        CandidateMono(a, J, i);
      }
    }
  }

  /** Below the first candidate that is at least lo there is nothing. */
  lemma {:induction false} CandsBelow(lo: nat, hi: nat, i: nat, J: nat)
    requires i >= 1
    requires J == 0 || Candidate(J, i) < lo
    ensures Cands(lo, hi, i, J) == []
  {
    if J > 1 {
      CandidateMono(J - 1, J, i);
      CandsBelow(lo, hi, i, J - 1);
    }
  }

  /** All rounds from 2 to I repetitions, one after the other; each round
      tries the blocks 1 to hi. */
  function Rows(lo: nat, hi: nat, I: nat): seq<nat> {
    if I < 2 then [] else Rows(lo, hi, I - 1) + Cands(lo, hi, I, hi)
  }

  lemma {:induction false} CandsMembers(lo: nat, hi: nat, i: nat, J: nat, x: nat)
    ensures x in Cands(lo, hi, i, J) <==> exists j :: 1 <= j <= J && x == Candidate(j, i) && lo <= x <= hi
  {
    if J > 0 {
      CandsMembers(lo, hi, i, J - 1, x);
    }
  }

  lemma {:induction false} RowsMembers(lo: nat, hi: nat, I: nat, x: nat)
    ensures x in Rows(lo, hi, I) <==> exists i, j :: 2 <= i <= I && 1 <= j <= hi && x == Candidate(j, i) && lo <= x <= hi
  {
    if I >= 2 {
      RowsMembers(lo, hi, I - 1, x);
      CandsMembers(lo, hi, I, hi, x);
      if x in Rows(lo, hi, I) {
        if x in Cands(lo, hi, I, hi) {
          var j :| 1 <= j <= hi && x == Candidate(j, I) && lo <= x <= hi;
          assert 2 <= I <= I;
        }
      }
      if exists i, j :: 2 <= i <= I && 1 <= j <= hi && x == Candidate(j, i) && lo <= x <= hi {
        var i, j :| 2 <= i <= I && 1 <= j <= hi && x == Candidate(j, i) && lo <= x <= hi;
        if i == I {
          assert x in Cands(lo, hi, I, hi);
        } else {
          assert x in Rows(lo, hi, I - 1);
        }
      }
    }
  }

  predicate Distinct(xs: seq<nat>) {
    forall a, b :: 0 <= a < b < |xs| ==> xs[a] != xs[b]
  }

  /** The values of xs, each kept at its first occurrence. */
  function Dedup(xs: seq<nat>): seq<nat> {
    if xs == [] then
      []
    else
      var ys := Dedup(xs[..|xs| - 1]);
      var x := xs[|xs| - 1];
      if x in ys then ys else ys + [x]
  }

  lemma {:induction false} DedupMembers(xs: seq<nat>)
    ensures forall x :: x in Dedup(xs) <==> x in xs
  {
    if xs != [] {
      DedupMembers(xs[..|xs| - 1]);
      assert xs == xs[..|xs| - 1] + [xs[|xs| - 1]];
    }
  }

  lemma {:induction false} DedupDistinct(xs: seq<nat>)
    ensures Distinct(Dedup(xs))
  {
    if xs != [] {
      DedupDistinct(xs[..|xs| - 1]);
    }
  }

  /** The invalid ids of [lo, hi] with 2 to I repetitions, in the order the
      loops find them. */
  function Invalids(lo: nat, hi: nat, I: nat): seq<nat> {
    Dedup(Rows(lo, hi, I))
  }

  /** The ids found are exactly the repeated blocks in range. */
  lemma InvalidsMembers(lo: nat, hi: nat, I: nat, x: nat)
    ensures x in Invalids(lo, hi, I) <==>
      lo <= x <= hi && exists i, j :: 2 <= i <= I && 1 <= j && x == Candidate(j, i)
  {
    if lo <= x <= hi && exists i, j :: 2 <= i <= I && 1 <= j && x == Candidate(j, i) {
      var i, j :| 2 <= i <= I && 1 <= j && x == Candidate(j, i);
      CandidateAtLeast(j, i);
    }
    RowsMembers(lo, hi, I, x);
    DedupMembers(Rows(lo, hi, I));
  }

  lemma InvalidsDistinct(lo: nat, hi: nat, I: nat)
    ensures Distinct(Invalids(lo, hi, I))
  {
    DedupDistinct(Rows(lo, hi, I));
  }

  /** The largest repetition count: two when `single`, else the length of
      the text of the upper end. */
  function MaxRepeats(end: string, single: bool): nat {
    if single then 2 else |end|
  }

  lemma CandsStep(lo: nat, hi: nat, i: nat, j: nat)
    requires j >= 1
    ensures lo <= Candidate(j, i) <= hi ==> Cands(lo, hi, i, j) == Cands(lo, hi, i, j - 1) + [Candidate(j, i)]
    ensures !(lo <= Candidate(j, i) <= hi) ==> Cands(lo, hi, i, j) == Cands(lo, hi, i, j - 1)
  {
    assert Cands(lo, hi, i, j - 1) + [] == Cands(lo, hi, i, j - 1);
  }

  lemma AppendStep(a: seq<nat>, b: seq<nat>, b': seq<nat>, c: nat)
    requires b' == b + [c]
    ensures a + b' == (a + b) + [c]
  {
  }

  lemma DedupSnoc(xs: seq<nat>, x: nat)
    ensures Dedup(xs + [x]) == if x in Dedup(xs) then Dedup(xs) else Dedup(xs) + [x]
  {
    assert (xs + [x])[..|xs|] == xs;
  }

  /** What generate_all_invalids(start, end, single) returns; the conversion
      of either end may fail. */
  function AllInvalids(start: string, end: string, single: bool): Result<seq<nat>> {
    var lo :- Parse(start);
    var hi :- Parse(end);
    Ok(Invalids(lo, hi, MaxRepeats(end, single)))
  }

  /** generate_all_invalids(start, end, single). */
  method GenerateAllInvalids(start: string, end: string, single: bool) returns (r: Result<seq<nat>>)
    ensures r == AllInvalids(start, end, single)
  {
    var pstart := Parse(start);
    if pstart.Err? {
      return Err;
    }
    var pend := Parse(end);
    if pend.Err? {
      return Err;
    }
    var lo, hi := pstart.value, pend.value;
    var maxI := if single then 2 else |end|;
    var invalids: seq<nat> := [];
    var i := 2;
    while i <= maxI
      invariant 2 <= i && (i <= maxI + 1 || i == 2)
      invariant invalids == Dedup(Rows(lo, hi, i - 1))
    {
      invalids := Round(lo, hi, i, Rows(lo, hi, i - 1), invalids);
      i := i + 1;
    }
    return Ok(invalids);
  }

  /** stoll(generate_invalid(to_string(j), i)) inside the inner loop. */
  method MakeCandidate(j: nat, i: nat) returns (cand: nat)
    requires i >= 2
    ensures cand == Candidate(j, i)
  {
    var inv := GenerateInvalid(ToDecimal(j), i);
    ParseCandidate(j, i);
    cand := Parse(inv.value).value;
  }

  /** One pass of the inner loop of generate_all_invalids: the blocks
      j = 1, 2, ... repeated i times, skipping candidates below lo, stopping
      at the first one above hi, and appending the others unless already
      found. `seen` is every candidate kept by the earlier passes. */
  method Round(lo: nat, hi: nat, i: nat, ghost seen: seq<nat>, invalids: seq<nat>) returns (invalids': seq<nat>)
    requires i >= 2
    requires invalids == Dedup(seen)
    ensures invalids' == Dedup(seen + Cands(lo, hi, i, hi))
  {
    invalids' := invalids;
    var j := 1;
    assert seen + Cands(lo, hi, i, 0) == seen;
    while j <= hi
      invariant 1 <= j <= hi + 1
      invariant invalids' == Dedup(seen + Cands(lo, hi, i, j - 1))
    {
      var stop;
      invalids', stop := Block(lo, hi, i, j, seen, invalids');
      if stop {
        break;
      }
      j := j + 1;
    }
  }

  /** The body of the inner loop for block j: skip a candidate below lo,
      stop at one above hi (`stop`), and otherwise append it unless it was
      already found. */
  method Block(lo: nat, hi: nat, i: nat, j: nat, ghost seen: seq<nat>, invalids: seq<nat>)
    returns (invalids': seq<nat>, stop: bool)
    requires i >= 2 && 1 <= j <= hi
    requires invalids == Dedup(seen + Cands(lo, hi, i, j - 1))
    ensures stop ==> invalids' == Dedup(seen + Cands(lo, hi, i, hi))
    ensures !stop ==> invalids' == Dedup(seen + Cands(lo, hi, i, j))
  {
    var cand := MakeCandidate(j, i);
    RoundStep(lo, hi, i, j, seen, invalids);
    invalids', stop := invalids, false;
    if cand < lo {
      return;
    }
    if cand > hi {
      CandsAbove(lo, hi, i, j, hi);
      return invalids, true;
    }
    if cand !in invalids {
      invalids' := invalids + [cand];
    }
  }

  /** What one block does to the ids kept so far. */
  lemma RoundStep(lo: nat, hi: nat, i: nat, j: nat, seen: seq<nat>, invalids: seq<nat>)
    requires j >= 1 && invalids == Dedup(seen + Cands(lo, hi, i, j - 1))
    ensures Candidate(j, i) < lo ==> Dedup(seen + Cands(lo, hi, i, j)) == invalids
    ensures lo <= Candidate(j, i) <= hi ==>
      Dedup(seen + Cands(lo, hi, i, j)) == if Candidate(j, i) in invalids then invalids else invalids + [Candidate(j, i)]
  {
    var c := Candidate(j, i);
    var all := seen + Cands(lo, hi, i, j - 1);
    CandsStep(lo, hi, i, j);
    DedupSnoc(all, c);
    if lo <= c <= hi {
      AppendStep(seen, Cands(lo, hi, i, j - 1), Cands(lo, hi, i, j), c);
    }
  }

  /** sum_all_invalids(range, single). */
  function SumAllInvalids(range: (string, string), single: bool): (r: Result<nat>)
    ensures r.Ok? <==> Parse(range.0).Ok? && Parse(range.1).Ok?
    ensures r.Ok? ==> r.value == SumOf(AllInvalids(range.0, range.1, single).value)
  {
    var xs :- AllInvalids(range.0, range.1, single);
    Ok(SumOf(xs))
  }

  /** to_range(entry): the entry must split on '-' into exactly two pieces. */
  function ToRange(entry: string): (r: Result<(string, string)>)
    ensures r.Ok? <==> |Split(entry, '-', false)| == 2
    ensures r.Ok? ==> r.value.0 != [] && r.value.1 != [] && '-' !in r.value.0 && '-' !in r.value.1
  {
    var v := Split(entry, '-', false);
    if |v| == 2 then
      assert v[0] in v && v[1] in v;
      Ok((v[0], v[1]))
    else
      Err
  }

  /** to_range undoes writing a range as "start-end". */
  lemma ToRangeRoundTrip(a: string, b: string)
    requires a != [] && b != [] && '-' !in a && '-' !in b
    ensures ToRange(a + "-" + b) == Ok((a, b))
  {
    assert Join([a, b], '-') == Join([a], '-') + ['-'] + b;
    SplitOfJoin([a, b], '-', false);
  }

  /** One entry's share of a part: it fails when the entry is not a range of
      two numbers, and is otherwise the sum of the range's invalid ids. */
  function EntrySum(entry: string, single: bool): (r: Result<nat>)
    ensures r.Ok? <==> ToRange(entry).Ok? && Parse(ToRange(entry).value.0).Ok? && Parse(ToRange(entry).value.1).Ok?
    ensures r.Ok? ==> r.value == SumOf(AllInvalids(ToRange(entry).value.0, ToRange(entry).value.1, single).value)
  {
    var range :- ToRange(entry);
    SumAllInvalids(range, single)
  }

  /** The shares of the entries. */
  function Shares(entries: seq<string>, single: bool): (rs: seq<Result<nat>>)
    ensures |rs| == |entries| && forall k :: 0 <= k < |entries| ==> rs[k] == EntrySum(entries[k], single)
  {
    seq(|entries|, k requires 0 <= k < |entries| => EntrySum(entries[k], single))
  }

  /** The total of the entries' shares, when none of them fails. */
  function ShareTotal(es: seq<string>, single: bool): nat
    requires forall k :: 0 <= k < |es| ==> EntrySum(es[k], single).Ok?
  {
    SumOf(seq(|es|, k requires 0 <= k < |es| => EntrySum(es[k], single).value))
  }

  /** part_1(input) and part_2(input), with `single` true and false: the
      comma-separated entries' shares, failing exactly when one of them
      fails, and otherwise their total. */
  function Part(input: string, single: bool): (r: Result<nat>)
    ensures var es := Split(input, ',', false);
      r.Err? <==> exists k :: 0 <= k < |es| && EntrySum(es[k], single).Err?
    ensures var es := Split(input, ',', false);
      r.Ok? ==> r.value == ShareTotal(es, single)
  {
    var es := Split(input, ',', false);
    SharesTotal(es, single);
    SumResults(Shares(es, single))
  }

  /** The shares' total fails exactly when one share does, and is otherwise
      the sum of the shares. */
  lemma SharesTotal(es: seq<string>, single: bool)
    ensures SumResults(Shares(es, single)).Err? <==> exists k :: 0 <= k < |es| && EntrySum(es[k], single).Err?
    ensures SumResults(Shares(es, single)).Ok? ==>
      (forall k :: 0 <= k < |es| ==> EntrySum(es[k], single).Ok?) &&
      SumResults(Shares(es, single)).value == ShareTotal(es, single)
  {
    var rs := Shares(es, single);
    SumResultsFails(rs);
    if SumResults(rs).Ok? {
      assert seq(|rs|, k requires 0 <= k < |rs| => rs[k].value) == seq(|es|, k requires 0 <= k < |es| => EntrySum(es[k], single).value);
    }
  }

  /** part_1(input): the total over the entries of the ids that are one
      half repeated twice. */
  function Part1(input: string): (r: Result<nat>)
    ensures var es := Split(input, ',', false);
      r.Err? <==> exists k :: 0 <= k < |es| && EntrySum(es[k], true).Err?
    ensures var es := Split(input, ',', false);
      r.Ok? ==> r.value == ShareTotal(es, true)
  {
    Part(input, true)
  }

  /** part_2(input): the total over the entries of the ids that are a block
      repeated at least twice. */
  function Part2(input: string): (r: Result<nat>)
    ensures var es := Split(input, ',', false);
      r.Err? <==> exists k :: 0 <= k < |es| && EntrySum(es[k], false).Err?
    ensures var es := Split(input, ',', false);
      r.Ok? ==> r.value == ShareTotal(es, false)
  {
    Part(input, false)
  }

  /** The copies of tests(). */
  lemma RepeatExamples()
    ensures Repeat("1", 2) == "11" && Repeat("9", 3) == "999" && Repeat("2", 6) == "222222"
  {
  }

  lemma RepUnitExamples()
    ensures RepUnit(1, 2) == 11 && RepUnit(1, 3) == 111 && RepUnit(1, 4) == 1111
    ensures RepUnit(2, 2) == 101 && RepUnit(2, 3) == 10101
  {
  }

  lemma {:induction false} DedupOfDistinct(xs: seq<nat>)
    requires Distinct(xs)
    ensures Dedup(xs) == xs
  {
    if xs != [] {
      var init := xs[..|xs| - 1];
      DedupOfDistinct(init);
      DedupMembers(init);
      assert xs == init + [xs[|xs| - 1]];
    }
  }

  lemma CandsExample1()
    ensures Cands(11, 22, 2, 22) == [11, 22]
  {
    RepUnitExamples();
    assert Candidate(3, 2) == 33;
    CandsAbove(11, 22, 2, 3, 22);
    assert Candidate(1, 2) == 11 && Candidate(2, 2) == 22;
    assert Cands(11, 22, 2, 2) == [11, 22];
  }

  lemma InvalidsExample1()
    ensures Invalids(11, 22, 2) == [11, 22]
  {
    CandsExample1();
    SeqPairs(11, 22);
    RowsStep(11, 22, 2, [], [11, 22]);
    DedupPair(11, 22);
  }

  lemma CandsExample2a()
    ensures Cands(95, 115, 2, 115) == [99]
  {
    RepUnitExamples();
    NumDigitsExamples();
    assert Candidate(10, 2) == 1010 && Candidate(9, 2) == 99 && Candidate(8, 2) == 88;
    CandsAbove(95, 115, 2, 10, 115);
    CandsBelow(95, 115, 2, 8);
  }

  lemma CandsExample2b()
    ensures Cands(95, 115, 3, 115) == [111]
  {
    RepUnitExamples();
    NumDigitsExamples();
    assert Candidate(2, 3) == 222 && Candidate(1, 3) == 111;
    CandsAbove(95, 115, 3, 2, 115);
    assert Cands(95, 115, 3, 0) == [];
  }

  lemma RowsExample2()
    ensures Rows(95, 115, 3) == [99, 111]
  {
    CandsExample2a();
    CandsExample2b();
    SeqPairs(99, 111);
    RowsStep(95, 115, 2, [], [99]);
    RowsStep(95, 115, 3, [99], [111]);
  }

  lemma InvalidsExample2()
    ensures Invalids(95, 115, 3) == [99, 111]
  {
    RowsExample2();
    DedupPair(99, 111);
  }

  /** One more round of repetitions appends its candidates. */
  lemma RowsStep(lo: nat, hi: nat, I: nat, prev: seq<nat>, row: seq<nat>)
    requires I >= 2 && Rows(lo, hi, I - 1) == prev && Cands(lo, hi, I, hi) == row
    ensures Rows(lo, hi, I) == prev + row
  {
  }

  /** Concatenations of the short lists the examples build. */
  lemma SeqPairs(a: nat, b: nat)
    ensures [] + [a] == [a] && [] + [a, b] == [a, b]
    ensures [a] + [b] == [a, b] && [a, b] + [] == [a, b]
  {
  }

  lemma DedupPair(a: nat, b: nat)
    requires a != b
    ensures Dedup([a, b]) == [a, b]
  {
    assert [a, b][..1] == [a];
    assert [a][..0] == [];
    assert Dedup([a]) == [] + [a] == [a];
    assert [a] + [b] == [a, b];
  }

  lemma CandsExample3a()
    ensures Cands(998, 1012, 2, 1012) == [1010]
  {
    RepUnitExamples();
    NumDigitsExamples();
    assert Candidate(11, 2) == 1111 && Candidate(10, 2) == 1010 && Candidate(9, 2) == 99;
    CandsAbove(998, 1012, 2, 11, 1012);
    CandsBelow(998, 1012, 2, 9);
  }

  lemma CandsExample3b()
    ensures Cands(998, 1012, 3, 1012) == [999]
  {
    RepUnitExamples();
    NumDigitsExamples();
    assert Candidate(10, 3) == 101010 && Candidate(9, 3) == 999 && Candidate(8, 3) == 888;
    CandsAbove(998, 1012, 3, 10, 1012);
    CandsBelow(998, 1012, 3, 8);
  }

  lemma CandsExample3c()
    ensures Cands(998, 1012, 4, 1012) == []
  {
    RepUnitExamples();
    NumDigitsExamples();
    assert Candidate(1, 4) == 1111;
    CandsAbove(998, 1012, 4, 1, 1012);
  }

  lemma RowsExample3()
    ensures Rows(998, 1012, 4) == [1010, 999]
  {
    CandsExample3a();
    CandsExample3b();
    CandsExample3c();
    SeqPairs(1010, 999);
    RowsStep(998, 1012, 2, [], [1010]);
    RowsStep(998, 1012, 3, [1010], [999]);
    RowsStep(998, 1012, 4, [1010, 999], []);
  }

  lemma InvalidsExample3()
    ensures Invalids(998, 1012, 4) == [1010, 999]
  {
    RowsExample3();
    DedupPair(1010, 999);
  }

  /** The ranges of tests(): generate_all_invalids("11", "22") is 11, 22;
      with any number of copies "95"-"115" gives 99, 111 and "998"-"1012"
      gives 1010 before 999, because the two-copy round comes first. */
  lemma AllInvalidsExample1()
    ensures AllInvalids("11", "22", true) == Ok([11, 22])
  {
    ParseLiteral("11", 2, 11);
    ParseLiteral("22", 2, 22);
    InvalidsExample1();
  }

  /** A single id is already free of repeats. */
  lemma DedupSingle(a: nat)
    ensures Dedup([a]) == [a]
  {
    assert [a][..0] == [];
    assert [] + [a] == [a];
  }

  /** With two copies only, "95"-"115" gives 99 and "998"-"1012" gives 1010. */
  lemma AllInvalidsSingle2()
    ensures AllInvalids("95", "115", true) == Ok([99])
  {
    ParseLiteral("95", 2, 95);
    ParseLiteral("115", 3, 115);
    CandsExample2a();
    SeqPairs(99, 99);
    RowsStep(95, 115, 2, [], [99]);
    DedupSingle(99);
  }

  lemma AllInvalidsSingle3()
    ensures AllInvalids("998", "1012", true) == Ok([1010])
  {
    ParseLiteral("998", 3, 998);
    ParseLiteral("1012", 4, 1012);
    CandsExample3a();
    SeqPairs(1010, 1010);
    RowsStep(998, 1012, 2, [], [1010]);
    DedupSingle(1010);
  }

  lemma AllInvalidsExample2()
    ensures AllInvalids("95", "115", false) == Ok([99, 111])
  {
    ParseLiteral("95", 2, 95);
    ParseLiteral("115", 3, 115);
    InvalidsExample2();
  }

  lemma AllInvalidsExample3()
    ensures AllInvalids("998", "1012", false) == Ok([1010, 999])
  {
    ParseLiteral("998", 3, 998);
    ParseLiteral("1012", 4, 1012);
    InvalidsExample3();
  }

  lemma NumDigitsExamples()
    ensures NumDigits(1) == 1 && NumDigits(8) == 1 && NumDigits(9) == 1
    ensures NumDigits(10) == 2 && NumDigits(11) == 2
  {
  }

  /** to_range("11-22") and sum_all_invalids of tests(). */
  lemma RangeExample()
    ensures ToRange("11-22") == Ok(("11", "22"))
    ensures SumAllInvalids(("11", "22"), true) == Ok(33)
  {
    ToRangeRoundTrip("11", "22");
    assert "11" + "-" + "22" == "11-22";
    AllInvalidsExample1();
    assert SumOf([11, 22]) == 33 by {
      assert [11, 22][..1] == [11];
      assert [11][..0] == [];
    }
  }
}
