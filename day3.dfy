/** Day 3 (src/day3.cpp): the largest joltage a bank of batteries can give.

    A bank is a line of digits. Turning on k batteries reads their digits,
    in bank order, as a k-digit number. `maximum_joltage` turns on two and
    `overmaximum_joltage` twelve; both pick, for each position in turn, the
    first largest digit that still leaves room for the remaining ones. */
module Day3 {
  import opened Wrappers
  import opened Text
  import opened Decimal
  import opened Totals

  /** How many batteries part 2 turns on (`nmax`). */
  const Twelve := 12

  /** std::ranges::max_element(s[lo..hi]): the first position holding the
      largest character of a non-empty range. */
  function FirstMax(s: string, lo: nat, hi: nat): (k: nat)
    requires lo < hi <= |s|
    ensures lo <= k < hi
    decreases hi - lo
  {
    if hi - lo == 1 then lo
    else
      var k := FirstMax(s, lo, hi - 1);
      if s[k] < s[hi - 1] then hi - 1 else k
  }

  /** max_element finds a largest character of the range, and the first one. */
  lemma {:induction false} FirstMaxSpec(s: string, lo: nat, hi: nat)
    requires lo < hi <= |s|
    ensures forall t :: lo <= t < hi ==> s[t] <= s[FirstMax(s, lo, hi)]
    ensures forall t :: lo <= t < FirstMax(s, lo, hi) ==> s[t] < s[FirstMax(s, lo, hi)]
    decreases hi - lo
  {
    if hi - lo > 1 {
      FirstMaxSpec(s, lo, hi - 1);
    }
  }

  /** The positions the greedy choice turns on, picking `k` batteries from
      position `start` onwards: each pick is the first largest digit among
      those that leave enough batteries after it for the remaining picks. */
  function Picks(s: string, start: nat, k: nat): (ps: seq<nat>)
    requires start + k <= |s|
    ensures |ps| == k
    ensures forall t :: 0 <= t < |ps| ==> start <= ps[t] < |s|
    decreases k
  {
    if k == 0 then []
    else
      var p := FirstMax(s, start, |s| - k + 1);
      [p] + Picks(s, p + 1, k - 1)
  }

  /** The digits at the given positions, in order. */
  function Sub(s: string, ps: seq<nat>): (r: string)
    requires forall t :: 0 <= t < |ps| ==> ps[t] < |s|
    ensures |r| == |ps|
  {
    if ps == [] then [] else [s[ps[0]]] + Sub(s, ps[1..])
  }

  lemma {:induction false} SubIndex(s: string, ps: seq<nat>)
    requires forall t :: 0 <= t < |ps| ==> ps[t] < |s|
    ensures forall t :: 0 <= t < |ps| ==> Sub(s, ps)[t] == s[ps[t]]
    decreases |ps|
  {
    if ps != [] {
      SubIndex(s, ps[1..]);
    }
  }

  /** The digits the greedy choice turns on, in order. */
  function Chosen(s: string, start: nat, k: nat): (c: string)
    requires start + k <= |s|
    ensures |c| == k
    decreases k
  {
    if k == 0 then []
    else
      var p := FirstMax(s, start, |s| - k + 1);
      [s[p]] + Chosen(s, p + 1, k - 1)
  }

  /** Strictly increasing positions, all in [lo, hi): a way of turning on
      |q| batteries of the bank. */
  predicate Ascending(q: seq<nat>, lo: nat, hi: nat) {
    && (forall t :: 0 <= t < |q| ==> lo <= q[t] < hi)
    && (forall a, b :: 0 <= a < b < |q| ==> q[a] < q[b])
  }

  /** maximum_joltage(bank): the first largest digit that is not the last
      one, followed by the first largest digit after it, read as a number.
      On a bank of digits this is the largest two-digit number that a digit
      and a later digit form. Banks shorter than two digits make the source
      read past the end. */
  function MaximumJoltage(bank: string): (joltage: Result<nat>)
    requires |bank| >= 2
    ensures AllDigits(bank) ==> joltage.Ok?
    ensures AllDigits(bank) ==> exists i, j :: 0 <= i < j < |bank| && joltage.value == 10 * DigitOf(bank[i]) + DigitOf(bank[j])
    ensures AllDigits(bank) ==> forall i, j :: 0 <= i < j < |bank| ==> 10 * DigitOf(bank[i]) + DigitOf(bank[j]) <= joltage.value
  {
    var l := FirstMax(bank, 0, |bank| - 1);
    var r := FirstMax(bank, l + 1, |bank|);
    if AllDigits(bank) then
      PairValue(bank, l, r);
      PairsBelow(bank, l, r);
      Parse([bank[l], bank[r]])
    else
      Parse([bank[l], bank[r]])
  }

  /** overmaximum_joltage(bank), as a function of the bank. */
  function Overmax(bank: string): Result<nat> {
    if |bank| < Twelve then Err else Parse(Chosen(bank, 0, Twelve))
  }

  /** overmaximum_joltage(bank): fails the size CHECK on a bank of fewer than
      twelve batteries, and otherwise reads the twelve greedy picks. */
  method OvermaximumJoltage(bank: string) returns (r: Result<nat>)
    ensures r == Overmax(bank)
  {
    if |bank| < Twelve {
      return Err;
    }
    var chosen := ChooseGreedy(bank, Twelve);
    r := Parse(chosen);
  }

  /** The picking loop of overmaximum_joltage, for `nmax` picks: each round
      searches the window from just after the previous pick up to the last
      position that leaves room for the remaining picks. */
  method ChooseGreedy(bank: string, nmax: nat) returns (chosen: string)
    requires nmax <= |bank|
    ensures chosen == Chosen(bank, 0, nmax)
  {
    chosen := [];
    var start: nat := 0;
    var i := 0;
    while i < nmax
      invariant 0 <= i <= nmax
      invariant start + (nmax - i) <= |bank|
      invariant chosen + Chosen(bank, start, nmax - i) == Chosen(bank, 0, nmax)
    {
      var end := |bank| - nmax + i + 1;
      // FirstMax requires start < end: the CHECK(end > start) never fails
      var pick := FirstMax(bank, start, end);
      ChosenStep(chosen, bank, start, nmax - i, end, pick);
      chosen := chosen + [bank[pick]];
      start := pick + 1;
      i := i + 1;
    }
    assert chosen + [] == chosen;
  }

  /** One round of the greedy choice, appended to what was chosen before. */
  lemma ChosenStep(prefix: string, s: string, start: nat, k: nat, end: nat, p: nat)
    requires start + k <= |s| && k > 0 && end == |s| - k + 1 && p == FirstMax(s, start, end)
    ensures prefix + Chosen(s, start, k) == (prefix + [s[p]]) + Chosen(s, p + 1, k - 1)
  {
    ChosenUnfold(s, start, k, end, p);
  }

  lemma ChosenUnfold(s: string, start: nat, k: nat, end: nat, p: nat)
    requires start + k <= |s| && k > 0 && end == |s| - k + 1 && p == FirstMax(s, start, end)
    ensures Chosen(s, start, k) == [s[p]] + Chosen(s, p + 1, k - 1)
  {
  }

  /** The greedy digits are the digits at the greedy positions. */
  lemma {:induction false} ChosenPicks(s: string, start: nat, k: nat)
    requires start + k <= |s|
    ensures Chosen(s, start, k) == Sub(s, Picks(s, start, k))
    decreases k
  {
    if k > 0 {
      var p := FirstMax(s, start, |s| - k + 1);
      var rest := Picks(s, p + 1, k - 1);
      ChosenPicks(s, p + 1, k - 1);
      PicksUnfold(s, start, k, p);
      assert ([p] + rest)[1..] == rest;
    }
  }

  lemma PicksUnfold(s: string, start: nat, k: nat, p: nat)
    requires 1 <= k && start + k <= |s| && p == FirstMax(s, start, |s| - k + 1)
    ensures Picks(s, start, k) == [p] + Picks(s, p + 1, k - 1)
  {
  }

  /** The digits at any positions of a bank of digits are digits. */
  lemma {:induction false} SubDigits(s: string, ps: seq<nat>)
    requires AllDigits(s) && forall t :: 0 <= t < |ps| ==> ps[t] < |s|
    ensures AllDigits(Sub(s, ps))
    decreases |ps|
  {
    if ps != [] {
      SubDigits(s, ps[1..]);
    }
  }

  lemma {:induction false} ChosenDigits(s: string, start: nat, k: nat)
    requires AllDigits(s) && start + k <= |s|
    ensures AllDigits(Chosen(s, start, k))
    decreases k
  {
    if k > 0 {
      var p := FirstMax(s, start, |s| - k + 1);
      ChosenDigits(s, p + 1, k - 1);
    }
  }

  /** An ascending choice of positions leaves room after its first one. */
  lemma {:induction false} AscendingRoom(q: seq<nat>, lo: nat, hi: nat)
    requires Ascending(q, lo, hi) && |q| >= 1
    ensures q[0] + |q| <= hi
    decreases |q|
  {
    if |q| > 1 {
      AscendingRoom(q[1..], q[0] + 1, hi);
    }
  }

  /** The greedy picks are themselves a valid choice. */
  lemma {:induction false} PicksAscending(s: string, start: nat, k: nat)
    requires start + k <= |s|
    ensures Ascending(Picks(s, start, k), start, |s|)
    decreases k
  {
    if k > 0 {
      var p := FirstMax(s, start, |s| - k + 1);
      PicksAscending(s, p + 1, k - 1);
    }
  }

  /** Pick t of the greedy choice leaves the k - 1 - t later picks room. */
  lemma {:induction false} PicksWindow(s: string, start: nat, k: nat)
    requires start + k <= |s|
    ensures forall t :: 0 <= t < k ==> Picks(s, start, k)[t] <= |s| - k + t
    decreases k
  {
    if k == 0 {
      return;
    }
    var p := FirstMax(s, start, |s| - k + 1);
    var rest := Picks(s, p + 1, k - 1);
    PicksWindow(s, p + 1, k - 1);
    PicksUnfold(s, start, k, p);
    forall t | 0 <= t < k
      ensures Picks(s, start, k)[t] <= |s| - k + t
    {
      if t > 0 {
        assert ([p] + rest)[t] == rest[t - 1];
      }
    }
  }

  /** Of two digit strings of one length, the one with the larger first digit
      is the larger number. */
  lemma LeadingDigitLess(a: string, b: string)
    requires |a| == |b| >= 1 && AllDigits(a) && AllDigits(b)
    requires DigitOf(a[0]) < DigitOf(b[0])
    ensures Value(a) < Value(b)
  {
    ValueCons(a);
    ValueCons(b);
    ValueBound(a[1..]);
    MulGap(DigitOf(a[0]), DigitOf(b[0]), Pow10(|a| - 1));
  }

  lemma {:induction false} MulGap(x: nat, y: nat, p: nat)
    requires x < y
    ensures x * p + p <= y * p
    decreases y
  {
    if y > x + 1 {
      MulGap(x, y - 1, p);
      assert y * p == (y - 1) * p + p;
    } else {
      assert y * p == x * p + p;
    }
  }

  /** Of two digit strings of one length with the same first digit, the one
      with the larger rest is the larger number. */
  lemma SameLeadingDigit(a: string, b: string)
    requires |a| == |b| >= 1 && AllDigits(a) && AllDigits(b)
    requires a[0] == b[0] && Value(a[1..]) <= Value(b[1..])
    ensures Value(a) <= Value(b)
  {
    ValueCons(a);
    ValueCons(b);
  }

  /** No choice of k batteries from `start` on beats the greedy one. */
  lemma {:induction false} GreedyBest(s: string, start: nat, k: nat, q: seq<nat>)
    requires AllDigits(s) && start + k <= |s|
    requires |q| == k && Ascending(q, start, |s|)
    ensures AllDigits(Sub(s, q)) && AllDigits(Chosen(s, start, k))
    ensures Value(Sub(s, q)) <= Value(Chosen(s, start, k))
    decreases k, 1
  {
    SubDigits(s, q);
    ChosenDigits(s, start, k);
    if k == 0 {
      return;
    }
    var end := |s| - k + 1;
    var p := FirstMax(s, start, end);
    var g, c := Chosen(s, start, k), Sub(s, q);
    assert q[0] < end by {
      AscendingRoom(q, start, |s|);
    }
    ChosenUnfold(s, start, k, end, p);
    assert g[0] == s[p] && c[0] == s[q[0]];
    if s[q[0]] < s[p] {
      LeadingDigitLess(c, g);
    } else {
      GreedyBestTie(s, start, k, q, end, p);
    }
  }

  /** GreedyBest when the first battery of q has the greedy pick's digit. */
  lemma {:induction false} GreedyBestTie(s: string, start: nat, k: nat, q: seq<nat>, end: nat, p: nat)
    requires AllDigits(s) && start + k <= |s| && k > 0
    requires |q| == k && Ascending(q, start, |s|) && q[0] < end
    requires end == |s| - k + 1 && p == FirstMax(s, start, end) && s[p] <= s[q[0]]
    ensures AllDigits(Sub(s, q)) && AllDigits(Chosen(s, start, k))
    ensures Value(Sub(s, q)) <= Value(Chosen(s, start, k))
    decreases k, 0
  {
    SubDigits(s, q);
    ChosenDigits(s, start, k);
    assert s[q[0]] == s[p] && q[0] >= p by {
      FirstMaxSpec(s, start, end);
    }
    AscendingTail(q, start, |s|, p);
    GreedyBest(s, p + 1, k - 1, q[1..]);
    TieCompare(s, start, k, q, end, p);
  }

  /** Two choices that start with the same digit compare as their rests. */
  lemma TieCompare(s: string, start: nat, k: nat, q: seq<nat>, end: nat, p: nat)
    requires AllDigits(s) && start + k <= |s| && k > 0
    requires |q| == k && Ascending(q, start, |s|)
    requires end == |s| - k + 1 && p == FirstMax(s, start, end) && s[p] == s[q[0]]
    requires AllDigits(Sub(s, q[1..])) && AllDigits(Chosen(s, p + 1, k - 1))
    requires Value(Sub(s, q[1..])) <= Value(Chosen(s, p + 1, k - 1))
    ensures AllDigits(Sub(s, q)) && AllDigits(Chosen(s, start, k))
    ensures Value(Sub(s, q)) <= Value(Chosen(s, start, k))
  {
    SubDigits(s, q);
    ChosenDigits(s, start, k);
    var g, c := Chosen(s, start, k), Sub(s, q);
    ChosenUnfold(s, start, k, end, p);
    assert g[0] == c[0] && g[1..] == Chosen(s, p + 1, k - 1) && c[1..] == Sub(s, q[1..]);
    SameLeadingDigit(c, g);
  }

  /** Dropping the first of ascending positions that start at p or later
      leaves positions after p. */
  lemma AscendingTail(q: seq<nat>, lo: nat, hi: nat, p: nat)
    requires Ascending(q, lo, hi) && |q| >= 1 && q[0] >= p
    ensures Ascending(q[1..], p + 1, hi)
  {
    assert forall t :: 0 <= t < |q| - 1 ==> q[1..][t] == q[t + 1] && q[0] < q[t + 1];
  }

  /** The greedy choice of two batteries is maximum_joltage's pair. */
  lemma ChosenTwo(bank: string, l: nat, r: nat)
    requires |bank| >= 2 && l == FirstMax(bank, 0, |bank| - 1)
    requires r == FirstMax(bank, l + 1, |bank|)
    ensures Chosen(bank, 0, 2) == [bank[l], bank[r]]
  {
    var n := |bank|;
    ChosenUnfold(bank, 0, 2, n - 1, l);
    ChosenUnfold(bank, l + 1, 1, n, r);
    assert Chosen(bank, r + 1, 0) == [];
  }

  /** maximum_joltage reads its pair as a two-digit number. */
  lemma PairValue(bank: string, l: nat, r: nat)
    requires |bank| >= 2 && AllDigits(bank) && l == FirstMax(bank, 0, |bank| - 1)
    requires r == FirstMax(bank, l + 1, |bank|)
    ensures Parse([bank[l], bank[r]]) == Ok(10 * DigitOf(bank[l]) + DigitOf(bank[r]))
  {
    var c := [bank[l], bank[r]];
    assert AllDigits(c) by {
      assert IsDigit(bank[l]) && IsDigit(bank[r]);
    }
    TwoDigits(c);
  }

  /** Turning on batteries i < j gives no more than maximum_joltage's pair. */
  lemma PairBelow(bank: string, l: nat, r: nat, i: nat, j: nat)
    requires |bank| >= 2 && AllDigits(bank) && l == FirstMax(bank, 0, |bank| - 1)
    requires r == FirstMax(bank, l + 1, |bank|) && i < j < |bank|
    ensures 10 * DigitOf(bank[i]) + DigitOf(bank[j]) <= 10 * DigitOf(bank[l]) + DigitOf(bank[r])
  {
    var q: seq<nat> := [i, j];
    assert Ascending(q, 0, |bank|);
    GreedyBest(bank, 0, 2, q);
    SubPairValue(bank, i, j);
    ChosenPairValue(bank, l, r);
  }

  /** The value of the batteries i and j, in that order. */
  lemma SubPairValue(bank: string, i: nat, j: nat)
    requires AllDigits(bank) && i < |bank| && j < |bank|
    ensures AllDigits(Sub(bank, [i, j]))
    ensures Value(Sub(bank, [i, j])) == 10 * DigitOf(bank[i]) + DigitOf(bank[j])
  {
    SubPair(bank, i, j);
    assert AllDigits([bank[i], bank[j]]) by {
      assert IsDigit(bank[i]) && IsDigit(bank[j]);
    }
    TwoDigits([bank[i], bank[j]]);
  }

  /** The value of the greedy pair. */
  lemma ChosenPairValue(bank: string, l: nat, r: nat)
    requires |bank| >= 2 && AllDigits(bank) && l == FirstMax(bank, 0, |bank| - 1)
    requires r == FirstMax(bank, l + 1, |bank|)
    ensures Value(Chosen(bank, 0, 2)) == 10 * DigitOf(bank[l]) + DigitOf(bank[r])
  {
    ChosenTwo(bank, l, r);
    assert AllDigits([bank[l], bank[r]]) by {
      assert IsDigit(bank[l]) && IsDigit(bank[r]);
    }
    TwoDigits([bank[l], bank[r]]);
  }

  lemma SubPair(s: string, i: nat, j: nat)
    requires i < |s| && j < |s|
    ensures Sub(s, [i, j]) == [s[i], s[j]]
  {
    assert [i, j][1..] == [j];
    assert [j][1..] == [];
  }

  /** No two batteries i < j give more than maximum_joltage's pair. */
  lemma PairsBelow(bank: string, l: nat, r: nat)
    requires |bank| >= 2 && AllDigits(bank) && l == FirstMax(bank, 0, |bank| - 1)
    requires r == FirstMax(bank, l + 1, |bank|)
    ensures forall i, j :: 0 <= i < j < |bank| ==>
      10 * DigitOf(bank[i]) + DigitOf(bank[j]) <= 10 * DigitOf(bank[l]) + DigitOf(bank[r])
  {
    forall i, j | 0 <= i < j < |bank|
      ensures 10 * DigitOf(bank[i]) + DigitOf(bank[j]) <= 10 * DigitOf(bank[l]) + DigitOf(bank[r])
    {
      PairBelow(bank, l, r, i, j);
    }
  }

  lemma TwoDigits(s: string)
    requires |s| == 2 && AllDigits(s)
    ensures Value(s) == 10 * DigitOf(s[0]) + DigitOf(s[1])
  {
    var a := s[..1];
    assert a[..0] == [];
    assert Value(a) == DigitOf(s[0]);
  }

  /** The greedy choice of k batteries reads the digits at k ascending
      positions, pick t at most |bank| - k + t, and no other choice of k
      batteries gives a larger number. */
  lemma ChosenBest(bank: string, k: nat)
    requires k <= |bank| && AllDigits(bank)
    ensures var ps := Picks(bank, 0, k);
      && Ascending(ps, 0, |bank|)
      && (forall t :: 0 <= t < k ==> ps[t] <= |bank| - k + t)
      && Chosen(bank, 0, k) == Sub(bank, ps)
    ensures AllDigits(Chosen(bank, 0, k))
    ensures forall q :: |q| == k && Ascending(q, 0, |bank|) ==>
      AllDigits(Sub(bank, q)) && Value(Sub(bank, q)) <= Value(Chosen(bank, 0, k))
  {
    PicksAscending(bank, 0, k);
    PicksWindow(bank, 0, k);
    ChosenPicks(bank, 0, k);
    ChosenDigits(bank, 0, k);
    forall q | |q| == k && Ascending(q, 0, |bank|)
      ensures AllDigits(Sub(bank, q)) && Value(Sub(bank, q)) <= Value(Chosen(bank, 0, k))
    {
      GreedyBest(bank, 0, k, q);
    }
  }

  /** On a bank of at least twelve digits, overmaximum_joltage is the number
      the greedy choice of twelve batteries reads; by ChosenBest no choice
      of twelve batteries reads a larger one. */
  lemma OvermaxValue(bank: string)
    requires |bank| >= Twelve && AllDigits(bank)
    ensures AllDigits(Chosen(bank, 0, Twelve))
    ensures Overmax(bank) == Ok(Value(Chosen(bank, 0, Twelve)))
  {
    ChosenDigits(bank, 0, Twelve);
  }

  /** The joltage part 1 reads from one bank. */
  function BankJoltage(bank: string): Result<nat> {
    if |bank| < 2 then Err else MaximumJoltage(bank)
  }

  /** part_1(input): fails exactly when some line's maximum_joltage fails,
      and otherwise adds up the lines' joltages. */
  function Part1(input: string): (r: Result<nat>)
    ensures r.Err? <==> exists k :: 0 <= k < |Lines(input)| && BankJoltage(Lines(input)[k]).Err?
    ensures r.Ok? ==> r.value == TotalOf(Lines(input), BankJoltage)
  {
    SumOverFails(Lines(input), BankJoltage);
    SumOver(Lines(input), BankJoltage)
  }

  /** part_2(input): fails exactly when some line's overmaximum_joltage
      fails, and otherwise adds up the lines' twelve-battery joltages. */
  function Part2(input: string): (r: Result<nat>)
    ensures r.Err? <==> exists k :: 0 <= k < |Lines(input)| && Overmax(Lines(input)[k]).Err?
    ensures r.Ok? ==> r.value == TotalOf(Lines(input), Overmax)
  {
    SumOverFails(Lines(input), Overmax);
    SumOver(Lines(input), Overmax)
  }

  const SampleBanks: seq<string> := ["987654321111111", "811111111111119", "234234234234278", "818181911112111"]

  /** Every character of s[lo..hi] is at most c (strict: below c). */
  predicate AtMost(s: string, lo: nat, hi: nat, c: char, strict: bool)
    requires lo <= hi <= |s|
    decreases hi - lo
  {
    lo == hi || ((if strict then s[lo] < c else s[lo] <= c) && AtMost(s, lo + 1, hi, c, strict))
  }

  lemma {:induction false} AtMostAll(s: string, lo: nat, hi: nat, c: char, strict: bool)
    requires lo <= hi <= |s| && AtMost(s, lo, hi, c, strict)
    ensures forall t :: lo <= t < hi ==> if strict then s[t] < c else s[t] <= c
    decreases hi - lo
  {
    if lo < hi {
      AtMostAll(s, lo + 1, hi, c, strict);
    }
  }

  /** A position holding the largest character of a range, with only
      smaller characters before it, is the one max_element finds. */
  lemma FirstMaxIs(s: string, lo: nat, hi: nat, k: nat)
    requires lo <= k < hi <= |s|
    requires AtMost(s, lo, k, s[k], true) && AtMost(s, k, hi, s[k], false)
    ensures FirstMax(s, lo, hi) == k
  {
    FirstMaxSpec(s, lo, hi);
    AtMostAll(s, lo, k, s[k], true);
    AtMostAll(s, k, hi, s[k], false);
  }

  /** ps[i..] are the positions the greedy choice makes from `start` on,
      checked window by window. */
  predicate IsGreedy(s: string, start: nat, ps: seq<nat>, i: nat)
    requires i <= |ps| && start + (|ps| - i) <= |s|
    decreases |ps| - i
  {
    i == |ps| ||
      (&& start <= ps[i] < |s| - (|ps| - i) + 1
       && AtMost(s, start, ps[i], s[ps[i]], true)
       && AtMost(s, ps[i], |s| - (|ps| - i) + 1, s[ps[i]], false)
       && IsGreedy(s, ps[i] + 1, ps, i + 1))
  }

  /** c[i..] holds the characters of s at positions ps[i..]. */
  predicate Reads(s: string, ps: seq<nat>, c: string, i: nat)
    requires i <= |ps| == |c|
    decreases |ps| - i
  {
    i == |ps| || (ps[i] < |s| && s[ps[i]] == c[i] && Reads(s, ps, c, i + 1))
  }

  lemma {:induction false} ReadsSub(s: string, ps: seq<nat>, c: string, i: nat)
    requires i <= |ps| == |c| && Reads(s, ps, c, i)
    ensures forall t :: i <= t < |ps| ==> ps[t] < |s|
    ensures Sub(s, ps[i..]) == c[i..]
    decreases |ps| - i
  {
    if i < |ps| {
      ReadsSub(s, ps, c, i + 1);
      assert ps[i..][1..] == ps[i + 1..];
      assert c[i..] == [c[i]] + c[i + 1..];
    }
  }

  /** Positions that pass the window checks are the greedy choice. */
  lemma {:induction false} GreedyPicks(s: string, start: nat, ps: seq<nat>, i: nat)
    requires i <= |ps| && start + (|ps| - i) <= |s| && IsGreedy(s, start, ps, i)
    ensures Picks(s, start, |ps| - i) == ps[i..]
    decreases |ps| - i
  {
    if i < |ps| {
      var k := |ps| - i;
      FirstMaxIs(s, start, |s| - k + 1, ps[i]);
      GreedyPicks(s, ps[i] + 1, ps, i + 1);
      PicksUnfold(s, start, k, ps[i]);
      assert [ps[i]] + ps[i + 1..] == ps[i..];
    }
  }

  /** maximum_joltage(bank) once its two searches are known. */
  lemma MaximumJoltageAt(bank: string, l: nat, r: nat, n: nat)
    requires |bank| >= 2 && l < |bank| - 1 && l < r < |bank|
    requires FirstMax(bank, 0, |bank| - 1) == l && FirstMax(bank, l + 1, |bank|) == r
    requires Parse([bank[l], bank[r]]) == Ok(n)
    ensures MaximumJoltage(bank) == Ok(n)
  {
  }

  lemma TwoDigitLiteral(x: char, y: char, s: string, n: nat)
    requires s == [x, y] && AllDigits(s) && PrefixValue(s, 2) == n
    ensures Parse([x, y]) == Ok(n)
  {
    ParseLiteral(s, 2, n);
  }

  lemma MaximumJoltageSample0()
    ensures MaximumJoltage(SampleBanks[0]) == Ok(98)
  {
    var b := "987654321111111";
    assert SampleBanks[0] == b;
    FirstMaxIs(b, 0, 14, 0);
    FirstMaxIs(b, 1, 15, 1);
    TwoDigitLiteral(b[0], b[1], "98", 98);
    MaximumJoltageAt(b, 0, 1, 98);
  }

  lemma MaximumJoltageSample1()
    ensures MaximumJoltage(SampleBanks[1]) == Ok(89)
  {
    var b := "811111111111119";
    assert SampleBanks[1] == b;
    FirstMaxIs(b, 0, 14, 0);
    FirstMaxIs(b, 1, 15, 14);
    TwoDigitLiteral(b[0], b[14], "89", 89);
    MaximumJoltageAt(b, 0, 14, 89);
  }

  lemma MaximumJoltageSample2()
    ensures MaximumJoltage(SampleBanks[2]) == Ok(78)
  {
    var b := "234234234234278";
    assert SampleBanks[2] == b;
    FirstMaxIs(b, 0, 14, 13);
    FirstMaxIs(b, 14, 15, 14);
    TwoDigitLiteral(b[13], b[14], "78", 78);
    MaximumJoltageAt(b, 13, 14, 78);
  }

  lemma MaximumJoltageSample3()
    ensures MaximumJoltage(SampleBanks[3]) == Ok(92)
  {
    var b := "818181911112111";
    assert SampleBanks[3] == b;
    FirstMaxIs(b, 0, 14, 6);
    FirstMaxIs(b, 7, 15, 11);
    TwoDigitLiteral(b[6], b[11], "92", 92);
    MaximumJoltageAt(b, 6, 11, 92);
  }

  lemma GreedySample0Tail()
    ensures IsGreedy("987654321111111", 6, [0, 1, 2, 3, 4, 5, 6, 7, 8, 9, 10, 11], 6)
  {
    var b := "987654321111111";
    var ps: seq<nat> := [0, 1, 2, 3, 4, 5, 6, 7, 8, 9, 10, 11];
    assert AtMost(b, 6, 6, b[6], true) && AtMost(b, 6, 10, b[6], false);
    assert AtMost(b, 7, 7, b[7], true) && AtMost(b, 7, 11, b[7], false);
    assert AtMost(b, 8, 8, b[8], true) && AtMost(b, 8, 12, b[8], false);
    assert AtMost(b, 9, 9, b[9], true) && AtMost(b, 9, 13, b[9], false);
    assert AtMost(b, 10, 10, b[10], true) && AtMost(b, 10, 14, b[10], false);
    assert AtMost(b, 11, 11, b[11], true) && AtMost(b, 11, 15, b[11], false);
    assert IsGreedy(b, 12, ps, 12);
    assert IsGreedy(b, 11, ps, 11);
    assert IsGreedy(b, 10, ps, 10);
    assert IsGreedy(b, 9, ps, 9);
    assert IsGreedy(b, 8, ps, 8);
    assert IsGreedy(b, 7, ps, 7);
    assert IsGreedy(b, 6, ps, 6);
  }

  lemma GreedySample0()
    ensures IsGreedy(SampleBanks[0], 0, [0, 1, 2, 3, 4, 5, 6, 7, 8, 9, 10, 11], 0)
  {
    var b := "987654321111111";
    var ps: seq<nat> := [0, 1, 2, 3, 4, 5, 6, 7, 8, 9, 10, 11];
    assert SampleBanks[0] == b;
    assert AtMost(b, 0, 0, b[0], true) && AtMost(b, 0, 4, b[0], false);
    assert AtMost(b, 1, 1, b[1], true) && AtMost(b, 1, 5, b[1], false);
    assert AtMost(b, 2, 2, b[2], true) && AtMost(b, 2, 6, b[2], false);
    assert AtMost(b, 3, 3, b[3], true) && AtMost(b, 3, 7, b[3], false);
    assert AtMost(b, 4, 4, b[4], true) && AtMost(b, 4, 8, b[4], false);
    assert AtMost(b, 5, 5, b[5], true) && AtMost(b, 5, 9, b[5], false);
    GreedySample0Tail();
    assert IsGreedy(b, 5, ps, 5);
    assert IsGreedy(b, 4, ps, 4);
    assert IsGreedy(b, 3, ps, 3);
    assert IsGreedy(b, 2, ps, 2);
    assert IsGreedy(b, 1, ps, 1);
    assert IsGreedy(b, 0, ps, 0);
  }


  lemma ReadsSample0()
    ensures Reads(SampleBanks[0], [0, 1, 2, 3, 4, 5, 6, 7, 8, 9, 10, 11], "987654321111", 0)
  {
    var b := "987654321111111";
    var ps: seq<nat> := [0, 1, 2, 3, 4, 5, 6, 7, 8, 9, 10, 11];
    var c := "987654321111";
    assert SampleBanks[0] == b;
    assert Reads(b, ps, c, 12);
    assert Reads(b, ps, c, 11);
    assert Reads(b, ps, c, 10);
    assert Reads(b, ps, c, 9);
    assert Reads(b, ps, c, 8);
    assert Reads(b, ps, c, 7);
    assert Reads(b, ps, c, 6);
    assert Reads(b, ps, c, 5);
    assert Reads(b, ps, c, 4);
    assert Reads(b, ps, c, 3);
    assert Reads(b, ps, c, 2);
    assert Reads(b, ps, c, 1);
    assert Reads(b, ps, c, 0);
  }

  lemma SubSample0()
    ensures Sub(SampleBanks[0], [0, 1, 2, 3, 4, 5, 6, 7, 8, 9, 10, 11]) == "987654321111"
  {
    var ps: seq<nat> := [0, 1, 2, 3, 4, 5, 6, 7, 8, 9, 10, 11];
    var c := "987654321111";
    ReadsSample0();
    ReadsSub(SampleBanks[0], ps, c, 0);
    assert ps[0..] == ps && c[0..] == c;
  }

  lemma OvermaxSample0()
    ensures Overmax(SampleBanks[0]) == Ok(987654321111)
  {
    var ps: seq<nat> := [0, 1, 2, 3, 4, 5, 6, 7, 8, 9, 10, 11];
    GreedySample0();
    GreedyPicks(SampleBanks[0], 0, ps, 0);
    assert ps[0..] == ps;
    ChosenPicks(SampleBanks[0], 0, 12);
    SubSample0();
    DigitsValue0();
  }

  lemma DigitsValue0()
    ensures AllDigits("987654321111") && Value("987654321111") == 987654321111
  {
    var c := "987654321111";
    assert PrefixValue(c, 3) == 987;
    assert PrefixValue(c, 6) == 987654;
    assert PrefixValue(c, 9) == 987654321;
    PrefixValueIsValue(c, 12);
    assert c[..12] == c;
  }

  lemma GreedySample1Tail()
    ensures IsGreedy("811111111111119", 6, [0, 1, 2, 3, 4, 5, 6, 7, 8, 9, 10, 14], 6)
  {
    var b := "811111111111119";
    var ps: seq<nat> := [0, 1, 2, 3, 4, 5, 6, 7, 8, 9, 10, 14];
    assert AtMost(b, 6, 6, b[6], true) && AtMost(b, 6, 10, b[6], false);
    assert AtMost(b, 7, 7, b[7], true) && AtMost(b, 7, 11, b[7], false);
    assert AtMost(b, 8, 8, b[8], true) && AtMost(b, 8, 12, b[8], false);
    assert AtMost(b, 9, 9, b[9], true) && AtMost(b, 9, 13, b[9], false);
    assert AtMost(b, 10, 10, b[10], true) && AtMost(b, 10, 14, b[10], false);
    assert AtMost(b, 11, 14, b[14], true) && AtMost(b, 14, 15, b[14], false);
    assert IsGreedy(b, 15, ps, 12);
    assert IsGreedy(b, 11, ps, 11);
    assert IsGreedy(b, 10, ps, 10);
    assert IsGreedy(b, 9, ps, 9);
    assert IsGreedy(b, 8, ps, 8);
    assert IsGreedy(b, 7, ps, 7);
    assert IsGreedy(b, 6, ps, 6);
  }

  lemma GreedySample1()
    ensures IsGreedy(SampleBanks[1], 0, [0, 1, 2, 3, 4, 5, 6, 7, 8, 9, 10, 14], 0)
  {
    var b := "811111111111119";
    var ps: seq<nat> := [0, 1, 2, 3, 4, 5, 6, 7, 8, 9, 10, 14];
    assert SampleBanks[1] == b;
    assert AtMost(b, 0, 0, b[0], true) && AtMost(b, 0, 4, b[0], false);
    assert AtMost(b, 1, 1, b[1], true) && AtMost(b, 1, 5, b[1], false);
    assert AtMost(b, 2, 2, b[2], true) && AtMost(b, 2, 6, b[2], false);
    assert AtMost(b, 3, 3, b[3], true) && AtMost(b, 3, 7, b[3], false);
    assert AtMost(b, 4, 4, b[4], true) && AtMost(b, 4, 8, b[4], false);
    assert AtMost(b, 5, 5, b[5], true) && AtMost(b, 5, 9, b[5], false);
    GreedySample1Tail();
    assert IsGreedy(b, 5, ps, 5);
    assert IsGreedy(b, 4, ps, 4);
    assert IsGreedy(b, 3, ps, 3);
    assert IsGreedy(b, 2, ps, 2);
    assert IsGreedy(b, 1, ps, 1);
    assert IsGreedy(b, 0, ps, 0);
  }


  lemma ReadsSample1()
    ensures Reads(SampleBanks[1], [0, 1, 2, 3, 4, 5, 6, 7, 8, 9, 10, 14], "811111111119", 0)
  {
    var b := "811111111111119";
    var ps: seq<nat> := [0, 1, 2, 3, 4, 5, 6, 7, 8, 9, 10, 14];
    var c := "811111111119";
    assert SampleBanks[1] == b;
    assert Reads(b, ps, c, 12);
    assert Reads(b, ps, c, 11);
    assert Reads(b, ps, c, 10);
    assert Reads(b, ps, c, 9);
    assert Reads(b, ps, c, 8);
    assert Reads(b, ps, c, 7);
    assert Reads(b, ps, c, 6);
    assert Reads(b, ps, c, 5);
    assert Reads(b, ps, c, 4);
    assert Reads(b, ps, c, 3);
    assert Reads(b, ps, c, 2);
    assert Reads(b, ps, c, 1);
    assert Reads(b, ps, c, 0);
  }

  lemma SubSample1()
    ensures Sub(SampleBanks[1], [0, 1, 2, 3, 4, 5, 6, 7, 8, 9, 10, 14]) == "811111111119"
  {
    var ps: seq<nat> := [0, 1, 2, 3, 4, 5, 6, 7, 8, 9, 10, 14];
    var c := "811111111119";
    ReadsSample1();
    ReadsSub(SampleBanks[1], ps, c, 0);
    assert ps[0..] == ps && c[0..] == c;
  }

  lemma OvermaxSample1()
    ensures Overmax(SampleBanks[1]) == Ok(811111111119)
  {
    var ps: seq<nat> := [0, 1, 2, 3, 4, 5, 6, 7, 8, 9, 10, 14];
    GreedySample1();
    GreedyPicks(SampleBanks[1], 0, ps, 0);
    assert ps[0..] == ps;
    ChosenPicks(SampleBanks[1], 0, 12);
    SubSample1();
    DigitsValue1();
  }

  lemma DigitsValue1()
    ensures AllDigits("811111111119") && Value("811111111119") == 811111111119
  {
    var c := "811111111119";
    assert PrefixValue(c, 3) == 811;
    assert PrefixValue(c, 6) == 811111;
    assert PrefixValue(c, 9) == 811111111;
    PrefixValueIsValue(c, 12);
    assert c[..12] == c;
  }

  lemma GreedySample2Tail()
    ensures IsGreedy("234234234234278", 9, [2, 4, 5, 6, 7, 8, 9, 10, 11, 12, 13, 14], 6)
  {
    var b := "234234234234278";
    var ps: seq<nat> := [2, 4, 5, 6, 7, 8, 9, 10, 11, 12, 13, 14];
    assert AtMost(b, 9, 9, b[9], true) && AtMost(b, 9, 10, b[9], false);
    assert AtMost(b, 10, 10, b[10], true) && AtMost(b, 10, 11, b[10], false);
    assert AtMost(b, 11, 11, b[11], true) && AtMost(b, 11, 12, b[11], false);
    assert AtMost(b, 12, 12, b[12], true) && AtMost(b, 12, 13, b[12], false);
    assert AtMost(b, 13, 13, b[13], true) && AtMost(b, 13, 14, b[13], false);
    assert AtMost(b, 14, 14, b[14], true) && AtMost(b, 14, 15, b[14], false);
    assert IsGreedy(b, 15, ps, 12);
    assert IsGreedy(b, 14, ps, 11);
    assert IsGreedy(b, 13, ps, 10);
    assert IsGreedy(b, 12, ps, 9);
    assert IsGreedy(b, 11, ps, 8);
    assert IsGreedy(b, 10, ps, 7);
    assert IsGreedy(b, 9, ps, 6);
  }

  lemma GreedySample2()
    ensures IsGreedy(SampleBanks[2], 0, [2, 4, 5, 6, 7, 8, 9, 10, 11, 12, 13, 14], 0)
  {
    var b := "234234234234278";
    var ps: seq<nat> := [2, 4, 5, 6, 7, 8, 9, 10, 11, 12, 13, 14];
    assert SampleBanks[2] == b;
    assert AtMost(b, 0, 2, b[2], true) && AtMost(b, 2, 4, b[2], false);
    assert AtMost(b, 3, 4, b[4], true) && AtMost(b, 4, 5, b[4], false);
    assert AtMost(b, 5, 5, b[5], true) && AtMost(b, 5, 6, b[5], false);
    assert AtMost(b, 6, 6, b[6], true) && AtMost(b, 6, 7, b[6], false);
    assert AtMost(b, 7, 7, b[7], true) && AtMost(b, 7, 8, b[7], false);
    assert AtMost(b, 8, 8, b[8], true) && AtMost(b, 8, 9, b[8], false);
    GreedySample2Tail();
    assert IsGreedy(b, 8, ps, 5);
    assert IsGreedy(b, 7, ps, 4);
    assert IsGreedy(b, 6, ps, 3);
    assert IsGreedy(b, 5, ps, 2);
    assert IsGreedy(b, 3, ps, 1);
    assert IsGreedy(b, 0, ps, 0);
  }


  lemma ReadsSample2()
    ensures Reads(SampleBanks[2], [2, 4, 5, 6, 7, 8, 9, 10, 11, 12, 13, 14], "434234234278", 0)
  {
    var b := "234234234234278";
    var ps: seq<nat> := [2, 4, 5, 6, 7, 8, 9, 10, 11, 12, 13, 14];
    var c := "434234234278";
    assert SampleBanks[2] == b;
    assert Reads(b, ps, c, 12);
    assert Reads(b, ps, c, 11);
    assert Reads(b, ps, c, 10);
    assert Reads(b, ps, c, 9);
    assert Reads(b, ps, c, 8);
    assert Reads(b, ps, c, 7);
    assert Reads(b, ps, c, 6);
    assert Reads(b, ps, c, 5);
    assert Reads(b, ps, c, 4);
    assert Reads(b, ps, c, 3);
    assert Reads(b, ps, c, 2);
    assert Reads(b, ps, c, 1);
    assert Reads(b, ps, c, 0);
  }

  lemma SubSample2()
    ensures Sub(SampleBanks[2], [2, 4, 5, 6, 7, 8, 9, 10, 11, 12, 13, 14]) == "434234234278"
  {
    var ps: seq<nat> := [2, 4, 5, 6, 7, 8, 9, 10, 11, 12, 13, 14];
    var c := "434234234278";
    ReadsSample2();
    ReadsSub(SampleBanks[2], ps, c, 0);
    assert ps[0..] == ps && c[0..] == c;
  }

  lemma OvermaxSample2()
    ensures Overmax(SampleBanks[2]) == Ok(434234234278)
  {
    var ps: seq<nat> := [2, 4, 5, 6, 7, 8, 9, 10, 11, 12, 13, 14];
    GreedySample2();
    GreedyPicks(SampleBanks[2], 0, ps, 0);
    assert ps[0..] == ps;
    ChosenPicks(SampleBanks[2], 0, 12);
    SubSample2();
    DigitsValue2();
  }

  lemma DigitsValue2()
    ensures AllDigits("434234234278") && Value("434234234278") == 434234234278
  {
    var c := "434234234278";
    assert PrefixValue(c, 3) == 434;
    assert PrefixValue(c, 6) == 434234;
    assert PrefixValue(c, 9) == 434234234;
    PrefixValueIsValue(c, 12);
    assert c[..12] == c;
  }

  lemma GreedySample3Tail()
    ensures IsGreedy("818181911112111", 9, [0, 2, 4, 6, 7, 8, 9, 10, 11, 12, 13, 14], 6)
  {
    var b := "818181911112111";
    var ps: seq<nat> := [0, 2, 4, 6, 7, 8, 9, 10, 11, 12, 13, 14];
    assert AtMost(b, 9, 9, b[9], true) && AtMost(b, 9, 10, b[9], false);
    assert AtMost(b, 10, 10, b[10], true) && AtMost(b, 10, 11, b[10], false);
    assert AtMost(b, 11, 11, b[11], true) && AtMost(b, 11, 12, b[11], false);
    assert AtMost(b, 12, 12, b[12], true) && AtMost(b, 12, 13, b[12], false);
    assert AtMost(b, 13, 13, b[13], true) && AtMost(b, 13, 14, b[13], false);
    assert AtMost(b, 14, 14, b[14], true) && AtMost(b, 14, 15, b[14], false);
    assert IsGreedy(b, 15, ps, 12);
    assert IsGreedy(b, 14, ps, 11);
    assert IsGreedy(b, 13, ps, 10);
    assert IsGreedy(b, 12, ps, 9);
    assert IsGreedy(b, 11, ps, 8);
    assert IsGreedy(b, 10, ps, 7);
    assert IsGreedy(b, 9, ps, 6);
  }

  lemma GreedySample3()
    ensures IsGreedy(SampleBanks[3], 0, [0, 2, 4, 6, 7, 8, 9, 10, 11, 12, 13, 14], 0)
  {
    var b := "818181911112111";
    var ps: seq<nat> := [0, 2, 4, 6, 7, 8, 9, 10, 11, 12, 13, 14];
    assert SampleBanks[3] == b;
    assert AtMost(b, 0, 0, b[0], true) && AtMost(b, 0, 4, b[0], false);
    assert AtMost(b, 1, 2, b[2], true) && AtMost(b, 2, 5, b[2], false);
    assert AtMost(b, 3, 4, b[4], true) && AtMost(b, 4, 6, b[4], false);
    assert AtMost(b, 5, 6, b[6], true) && AtMost(b, 6, 7, b[6], false);
    assert AtMost(b, 7, 7, b[7], true) && AtMost(b, 7, 8, b[7], false);
    assert AtMost(b, 8, 8, b[8], true) && AtMost(b, 8, 9, b[8], false);
    GreedySample3Tail();
    assert IsGreedy(b, 8, ps, 5);
    assert IsGreedy(b, 7, ps, 4);
    assert IsGreedy(b, 5, ps, 3);
    assert IsGreedy(b, 3, ps, 2);
    assert IsGreedy(b, 1, ps, 1);
    assert IsGreedy(b, 0, ps, 0);
  }


  lemma ReadsSample3()
    ensures Reads(SampleBanks[3], [0, 2, 4, 6, 7, 8, 9, 10, 11, 12, 13, 14], "888911112111", 0)
  {
    var b := "818181911112111";
    var ps: seq<nat> := [0, 2, 4, 6, 7, 8, 9, 10, 11, 12, 13, 14];
    var c := "888911112111";
    assert SampleBanks[3] == b;
    assert Reads(b, ps, c, 12);
    assert Reads(b, ps, c, 11);
    assert Reads(b, ps, c, 10);
    assert Reads(b, ps, c, 9);
    assert Reads(b, ps, c, 8);
    assert Reads(b, ps, c, 7);
    assert Reads(b, ps, c, 6);
    assert Reads(b, ps, c, 5);
    assert Reads(b, ps, c, 4);
    assert Reads(b, ps, c, 3);
    assert Reads(b, ps, c, 2);
    assert Reads(b, ps, c, 1);
    assert Reads(b, ps, c, 0);
  }

  lemma SubSample3()
    ensures Sub(SampleBanks[3], [0, 2, 4, 6, 7, 8, 9, 10, 11, 12, 13, 14]) == "888911112111"
  {
    var ps: seq<nat> := [0, 2, 4, 6, 7, 8, 9, 10, 11, 12, 13, 14];
    var c := "888911112111";
    ReadsSample3();
    ReadsSub(SampleBanks[3], ps, c, 0);
    assert ps[0..] == ps && c[0..] == c;
  }

  lemma OvermaxSample3()
    ensures Overmax(SampleBanks[3]) == Ok(888911112111)
  {
    var ps: seq<nat> := [0, 2, 4, 6, 7, 8, 9, 10, 11, 12, 13, 14];
    GreedySample3();
    GreedyPicks(SampleBanks[3], 0, ps, 0);
    assert ps[0..] == ps;
    ChosenPicks(SampleBanks[3], 0, 12);
    SubSample3();
    DigitsValue3();
  }

  lemma DigitsValue3()
    ensures AllDigits("888911112111") && Value("888911112111") == 888911112111
  {
    var c := "888911112111";
    assert PrefixValue(c, 3) == 888;
    assert PrefixValue(c, 6) == 888911;
    assert PrefixValue(c, 9) == 888911112;
    PrefixValueIsValue(c, 12);
    assert c[..12] == c;
  }

  /** The sample input of the tests, one bank per line. */
  lemma SampleSplit()
    ensures Lines(Join(SampleBanks, '\n') + "\n") == SampleBanks
  {
    SplitOfTerminated(SampleBanks, '\n', false);
  }

  /** The four sample banks give 357 in part 1. */
  lemma Part1Sample()
    ensures Part1(Join(SampleBanks, '\n') + "\n") == Ok(357)
  {
    SampleSplit();
    Part1Banks();
  }

  lemma Part1Banks()
    ensures SumOver(SampleBanks, BankJoltage) == Ok(357)
  {
    MaximumJoltageSample0();
    MaximumJoltageSample1();
    MaximumJoltageSample2();
    MaximumJoltageSample3();
    SumOverFour(SampleBanks, BankJoltage, 98, 89, 78, 92);
  }

  /** The four sample banks give 3121910778619 in part 2. */
  lemma Part2Sample()
    ensures Part2(Join(SampleBanks, '\n') + "\n") == Ok(3121910778619)
  {
    SampleSplit();
    Part2Banks();
  }

  lemma Part2Banks()
    ensures SumOver(SampleBanks, Overmax) == Ok(3121910778619)
  {
    OvermaxSample0();
    OvermaxSample1();
    OvermaxSample2();
    OvermaxSample3();
    SumOverFour(SampleBanks, Overmax, 987654321111, 811111111119, 434234234278, 888911112111);
  }
}
