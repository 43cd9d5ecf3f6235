/** Day 1 (src/day1.cpp): a dial numbered 0 to 99, starting at 50, turned
    left (negative) or right (positive) by a list of rotations. Part 1 counts
    the rotations that leave the dial on 0; part 2 counts every single click
    that lands on 0. */
module Day1 {
  import opened Wrappers
  import opened Text
  import opened Decimal
  import opened Blocks

  const InitialDial: int := 50
  const MaxDial: int := 100

  function Abs(x: int): nat {
    if x < 0 then -x else x
  }

  /** The remainder of C++'s `%` on int, which truncates toward zero. */
  function CRem(a: int, m: int): (r: int)
    requires m > 0
    ensures a >= 0 ==> r == a % m
    ensures Abs(r) < m
  {
    if a >= 0 then a % m else -((-a) % m)
  }

  /** remove_full_turns(rot): the number of full turns, and what is left of
      the rotation once they are taken away. */
  function RemoveFullTurns(rot: int): (r: (nat, int))
    ensures r.0 == Abs(rot) / MaxDial
    ensures Abs(r.1) < MaxDial
    ensures (rot > 0 ==> r.1 >= 0) && (rot < 0 ==> r.1 <= 0) && (rot == 0 ==> r.1 == 0)
    ensures rot == (if rot < 0 then -1 else 1) * r.0 * MaxDial + r.1
  {
    var turns := Abs(rot) / MaxDial;
    var rest := if rot > 0 then rot - turns * MaxDial else if rot < 0 then rot + turns * MaxDial else rot;
    (turns, rest)
  }

  /** rotate(dial, rot): where the dial ends up. */
  function Rotate(dial: int, rot: int): (d: int)
    ensures 0 <= dial < MaxDial ==> 0 <= d < MaxDial && d == (dial + rot) % MaxDial
  {
    var (turns, rest) := RemoveFullTurns(rot);
    var dst := dial + rest;
    var dst' := if dst < 0 then MaxDial + dst else dst;
    assert 0 <= dial < MaxDial ==> dst' >= 0 && dst' % MaxDial == (dial + rot) % MaxDial by {
      if 0 <= dial < MaxDial {
        var k: int := if rot < 0 then -(turns as int) else turns;
        assert dial + rot == dst + k * MaxDial;
        ModShift(dst', k - (if dst < 0 then 1 else 0));
      }
    }
    CRem(dst', MaxDial)
  }

  lemma ModShift(x: int, k: int)
    ensures (x + k * MaxDial) % MaxDial == x % MaxDial
    ensures (x + k * MaxDial) / MaxDial == x / MaxDial + k
  {
  }

  /** parserot(s): 'L' turns left, 'R' turns right, and the rest is the
      number of clicks. */
  function ParseRot(s: string): (r: Result<int>)
    ensures s == [] || (s[0] != 'L' && s[0] != 'R') ==> r == Err
    ensures |s| >= 2 && AllDigits(s[1..]) && s[0] == 'L' ==> r == Ok(-(Value(s[1..]) as int))
    ensures |s| >= 2 && AllDigits(s[1..]) && s[0] == 'R' ==> r == Ok(Value(s[1..]))
  {
    if s == [] then
      Err
    else
      var sign :- if s[0] == 'L' then Ok(-1) else if s[0] == 'R' then Ok(1) else Err;
      var n :- Parse(s[1..]);
      Ok(sign * n)
  }

  /** getmoves(input): parserot applied to every line of the input, failing
      when one line fails. */
  function GetMoves(input: string): (r: Result<seq<int>>)
    ensures r.Ok? ==> |r.value| == |Lines(input)|
    ensures r.Ok? ==> forall k :: 0 <= k < |Lines(input)| ==> ParseRot(Lines(input)[k]) == Ok(r.value[k])
    ensures r.Err? ==> exists k :: 0 <= k < |Lines(input)| && ParseRot(Lines(input)[k]).Err?
  {
    var lines := Lines(input);
    var r := ParseAll(lines, ParseRot);
    if r.Ok? then
      ParseAllValues(lines, ParseRot);
      r
    else
      ParseAllErr(lines, ParseRot);
      r
  }

  function Sum(xs: seq<int>): int {
    if xs == [] then 0 else Sum(xs[..|xs| - 1]) + xs[|xs| - 1]
  }

  /** The (dial, count) pair the accumulate of getpass carries. */
  function PassFold(moves: seq<int>, dial: int): (int, nat) {
    if moves == [] then
      (dial, 0)
    else
      var (d, count) := PassFold(moves[..|moves| - 1], dial);
      var d' := Rotate(d, moves[|moves| - 1]);
      (d', count + if d' == 0 then 1 else 0)
  }

  /** getpass(moves, dial): how many of the moves leave the dial on 0. */
  function GetPass(moves: seq<int>, dial: int): (r: nat)
    ensures 0 <= dial < MaxDial ==> r == ZeroStops(moves, dial)
  {
    if 0 <= dial < MaxDial then
      PassFoldCountsStops(moves, dial);
      PassFold(moves, dial).1
    else
      PassFold(moves, dial).1
  }

  /** The number of prefixes of the moves whose total brings the dial to a
      multiple of 100: an independent account of where the dial stops. */
  function ZeroStops(moves: seq<int>, dial: int): nat {
    if moves == [] then 0
    else ZeroStops(moves[..|moves| - 1], dial) + if (dial + Sum(moves)) % MaxDial == 0 then 1 else 0
  }

  /** After the moves the dial reads the start plus their sum, mod 100. */
  lemma {:induction false} DialPosition(moves: seq<int>, dial: int)
    requires 0 <= dial < MaxDial
    ensures PassFold(moves, dial).0 == (dial + Sum(moves)) % MaxDial
  {
    if moves != [] {
      var init := moves[..|moves| - 1];
      DialPosition(init, dial);
      var d := PassFold(init, dial).0;
      var x := moves[|moves| - 1];
      var q := (dial + Sum(init)) / MaxDial;
      assert dial + Sum(init) == d + q * MaxDial;
      ModShift(d + x, q);
    }
  }

  /** The fold of getpass counts the moves after which the dial reads 0. */
  lemma {:induction false} PassFoldCountsStops(moves: seq<int>, dial: int)
    requires 0 <= dial < MaxDial
    ensures PassFold(moves, dial).1 == ZeroStops(moves, dial)
  {
    if moves != [] {
      var init := moves[..|moves| - 1];
      PassFoldCountsStops(init, dial);
      DialPosition(moves, dial);
    }
  }

  /** crosses_zero(dial, rot): the full turns, plus one if the partial turn
      that is left reaches 0 from a dial that is not on 0. */
  function CrossesZero(dial: int, rot: int): (r: nat)
    ensures 0 <= dial < MaxDial ==> r == Clicks(dial, rot >= 0, Abs(rot))
  {
    var (turns, rest) := RemoveFullTurns(rot);
    var count :=
      if rest == 0 || dial == 0 then
        turns
      else
        var dist0 := if rest > 0 then MaxDial - dial else dial;
        if Abs(rest) >= dist0 then turns + 1 else turns;
    if 0 <= dial < MaxDial && rot >= 0 then
      RightTurnClicks(dial, rot);
      count
    else if 0 <= dial < MaxDial then
      LeftTurnClicks(dial, rot);
      count
    else
      count
  }

  /** How many of the n single clicks from `pos`, to the right when `right`
      and to the left otherwise, leave the dial on 0. */
  function Clicks(pos: int, right: bool, n: nat): nat {
    if n == 0 then 0
    else Clicks(pos, right, n - 1) + if (if right then pos + n else pos - n) % MaxDial == 0 then 1 else 0
  }

  lemma {:induction false} ClicksRight(pos: int, n: nat)
    ensures Clicks(pos, true, n) == (pos + n) / MaxDial - pos / MaxDial
  {
    if n > 0 {
      ClicksRight(pos, n - 1);
    }
  }

  lemma {:induction false} ClicksLeft(pos: int, n: nat)
    ensures Clicks(pos, false, n) == (pos - 1) / MaxDial - (pos - n - 1) / MaxDial
  {
    if n > 0 {
      ClicksLeft(pos, n - 1);
    }
  }

  /** A right turn lands on 0 once per full turn, and once more if what is
      left of it carries the dial past 99. */
  lemma RightTurnClicks(dial: int, rot: int)
    requires 0 <= dial < MaxDial && rot >= 0
    ensures Clicks(dial, true, rot) == RemoveFullTurns(rot).0 + if dial + RemoveFullTurns(rot).1 >= MaxDial then 1 else 0
  {
    var (turns, rest) := RemoveFullTurns(rot);
    ClicksRight(dial, rot);
    assert dial + rot == (dial + rest) + turns * MaxDial;
    ModShift(dial + rest, turns);
    assert dial / MaxDial == 0;
    assert (dial + rest) / MaxDial == if dial + rest >= MaxDial then 1 else 0;
  }

  /** A left turn lands on 0 once per full turn, and once more if what is
      left of it takes a dial that is not on 0 down to 0 or below. */
  lemma LeftTurnClicks(dial: int, rot: int)
    requires 0 <= dial < MaxDial && rot < 0
    ensures Clicks(dial, false, -rot) == RemoveFullTurns(rot).0 + if 0 < dial && dial + RemoveFullTurns(rot).1 <= 0 then 1 else 0
  {
    var (turns, rest) := RemoveFullTurns(rot);
    ClicksLeft(dial, -rot);
    var t: int := turns;
    assert dial + rot - 1 == (dial + rest - 1) + (-t) * MaxDial;
    ModShift(dial + rest - 1, -t);
    assert (dial - 1) / MaxDial == if dial == 0 then -1 else 0;
    assert (dial + rest - 1) / MaxDial == if dial + rest - 1 < 0 then -1 else 0;
  }

  /** Only the dial's position mod 100 matters to the clicks. */
  lemma {:induction false} ClicksMod(pos: int, right: bool, n: nat)
    ensures Clicks(pos, right, n) == Clicks(pos % MaxDial, right, n)
  {
    if n > 0 {
      ClicksMod(pos, right, n - 1);
      var q := pos / MaxDial;
      ModShift(pos % MaxDial + n, q);
      ModShift(pos % MaxDial - n, q);
    }
  }

  /** The (dial, count) pair the accumulate of getpass_0x434C49434B carries. */
  function ClickFold(moves: seq<int>): (int, nat) {
    if moves == [] then
      (InitialDial, 0)
    else
      var (d, count) := ClickFold(moves[..|moves| - 1]);
      var x := moves[|moves| - 1];
      (Rotate(d, x), count + CrossesZero(d, x))
  }

  /** getpass_0x434C49434B(moves): how many single clicks of the moves land
      on 0. */
  function GetPassClicks(moves: seq<int>): (r: nat)
    ensures r == ZeroClicks(moves)
  {
    ClickFoldCountsClicks(moves);
    ClickFold(moves).1
  }

  /** Every click of every move that lands on 0, counted from the unreduced
      position 50 plus the moves so far. */
  function ZeroClicks(moves: seq<int>): nat {
    if moves == [] then 0
    else
      var init := moves[..|moves| - 1];
      var x := moves[|moves| - 1];
      ZeroClicks(init) + Clicks(InitialDial + Sum(init), x >= 0, Abs(x))
  }

  /** The dial carried by the fold of part 2 is where part 1 would put it. */
  lemma {:induction false} ClickFoldDial(moves: seq<int>)
    ensures ClickFold(moves).0 == PassFold(moves, InitialDial).0
  {
    if moves != [] {
      ClickFoldDial(moves[..|moves| - 1]);
    }
  }

  /** The fold of getpass_0x434C49434B counts every click that lands on 0. */
  lemma {:induction false} ClickFoldCountsClicks(moves: seq<int>)
    ensures ClickFold(moves).1 == ZeroClicks(moves)
  {
    if moves != [] {
      var init := moves[..|moves| - 1];
      var x := moves[|moves| - 1];
      ClickFoldCountsClicks(init);
      ClickFoldDial(init);
      DialPosition(init, InitialDial);
      ClicksMod(InitialDial + Sum(init), x >= 0, Abs(x));
    }
  }

  /** part_1(input): fails exactly when a line is not a rotation, and
      otherwise counts the rotations that leave the dial, started at 50, on
      0. */
  function Part1(input: string): (r: Result<int>)
    ensures r.Err? <==> exists k :: 0 <= k < |Lines(input)| && ParseRot(Lines(input)[k]).Err?
    ensures r.Ok? ==> r.value == ZeroStops(GetMoves(input).value, InitialDial)
  {
    var moves :- GetMoves(input);
    Ok(GetPass(moves, InitialDial))
  }

  /** part_2(input): fails exactly when a line is not a rotation, and
      otherwise counts every single click that lands on 0. */
  function Part2(input: string): (r: Result<int>)
    ensures r.Err? <==> exists k :: 0 <= k < |Lines(input)| && ParseRot(Lines(input)[k]).Err?
    ensures r.Ok? ==> r.value == ZeroClicks(GetMoves(input).value)
  {
    var moves :- GetMoves(input);
    Ok(GetPassClicks(moves))
  }

  /** The rotations of tests(). */
  lemma RotateExamples()
    ensures Rotate(11, 8) == 19 && Rotate(19, -19) == 0
    ensures Rotate(0, -1) == 99 && Rotate(99, 1) == 0
    ensures Rotate(5, -10) == 95 && Rotate(95, 5) == 0
    ensures Rotate(0, -377) == 23
  {
  }

  lemma ValueTwoDigits(s: string)
    requires |s| == 2 && AllDigits(s)
    ensures Value(s) == 10 * DigitOf(s[0]) + DigitOf(s[1])
  {
    var s1 := s[..1];
    assert s1[..0] == [];
    assert Value(s1) == DigitOf(s[0]);
    assert s[..|s| - 1] == s1;
  }

  lemma ParseRotExamples()
    ensures ParseRot("L68") == Ok(-68) && ParseRot("R48") == Ok(48)
  {
    ValueTwoDigits("L68"[1..]);
    ValueTwoDigits("R48"[1..]);
  }

  /** The text of a rotation, as the input writes it: 'L' and the number
      of clicks for a left turn, 'R' and the number otherwise. */
  function RotText(m: int): (s: string)
    ensures |s| >= 2 && s[0] in "LR" && '\n' !in s
  {
    [if m < 0 then 'L' else 'R'] + ToDecimal(Abs(m))
  }

  /** parserot reads back every rotation's text. */
  lemma RotTextRoundTrip(m: int)
    ensures ParseRot(RotText(m)) == Ok(m)
  {
    var s := RotText(m);
    assert s[1..] == ToDecimal(Abs(m));
  }

  /** The lines of a list of rotations. */
  function RotLines(moves: seq<int>): (ls: seq<string>)
    ensures |ls| == |moves|
  {
    seq(|moves|, k requires 0 <= k < |moves| => RotText(moves[k]))
  }

  /** getmoves reads back the text file of any non-empty list of rotations,
      one per line. */
  lemma GetMovesRoundTrip(moves: seq<int>)
    requires moves != []
    ensures GetMoves(Join(RotLines(moves), '\n') + "\n") == Ok(moves)
  {
    var ls := RotLines(moves);
    forall k | 0 <= k < |ls|
      ensures '\n' !in ls[k] && ls[k] != [] && ParseRot(ls[k]) == Ok(moves[k])
    {
      RotTextRoundTrip(moves[k]);
    }
    SplitOfTerminated(ls, '\n', false);
    ParseAllOk(ls, ParseRot, moves);
  }

  /** The rotations of the sample in tests(). */
  const SampleMoves: seq<int> := [-68, -30, 48, -5, 60, -55, -1, -99, 14, -82]

  lemma SamplePass()
    ensures GetPass(SampleMoves, InitialDial) == 3
  {
    var m := SampleMoves;
    SamplePassHalf();
    assert m[..6][..5] == m[..5];
    assert PassFold(m[..6], 50) == (0, 2);
    assert m[..7][..6] == m[..6];
    assert PassFold(m[..7], 50) == (99, 2);
    assert m[..8][..7] == m[..7];
    assert PassFold(m[..8], 50) == (0, 3);
    assert m[..9][..8] == m[..8];
    assert PassFold(m[..9], 50) == (14, 3);
    assert m[..9] == m[..|m| - 1];
  }

  lemma SamplePassHalf()
    ensures PassFold(SampleMoves[..5], 50) == (55, 1)
  {
    var m := SampleMoves;
    assert PassFold(m[..1], 50) == (82, 0);
    assert PassFold(m[..2], 50) == (52, 0);
    assert m[..3][..2] == m[..2];
    assert PassFold(m[..3], 50) == (0, 1);
    assert m[..4][..3] == m[..3];
    assert PassFold(m[..4], 50) == (95, 1);
    assert m[..5][..4] == m[..4];
  }

  lemma SampleClicks()
    ensures GetPassClicks(SampleMoves) == 6
  {
    var m := SampleMoves;
    SampleClicksHalf();
    assert m[..6][..5] == m[..5];
    assert ClickFold(m[..6]) == (0, 4);
    assert m[..7][..6] == m[..6];
    assert ClickFold(m[..7]) == (99, 4);
    assert m[..8][..7] == m[..7];
    assert ClickFold(m[..8]) == (0, 5);
    assert m[..9][..8] == m[..8];
    assert ClickFold(m[..9]) == (14, 5);
    assert m[..9] == m[..|m| - 1];
  }

  lemma SampleClicksHalf()
    ensures ClickFold(SampleMoves[..5]) == (55, 3)
  {
    var m := SampleMoves;
    assert ClickFold(m[..1]) == (82, 1);
    assert ClickFold(m[..2]) == (52, 1);
    assert m[..3][..2] == m[..2];
    assert ClickFold(m[..3]) == (0, 2);
    assert m[..4][..3] == m[..3];
    assert ClickFold(m[..4]) == (95, 2);
    assert m[..5][..4] == m[..4];
  }

  /** The sample of tests(), as the text of its rotations: part 1 gives 3
      and part 2 gives 6. */
  lemma SampleAnswers()
    ensures Part1(Join(RotLines(SampleMoves), '\n') + "\n") == Ok(3)
    ensures Part2(Join(RotLines(SampleMoves), '\n') + "\n") == Ok(6)
  {
    GetMovesRoundTrip(SampleMoves);
    SamplePass();
    SampleClicks();
  }

  /** The crossings of tests(). */
  lemma CrossesZeroExamples()
    ensures CrossesZero(50, 200) == 2 && CrossesZero(50, -200) == 2
    ensures CrossesZero(0, 100) == 1 && CrossesZero(0, -100) == 1
    ensures CrossesZero(50, 150) == 2
    ensures CrossesZero(50, 1000) == 10
  {
  }
}
