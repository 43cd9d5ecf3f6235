/** Day 6 (src/day6.cpp): a worksheet of arithmetic problems written side
    by side. The last line names one operation per problem; the lines above
    it hold the operands. Part 1 reads the operands of problem k as the
    k-th space-separated number of every line; part 2 reads them column by
    column, the digits of one operand running down a column and the
    problems separated by columns of spaces. Each part adds up the answers. */
module Day6 {
  import opened Wrappers
  import opened Text
  import opened Decimal
  import opened Blocks

  /** The three function objects a problem can hold: std::plus, std::minus
      and std::multiplies. */
  datatype Op = Plus | Minus | Times

  /** A problem: its operands in the order they were read, and its operation. */
  datatype Problem = Problem(numbers: seq<nat>, op: Op)

  function Apply(op: Op, a: int, b: int): int {
    match op
    case Plus => a + b
    case Minus => a - b
    case Times => a * b
  }

  /** std::accumulate: `acc` combined with each element in turn, from the left. */
  function Fold(op: Op, acc: int, xs: seq<nat>): int {
    if xs == [] then acc else Apply(op, Fold(op, acc, xs[..|xs| - 1]), xs[|xs| - 1])
  }

  /** Problem::answer: the fold of the numbers after the first, starting
      from the first. numbers.front() of an empty vector is undefined, so
      the model requires a number. */
  function Answer(p: Problem): (r: int)
    requires p.numbers != []
    ensures p.op == Plus ==> r == Sum(p.numbers)
    ensures p.op == Minus ==> r == p.numbers[0] - Sum(p.numbers[1..])
    ensures p.op == Times ==> r == Product(p.numbers)
  {
    FoldSum(p.numbers[0], p.numbers[1..]);
    FoldProduct(p.numbers[0], p.numbers[1..]);
    Fold(p.op, p.numbers[0], p.numbers[1..])
  }

  /** Reference definitions, by recursion from the front. */
  function Sum(xs: seq<nat>): int {
    if xs == [] then 0 else xs[0] + Sum(xs[1..])
  }

  function Product(xs: seq<nat>): int {
    if xs == [] then 1 else xs[0] * Product(xs[1..])
  }

  lemma {:induction false} SumSnoc(xs: seq<nat>, x: nat)
    ensures Sum(xs + [x]) == Sum(xs) + x
  {
    if xs != [] {
      assert (xs + [x])[1..] == xs[1..] + [x];
      SumSnoc(xs[1..], x);
    }
  }

  lemma {:induction false} ProductSnoc(xs: seq<nat>, x: nat)
    ensures Product(xs + [x]) == Product(xs) * x
  {
    if xs != [] {
      assert (xs + [x])[1..] == xs[1..] + [x];
      ProductSnoc(xs[1..], x);
      assert xs[0] * (Product(xs[1..]) * x) == (xs[0] * Product(xs[1..])) * x;
    }
  }

  lemma {:induction false} FoldSum(acc: int, xs: seq<nat>)
    ensures Fold(Plus, acc, xs) == acc + Sum(xs)
    ensures Fold(Minus, acc, xs) == acc - Sum(xs)
  {
    if xs != [] {
      var init, x := xs[..|xs| - 1], xs[|xs| - 1];
      FoldSum(acc, init);
      SumSnoc(init, x);
      assert init + [x] == xs;
    }
  }

  lemma {:induction false} FoldProduct(acc: int, xs: seq<nat>)
    ensures Fold(Times, acc, xs) == acc * Product(xs)
  {
    if xs != [] {
      var init, x := xs[..|xs| - 1], xs[|xs| - 1];
      FoldProduct(acc, init);
      ProductSnoc(init, x);
      assert init + [x] == xs;
      assert (acc * Product(init)) * x == acc * (Product(init) * x);
    }
  }

  /** How each operation is written on the last line. */
  function Symbol(op: Op): string {
    match op
    case Plus => "+"
    case Minus => "-"
    case Times => "*"
  }

  /** The lambda that turns one token of the last line into an operation:
      exactly one of the three symbols, anything else throws. A token is an
      operation exactly when it is one of the symbols, and it then reads as
      the operation it names. */
  function ParseOp(token: string): (r: Result<Op>)
    ensures r.Ok? <==> token == "+" || token == "-" || token == "*"
    ensures r.Ok? ==> Symbol(r.value) == token
  {
    if |token| != 1 then
      Err
    else
      assert token == [token[0]];
      match token[0]
      case '+' => Ok(Plus)
      case '-' => Ok(Minus)
      case '*' => Ok(Times)
      case _ => Err
  }

  /** One problem per operation, with no numbers yet. */
  function Unsolved(ops: seq<Op>): seq<Problem> {
    seq(|ops|, k requires 0 <= k < |ops| => Problem([], ops[k]))
  }

  /** The std::ranges::transform over split_at(lines.back(), ' '). */
  function Operators(line: string): (r: Result<seq<Problem>>)
    ensures r.Ok? ==> |r.value| == |Split(line, ' ', false)|
  {
    var ops :- ParseAll(Split(line, ' ', false), ParseOp);
    Ok(Unsolved(ops))
  }

  predicate IsSymbol(token: string) {
    token == "+" || token == "-" || token == "*"
  }

  /** The operator line is accepted exactly when every token is one of the
      three symbols; there is then one problem per token, with the
      operation that token names and no numbers yet. */
  lemma OperatorsRead(line: string, tokens: seq<string>)
    requires tokens == Split(line, ' ', false)
    ensures Operators(line).Ok? <==> forall k :: 0 <= k < |tokens| ==> IsSymbol(tokens[k])
    ensures Operators(line).Ok? ==>
      forall k :: 0 <= k < |tokens| ==>
        Operators(line).value[k].numbers == [] && Symbol(Operators(line).value[k].op) == tokens[k]
  {
    if Operators(line).Ok? {
      ParseAllValues(tokens, ParseOp);
    } else if forall k :: 0 <= k < |tokens| ==> ParseOp(tokens[k]).Ok? {
      ParseAllOk(tokens, ParseOp, seq(|tokens|, k requires 0 <= k < |tokens| => ParseOp(tokens[k]).value));
    }
  }

  // Part 1: numbers read along the lines.

  /** The numbers of one operand line: its space-separated tokens, each
      read by `parse` (std::stoll in the program). */
  function RowReader(parse: string -> Result<nat>): string -> Result<seq<nat>> {
    line => ParseAll(Split(line, ' ', false), parse)
  }

  /** The k-th number of every row that has one, in row order. */
  function Column(rows: seq<seq<nat>>, k: nat): seq<nat> {
    if rows == [] then
      []
    else
      var last := rows[|rows| - 1];
      Column(rows[..|rows| - 1], k) + if k < |last| then [last[k]] else []
  }

  /** No row has more numbers than there are problems (problems.at(idx)
      throws otherwise). */
  predicate Fits(rows: seq<seq<nat>>, n: nat) {
    forall r :: 0 <= r < |rows| ==> |rows[r]| <= n
  }

  /** Problem k extended by the k-th column of the rows. */
  function Columns(ps: seq<Problem>, rows: seq<seq<nat>>): seq<Problem> {
    seq(|ps|, k requires 0 <= k < |ps| => Problem(ps[k].numbers + Column(rows, k), ps[k].op))
  }

  /** Reading every operand line into the problems. */
  function Fill(ps: seq<Problem>, lines: seq<string>, parse: string -> Result<nat>): (r: Result<seq<Problem>>)
    ensures r.Ok? ==> ParseAll(lines, RowReader(parse)).Ok? && Fits(ParseAll(lines, RowReader(parse)).value, |ps|)
  {
    var rows :- ParseAll(lines, RowReader(parse));
    if Fits(rows, |ps|) then Ok(Columns(ps, rows)) else Err
  }

  /** The opening both parsers share: the lines of the input and the
      problems of its last line. An input shorter than two characters
      fails the CHECK; text without a line makes lines.back() undefined
      and is rejected too. */
  function Worksheet(input: string): (r: Result<(seq<string>, seq<Problem>)>)
    ensures r.Ok? ==> r.value.0 != []
  {
    if |input| < 2 then Err else LastOperators(Lines(input))
  }

  /** The lines with the problems of the last one; no lines is an error. */
  function LastOperators(lines: seq<string>): (r: Result<(seq<string>, seq<Problem>)>)
    ensures r.Ok? ==> r.value.0 == lines != []
  {
    if lines == [] then
      Err
    else
      var ps :- Operators(lines[|lines| - 1]);
      Ok((lines, ps))
  }

  method ReadWorksheet(input: string) returns (r: Result<(seq<string>, seq<Problem>)>)
    ensures r == Worksheet(input)
  {
    if |input| < 2 {
      return Err;
    }
    var lines := SplitLines(input);
    if lines == [] {
      return Err;
    }
    var ps := Operators(lines[|lines| - 1]);
    if ps.Err? {
      return Err;
    }
    r := Ok((lines, ps.value));
  }

  /** parse_input: each operand line adds its k-th number to problem k. */
  function ParseSpec(input: string): Result<seq<Problem>> {
    var w :- Worksheet(input);
    var lines := w.0;
    Fill(w.1, lines[..|lines| - 1], Parse)
  }

  /** When every line has a number for a problem, that problem holds the
      numbers of its column, line by line. */
  lemma {:induction false} ColumnFull(rows: seq<seq<nat>>, k: nat)
    requires forall r :: 0 <= r < |rows| ==> k < |rows[r]|
    ensures |Column(rows, k)| == |rows|
    ensures forall r :: 0 <= r < |rows| ==> Column(rows, k)[r] == rows[r][k]
  {
    if rows != [] {
      ColumnFull(rows[..|rows| - 1], k);
    }
  }

  /** What pushing one line's numbers onto the problems yields. */
  function AddRow(ps: seq<Problem>, elems: seq<string>, parse: string -> Result<nat>): Result<seq<Problem>> {
    var row :- ParseAll(elems, parse);
    if |row| <= |ps| then Ok(Extend(ps, row)) else Err
  }

  /** Problem k with row[k] appended, for every k the row reaches. */
  function Extend(ps: seq<Problem>, row: seq<nat>): seq<Problem>
    requires |row| <= |ps|
  {
    seq(|ps|, k requires 0 <= k < |ps| =>
      if k < |row| then Problem(ps[k].numbers + [row[k]], ps[k].op) else ps[k])
  }

  /** The `for (idx ...)` loop of parse_input's for_each, with the
      conversion as a parameter. */
  method PushRow(ps: seq<Problem>, elems: seq<string>, parse: string -> Result<nat>)
    returns (r: Result<seq<Problem>>)
    ensures r == AddRow(ps, elems, parse)
  {
    var cur := ps;
    ghost var row: seq<nat> := [];
    var idx := 0;
    while idx < |elems|
      invariant idx <= |elems| && idx <= |ps|
      invariant ParseAll(elems[..idx], parse) == Ok(row)
      invariant |row| == idx
      invariant cur == Extend(ps, row)
    {
      if idx >= |cur| {
        assert ParseAll(elems, parse).Ok? ==> |ParseAll(elems, parse).value| > |ps|;
        return Err;
      }
      var v := parse(elems[idx]);
      if v.Err? {
        ParseAllFails(elems, parse, idx);
        return Err;
      }
      ParseAllStep(elems, parse, idx, row, v.value);
      cur := cur[idx := Problem(cur[idx].numbers + [v.value], cur[idx].op)];
      row := row + [v.value];
      idx := idx + 1;
    }
    assert elems[..idx] == elems;
    r := Ok(cur);
  }

  /** One more row of numbers: the columns grow by its entries. */
  lemma ColumnsStep(ps: seq<Problem>, rows: seq<seq<nat>>, row: seq<nat>)
    requires |row| <= |ps|
    ensures Extend(Columns(ps, rows), row) == Columns(ps, rows + [row])
  {
    SnocParts(rows, row);
    forall k | 0 <= k < |ps|
      ensures Extend(Columns(ps, rows), row)[k] == Columns(ps, rows + [row])[k]
    {
    }
  }

  /** A line that does not fit the problems makes the whole read fail. */
  lemma FillFails(ps: seq<Problem>, lines: seq<string>, parse: string -> Result<nat>, i: nat)
    requires i < |lines|
    requires AddRow(ps, Split(lines[i], ' ', false), parse).Err?
    ensures Fill(ps, lines, parse) == Err
  {
    if RowReader(parse)(lines[i]).Err? {
      ParseAllFails(lines, RowReader(parse), i);
    } else if ParseAll(lines, RowReader(parse)).Ok? {
      ParseAllValues(lines, RowReader(parse));
    }
  }

  /** The state of parse_input's for_each over the operand lines after `i` lines. */
  ghost predicate RowsState(ps: seq<Problem>, lines: seq<string>, parse: string -> Result<nat>, i: nat,
                            rows: seq<seq<nat>>, cur: seq<Problem>) {
    i <= |lines| && ParseAll(lines[..i], RowReader(parse)) == Ok(rows) && Fits(rows, |ps|) && cur == Columns(ps, rows)
  }

  lemma RowStep(ps: seq<Problem>, lines: seq<string>, parse: string -> Result<nat>, i: nat,
                rows: seq<seq<nat>>, cur: seq<Problem>, row: seq<nat>, next: seq<Problem>)
    requires RowsState(ps, lines, parse, i, rows, cur) && i < |lines|
    requires AddRow(cur, Split(lines[i], ' ', false), parse) == Ok(next)
    requires ParseAll(Split(lines[i], ' ', false), parse) == Ok(row)
    ensures RowsState(ps, lines, parse, i + 1, rows + [row], next)
  {
    assert RowReader(parse)(lines[i]) == Ok(row);
    ParseAllStep(lines, RowReader(parse), i, rows, row);
    assert |row| <= |cur| == |ps|;
    ColumnsStep(ps, rows, row);
    assert Fits(rows + [row], |ps|) by {
      forall r | 0 <= r < |rows| + 1
        ensures |(rows + [row])[r]| <= |ps|
      {
        if r < |rows| {
          assert (rows + [row])[r] == rows[r];
        }
      }
    }
  }

  /** The for_each of parse_input over the operand lines. */
  method ReadRows(ps: seq<Problem>, lines: seq<string>, parse: string -> Result<nat>)
    returns (r: Result<seq<Problem>>)
    ensures r == Fill(ps, lines, parse)
  {
    var cur := ps;
    ghost var rows: seq<seq<nat>> := [];
    var i := 0;
    assert forall k :: 0 <= k < |ps| ==> Columns(ps, rows)[k] == ps[k];
    while i < |lines|
      invariant RowsState(ps, lines, parse, i, rows, cur)
    {
      var next;
      ghost var row;
      next, row := ReadLine(ps, lines, parse, i, rows, cur);
      if next.Err? {
        return Err;
      }
      cur := next.value;
      rows := rows + [row];
      i := i + 1;
    }
    assert lines[..i] == lines;
    r := Ok(cur);
  }

  /** One pass of parse_input's for_each: line `i` is pushed onto the
      problems, or the whole read fails. */
  method ReadLine(ps: seq<Problem>, lines: seq<string>, parse: string -> Result<nat>, i: nat,
                  ghost rows: seq<seq<nat>>, cur: seq<Problem>)
    returns (next: Result<seq<Problem>>, ghost row: seq<nat>)
    requires RowsState(ps, lines, parse, i, rows, cur) && i < |lines|
    ensures next.Err? ==> Fill(ps, lines, parse) == Err
    ensures next.Ok? ==> RowsState(ps, lines, parse, i + 1, rows + [row], next.value)
  {
    var elems := SplitAt(lines[i], ' ', false);
    next := PushRow(cur, elems, parse);
    row := [];
    if next.Err? {
      FillFails(ps, lines, parse, i);
      return;
    }
    row := ParseAll(elems, parse).value;
    RowStep(ps, lines, parse, i, rows, cur, row, next.value);
  }

  method ParseInput(input: string) returns (r: Result<seq<Problem>>)
    ensures r == ParseSpec(input)
  {
    var w := ReadWorksheet(input);
    if w.Err? {
      return Err;
    }
    var lines := w.value.0;
    r := ReadRows(w.value.1, lines[..|lines| - 1], Parse);
  }

  /** The sum of the answers; a problem without numbers has no answer. */
  function Total(ps: seq<Problem>): (r: Result<int>)
    ensures r.Ok? <==> forall k :: 0 <= k < |ps| ==> ps[k].numbers != []
  {
    if ps == [] then
      Ok(0)
    else
      var last := ps[|ps| - 1];
      var init :- Total(ps[..|ps| - 1]);
      if last.numbers == [] then Err else Ok(init + Answer(last))
  }

  function Part1Spec(input: string): Result<int> {
    var ps :- ParseSpec(input);
    Total(ps)
  }

  method Part1(input: string) returns (r: Result<int>)
    ensures r == Part1Spec(input)
  {
    var ps := ParseInput(input);
    if ps.Err? {
      return Err;
    }
    r := Total(ps.value);
  }

  // Part 2: numbers read down the columns.

  /** The all_of CHECK of parse_input_2: every operand line is as wide as the first line. */
  predicate SameWidth(lines: seq<string>)
    requires lines != []
  {
    forall l :: 0 <= l < |lines| - 1 ==> |lines[l]| == |lines[0]|
  }

  /** The columns of the operand rows, each read from top to bottom. */
  function Transpose(rows: seq<string>, width: nat): seq<string>
    requires forall l :: 0 <= l < |rows| ==> |rows[l]| == width
  {
    seq(width, c requires 0 <= c < width => seq(|rows|, l requires 0 <= l < |rows| => rows[l][c]))
  }

  /** The `for (iwidth ...)` loops of parse_input_2 building one atom per column. */
  method Atoms(rows: seq<string>, width: nat) returns (atoms: seq<string>)
    requires forall l :: 0 <= l < |rows| ==> |rows[l]| == width
    ensures atoms == Transpose(rows, width)
  {
    atoms := [];
    var iwidth := 0;
    while iwidth < width
      invariant iwidth <= width && |atoms| == iwidth
      invariant forall c :: 0 <= c < iwidth ==> atoms[c] == Transpose(rows, width)[c]
    {
      if |atoms| <= iwidth {
        atoms := atoms + [[]];
      }
      var iline := 0;
      while iline < |rows|
        invariant iline <= |rows| && |atoms| == iwidth + 1
        invariant forall c :: 0 <= c < iwidth ==> atoms[c] == Transpose(rows, width)[c]
        invariant atoms[iwidth] == Transpose(rows, width)[iwidth][..iline]
      {
        atoms := atoms[iwidth := atoms[iwidth] + [rows[iline][iwidth]]];
        iline := iline + 1;
      }
      iwidth := iwidth + 1;
    }
  }

  /** The all_of test of parse_input_2's while loop: a column of spaces separates problems. */
  predicate Blank(atom: string) {
    forall t :: 0 <= t < |atom| ==> atom[t] == ' '
  }

  /** The columns cut at the blank ones: group g holds the columns of
      problem g, and every blank column starts a new group. */
  function Groups(atoms: seq<string>): (gs: seq<seq<string>>)
    ensures |gs| >= 1
  {
    if atoms == [] then
      [[]]
    else
      var gs := Groups(atoms[..|atoms| - 1]);
      var a := atoms[|atoms| - 1];
      if Blank(a) then gs + [[]] else gs[..|gs| - 1] + [gs[|gs| - 1] + [a]]
  }

  /** Group g, or nothing past the last group. */
  function GroupAt(gs: seq<seq<string>>, g: nat): seq<string> {
    if g < |gs| then gs[g] else []
  }

  /** The numbers of the first n groups, each column read by `parse`. */
  function Numbers(gs: seq<seq<string>>, n: nat, parse: string -> Result<nat>): (r: Result<seq<seq<nat>>>)
    ensures r.Ok? ==> |r.value| == n
  {
    if n == 0 then
      Ok([])
    else
      var init :- Numbers(gs, n - 1, parse);
      var last :- ParseAll(GroupAt(gs, n - 1), parse);
      Ok(init + [last])
  }

  function Append(ps: seq<Problem>, nums: seq<seq<nat>>): seq<Problem>
    requires |nums| == |ps|
  {
    seq(|ps|, k requires 0 <= k < |ps| => Problem(ps[k].numbers + nums[k], ps[k].op))
  }

  /** Problem k receives the numbers of column group k; groups past the
      last problem are never read. */
  function Gathered(ps: seq<Problem>, atoms: seq<string>, parse: string -> Result<nat>): Result<seq<Problem>> {
    var nums :- Numbers(Groups(atoms), |ps|, parse);
    Ok(Append(ps, nums))
  }

  /** parse_input_2. */
  function Parse2Spec(input: string): Result<seq<Problem>> {
    var w :- Worksheet(input);
    var lines := w.0;
    if !SameWidth(lines) then
      Err
    else
      Gathered(w.1, Transpose(lines[..|lines| - 1], |lines[0]|), Parse)
  }

  /** `hs` continues the groups `gs`: the groups before the last of `gs`
      are unchanged and its last group is a prefix of the same group in `hs`. */
  predicate Extends(gs: seq<seq<string>>, hs: seq<seq<string>>) {
    var m := |gs| - 1;
    1 <= |gs| <= |hs| &&
    (forall g :: 0 <= g < m ==> hs[g] == gs[g]) &&
    |gs[m]| <= |hs[m]| && hs[m][..|gs[m]|] == gs[m]
  }

  lemma ExtendsTrans(a: seq<seq<string>>, b: seq<seq<string>>, c: seq<seq<string>>)
    requires Extends(a, b) && Extends(b, c)
    ensures Extends(a, c)
  {
    var m := |a| - 1;
    if m < |b| - 1 {
      assert c[m] == b[m];
    } else {
      assert c[m][..|b[m]|][..|a[m]|] == c[m][..|a[m]|];
    }
  }

  lemma GroupsStep(atoms: seq<string>, i: nat)
    requires i < |atoms|
    ensures Extends(Groups(atoms[..i]), Groups(atoms[..i + 1]))
  {
    assert atoms[..i + 1][..i] == atoms[..i];
    var gs := Groups(atoms[..i]);
    var m := |gs| - 1;
    if !Blank(atoms[i]) {
      assert (gs[m] + [atoms[i]])[..|gs[m]|] == gs[m];
    }
  }

  /** Groups only grow at the end as columns are added. */
  lemma {:induction false} GroupsGrow(atoms: seq<string>, i: nat, j: nat)
    requires i <= j <= |atoms|
    ensures Extends(Groups(atoms[..i]), Groups(atoms[..j]))
    decreases j - i
  {
    if i < j {
      GroupsStep(atoms, i);
      GroupsGrow(atoms, i + 1, j);
      ExtendsTrans(Groups(atoms[..i]), Groups(atoms[..i + 1]), Groups(atoms[..j]));
    } else {
      var gs := Groups(atoms[..i]);
      assert gs[|gs| - 1][..|gs[|gs| - 1]|] == gs[|gs| - 1];
    }
  }

  /** Numbers reads only the first n groups. */
  lemma {:induction false} NumbersPrefix(gs: seq<seq<string>>, hs: seq<seq<string>>, n: nat, parse: string -> Result<nat>)
    requires forall g :: 0 <= g < n ==> GroupAt(gs, g) == GroupAt(hs, g)
    ensures Numbers(gs, n, parse) == Numbers(hs, n, parse)
  {
    if n > 0 {
      NumbersPrefix(gs, hs, n - 1, parse);
    }
  }

  /** A column that fails to parse in one of the first n groups fails the read. */
  lemma {:induction false} NumbersFails(gs: seq<seq<string>>, n: nat, parse: string -> Result<nat>, g: nat, t: nat)
    requires g < n && t < |GroupAt(gs, g)| && parse(GroupAt(gs, g)[t]).Err?
    ensures Numbers(gs, n, parse) == Err
  {
    if g < n - 1 {
      NumbersFails(gs, n - 1, parse, g, t);
    } else {
      ParseAllFails(GroupAt(gs, g), parse, t);
    }
  }

  /** One more column in group m < n: its number joins group m's numbers. */
  lemma {:induction false} NumbersExtend(gs: seq<seq<string>>, hs: seq<seq<string>>, n: nat,
                                         parse: string -> Result<nat>, m: nat, a: string, x: nat,
                                         nums: seq<seq<nat>>)
    requires m < n && parse(a) == Ok(x) && Numbers(gs, n, parse) == Ok(nums)
    requires forall g :: 0 <= g < n && g != m ==> GroupAt(gs, g) == GroupAt(hs, g)
    requires GroupAt(hs, m) == GroupAt(gs, m) + [a]
    ensures Numbers(hs, n, parse) == Ok(nums[m := nums[m] + [x]])
    decreases n, 1
  {
    if m < n - 1 {
      NumbersExtendBefore(gs, hs, n, parse, m, a, x, nums);
    } else {
      NumbersExtendAt(gs, hs, n, parse, a, x, nums);
    }
  }

  lemma {:induction false} NumbersExtendBefore(gs: seq<seq<string>>, hs: seq<seq<string>>, n: nat,
                                               parse: string -> Result<nat>, m: nat, a: string, x: nat,
                                               nums: seq<seq<nat>>)
    requires m < n - 1 && parse(a) == Ok(x) && Numbers(gs, n, parse) == Ok(nums)
    requires forall g :: 0 <= g < n && g != m ==> GroupAt(gs, g) == GroupAt(hs, g)
    requires GroupAt(hs, m) == GroupAt(gs, m) + [a]
    ensures Numbers(hs, n, parse) == Ok(nums[m := nums[m] + [x]])
    decreases n, 0
  {
    var init, last := nums[..n - 1], nums[n - 1];
    NumbersSplit(gs, n, parse, nums);
    NumbersExtend(gs, hs, n - 1, parse, m, a, x, init);
    assert GroupAt(hs, n - 1) == GroupAt(gs, n - 1);
    NumbersSnoc(hs, n, parse, init[m := init[m] + [x]], last);
    assert init[m := init[m] + [x]] + [last] == nums[m := nums[m] + [x]];
  }

  lemma NumbersExtendAt(gs: seq<seq<string>>, hs: seq<seq<string>>, n: nat,
                        parse: string -> Result<nat>, a: string, x: nat, nums: seq<seq<nat>>)
    requires 0 < n && parse(a) == Ok(x) && Numbers(gs, n, parse) == Ok(nums)
    requires forall g :: 0 <= g < n - 1 ==> GroupAt(gs, g) == GroupAt(hs, g)
    requires GroupAt(hs, n - 1) == GroupAt(gs, n - 1) + [a]
    ensures Numbers(hs, n, parse) == Ok(nums[n - 1 := nums[n - 1] + [x]])
  {
    var init, last := nums[..n - 1], nums[n - 1];
    NumbersSplit(gs, n, parse, nums);
    NumbersPrefix(gs, hs, n - 1, parse);
    NumbersExtendLast(GroupAt(gs, n - 1), GroupAt(hs, n - 1), parse, a, x, last);
    NumbersSnoc(hs, n, parse, init, last + [x]);
    assert init + [last + [x]] == nums[n - 1 := nums[n - 1] + [x]];
  }

  lemma NumbersSplit(gs: seq<seq<string>>, n: nat, parse: string -> Result<nat>, nums: seq<seq<nat>>)
    requires n > 0 && Numbers(gs, n, parse) == Ok(nums)
    ensures Numbers(gs, n - 1, parse) == Ok(nums[..n - 1])
    ensures ParseAll(GroupAt(gs, n - 1), parse) == Ok(nums[n - 1])
  {
  }

  lemma NumbersSnoc(gs: seq<seq<string>>, n: nat, parse: string -> Result<nat>, init: seq<seq<nat>>, last: seq<nat>)
    requires n > 0 && Numbers(gs, n - 1, parse) == Ok(init)
    requires ParseAll(GroupAt(gs, n - 1), parse) == Ok(last)
    ensures Numbers(gs, n, parse) == Ok(init + [last])
  {
  }

  lemma NumbersExtendLast(g: seq<string>, h: seq<string>, parse: string -> Result<nat>, a: string, x: nat,
                          last: seq<nat>)
    requires parse(a) == Ok(x) && ParseAll(g, parse) == Ok(last) && h == g + [a]
    ensures ParseAll(h, parse) == Ok(last + [x])
  {
    assert h[..|g|] == g;
    ParseAllStep(h, parse, |g|, last, x);
    assert h[..|g| + 1] == h;
  }

  /** How one more column changes the groups. */
  lemma GroupsNext(atoms: seq<string>, i: nat, gs: seq<seq<string>>, hs: seq<seq<string>>)
    requires i < |atoms| && gs == Groups(atoms[..i]) && hs == Groups(atoms[..i + 1])
    ensures Blank(atoms[i]) ==> |hs| == |gs| + 1 && forall g: nat :: GroupAt(hs, g) == GroupAt(gs, g)
    ensures !Blank(atoms[i]) ==>
      |hs| == |gs| &&
      (forall g: nat :: g != |gs| - 1 ==> GroupAt(hs, g) == GroupAt(gs, g)) &&
      GroupAt(hs, |gs| - 1) == GroupAt(gs, |gs| - 1) + [atoms[i]]
  {
    assert atoms[..i + 1][..i] == atoms[..i];
  }

  /** A column that fails to convert, in the group of one of the first n
      problems, fails the whole read. */
  lemma ColumnFails(atoms: seq<string>, i: nat, parse: string -> Result<nat>, n: nat)
    requires i < |atoms| && !Blank(atoms[i]) && parse(atoms[i]).Err?
    requires |Groups(atoms[..i])| - 1 < n
    ensures Numbers(Groups(atoms), n, parse) == Err
  {
    var gs, hs := Groups(atoms[..i]), Groups(atoms[..i + 1]);
    var m := |gs| - 1;
    GroupsNext(atoms, i, gs, hs);
    GroupsGrow(atoms, i + 1, |atoms|);
    assert atoms[..|atoms|] == atoms;
    var full := Groups(atoms);
    assert hs[m] == gs[m] + [atoms[i]];
    assert full[m][..|hs[m]|] == hs[m];
    assert hs[m][|gs[m]|] == atoms[i];
    assert full[m][|gs[m]|] == atoms[i];
    NumbersFails(full, n, parse, m, |gs[m]|);
  }

  lemma AppendStep(ps: seq<Problem>, nums: seq<seq<nat>>, m: nat, x: nat)
    requires |nums| == |ps| && m < |ps|
    ensures Append(ps, nums)[m := Problem(Append(ps, nums)[m].numbers + [x], ps[m].op)]
         == Append(ps, nums[m := nums[m] + [x]])
  {
    var lhs := Append(ps, nums)[m := Problem(Append(ps, nums)[m].numbers + [x], ps[m].op)];
    assert forall k :: 0 <= k < |ps| ==> lhs[k] == Append(ps, nums[m := nums[m] + [x]])[k];
  }

  /** The state of parse_input_2's while loop after `iatom` columns: the
      groups seen so far, the current problem is the last of them, and each
      problem holds the numbers of its group. */
  ghost predicate GatherState(ps: seq<Problem>, atoms: seq<string>, parse: string -> Result<nat>,
                               iatom: nat, iprob: nat, gs: seq<seq<string>>, nums: seq<seq<nat>>,
                               cur: seq<Problem>)
  {
    iatom <= |atoms| && gs == Groups(atoms[..iatom]) && iprob == |gs| - 1 <= |ps| &&
    Numbers(gs, |ps|, parse) == Ok(nums) && cur == Append(ps, nums)
  }

  lemma BlankStep(ps: seq<Problem>, atoms: seq<string>, parse: string -> Result<nat>,
                  iatom: nat, iprob: nat, gs: seq<seq<string>>, nums: seq<seq<nat>>, cur: seq<Problem>)
    requires GatherState(ps, atoms, parse, iatom, iprob, gs, nums, cur)
    requires iatom < |atoms| && iprob < |ps| && Blank(atoms[iatom])
    ensures GatherState(ps, atoms, parse, iatom + 1, iprob + 1, Groups(atoms[..iatom + 1]), nums, cur)
  {
    var hs := Groups(atoms[..iatom + 1]);
    GroupsNext(atoms, iatom, gs, hs);
    NumbersPrefix(gs, hs, |ps|, parse);
  }

  lemma NumberStep(ps: seq<Problem>, atoms: seq<string>, parse: string -> Result<nat>,
                   iatom: nat, iprob: nat, gs: seq<seq<string>>, nums: seq<seq<nat>>, cur: seq<Problem>, x: nat)
    requires GatherState(ps, atoms, parse, iatom, iprob, gs, nums, cur)
    requires iatom < |atoms| && iprob < |ps| && !Blank(atoms[iatom]) && parse(atoms[iatom]) == Ok(x)
    ensures GatherState(ps, atoms, parse, iatom + 1, iprob, Groups(atoms[..iatom + 1]),
                        nums[iprob := nums[iprob] + [x]],
                        cur[iprob := Problem(cur[iprob].numbers + [x], cur[iprob].op)])
  {
    var hs := Groups(atoms[..iatom + 1]);
    GroupsNext(atoms, iatom, gs, hs);
    NumbersExtend(gs, hs, |ps|, parse, iprob, atoms[iatom], x, nums);
    AppendStep(ps, nums, iprob, x);
  }

  lemma GatherDone(ps: seq<Problem>, atoms: seq<string>, parse: string -> Result<nat>,
                   iatom: nat, iprob: nat, gs: seq<seq<string>>, nums: seq<seq<nat>>, cur: seq<Problem>)
    requires GatherState(ps, atoms, parse, iatom, iprob, gs, nums, cur)
    requires iprob == |ps| || iatom == |atoms|
    ensures Gathered(ps, atoms, parse) == Ok(cur)
  {
    GroupsGrow(atoms, iatom, |atoms|);
    assert atoms[..|atoms|] == atoms;
    assert forall g :: 0 <= g < |ps| ==> GroupAt(gs, g) == GroupAt(Groups(atoms), g) by {
      if iatom < |atoms| {
        assert Extends(gs, Groups(atoms)) && iprob == |ps|;
      }
    }
    NumbersPrefix(gs, Groups(atoms), |ps|, parse);
  }

  /** The while loop of parse_input_2, with the conversion as a parameter:
      a blank column moves on to the next problem, any other column is
      converted and appended to the current one, until the problems or the
      columns run out. */
  method Gather(ps: seq<Problem>, atoms: seq<string>, parse: string -> Result<nat>)
    returns (r: Result<seq<Problem>>)
    ensures r == Gathered(ps, atoms, parse)
  {
    var cur := ps;
    ghost var nums := NoNumbers(|ps|);
    ghost var gs := Groups(atoms[..0]);
    var iprob := 0;
    var iatom := 0;
    NumbersEmpty(gs, |ps|, parse);
    assert forall k :: 0 <= k < |ps| ==> Append(ps, nums)[k] == ps[k];
    while iprob < |cur| && iatom < |atoms|
      invariant |cur| == |ps|
      invariant GatherState(ps, atoms, parse, iatom, iprob, gs, nums, cur)
      decreases |atoms| - iatom
    {
      var a := atoms[iatom];
      if Blank(a) {
        BlankStep(ps, atoms, parse, iatom, iprob, gs, nums, cur);
        iprob := iprob + 1;
      } else {
        var v := parse(a);
        if v.Err? {
          ColumnFails(atoms, iatom, parse, |ps|);
          return Err;
        }
        NumberStep(ps, atoms, parse, iatom, iprob, gs, nums, cur, v.value);
        cur := cur[iprob := Problem(cur[iprob].numbers + [v.value], cur[iprob].op)];
        nums := nums[iprob := nums[iprob] + [v.value]];
      }
      gs := Groups(atoms[..iatom + 1]);
      iatom := iatom + 1;
    }
    GatherDone(ps, atoms, parse, iatom, iprob, gs, nums, cur);
    r := Ok(cur);
  }

  /** n problems' worth of no numbers. */
  function NoNumbers(n: nat): (ns: seq<seq<nat>>)
    ensures |ns| == n && forall k :: 0 <= k < n ==> ns[k] == []
  {
    if n == 0 then [] else NoNumbers(n - 1) + [[]]
  }

  lemma {:induction false} NumbersEmpty(gs: seq<seq<string>>, n: nat, parse: string -> Result<nat>)
    requires gs == [[]]
    ensures Numbers(gs, n, parse) == Ok(NoNumbers(n))
  {
    if n > 0 {
      NumbersEmpty(gs, n - 1, parse);
      assert GroupAt(gs, n - 1) == [];
    }
  }

  method ParseInput2(input: string) returns (r: Result<seq<Problem>>)
    ensures r == Parse2Spec(input)
  {
    var w := ReadWorksheet(input);
    if w.Err? {
      return Err;
    }
    var lines := w.value.0;
    var width := |lines[0]|;
    if !SameWidth(lines) {
      return Err;
    }
    var atoms := Atoms(lines[..|lines| - 1], width);
    r := Gather(w.value.1, atoms, Parse);
  }

  function Part2Spec(input: string): Result<int> {
    var ps :- Parse2Spec(input);
    Total(ps)
  }

  method Part2(input: string) returns (r: Result<int>)
    ensures r == Part2Spec(input)
  {
    var ps := ParseInput2(input);
    if ps.Err? {
      return Err;
    }
    r := Total(ps.value);
  }

  // Writing problems back as columns.

  /** Column groups written side by side with one separating column. */
  function Joined(gs: seq<seq<string>>, sep: string): seq<string>
    requires |gs| >= 1
  {
    if |gs| == 1 then gs[0] else Joined(gs[..|gs| - 1], sep) + [sep] + gs[|gs| - 1]
  }

  /** A column that is not blank extends the last group. */
  lemma GroupsSnocPlain(xs: seq<string>, a: string, init: seq<seq<string>>, last: seq<string>)
    requires !Blank(a) && Groups(xs) == init + [last]
    ensures Groups(xs + [a]) == init + [last + [a]]
  {
    assert (xs + [a])[..|xs|] == xs;
    SnocParts(init, last);
  }

  /** No column of `ys` is blank. */
  predicate NoneBlank(ys: seq<string>) {
    ys == [] || (NoneBlank(ys[..|ys| - 1]) && !Blank(ys[|ys| - 1]))
  }

  lemma {:induction false} NoneBlankAll(ys: seq<string>)
    requires forall t :: 0 <= t < |ys| ==> !Blank(ys[t])
    ensures NoneBlank(ys)
  {
    if ys != [] {
      NoneBlankAll(ys[..|ys| - 1]);
    }
  }

  /** Columns that are not blank only extend the last group. */
  lemma {:induction false} GroupsAppendPlain(xs: seq<string>, ys: seq<string>, init: seq<seq<string>>, last: seq<string>)
    requires NoneBlank(ys)
    requires Groups(xs) == init + [last]
    ensures Groups(xs + ys) == init + [last + ys]
  {
    if ys == [] {
      assert xs + ys == xs;
      assert last + ys == last;
    } else {
      var front, a := ys[..|ys| - 1], ys[|ys| - 1];
      GroupsAppendPlain(xs, front, init, last);
      GroupsSnocPlain(xs + front, a, init, last + front);
      AppendSnoc(xs, ys);
      AppendSnoc(last, ys);
    }
  }

  /** Reading the columns back cuts them into the groups that were written,
      when the separator is blank and no other column is. */
  lemma {:induction false} GroupsOfJoined(gs: seq<seq<string>>, sep: string)
    requires |gs| >= 1 && Blank(sep)
    requires forall g, t :: 0 <= g < |gs| && 0 <= t < |gs[g]| ==> !Blank(gs[g][t])
    ensures Groups(Joined(gs, sep)) == gs
  {
    if |gs| == 1 {
      NoneBlankAll(gs[0]);
      GroupsAppendPlain([], gs[0], [], []);
      assert [] + gs[0] == gs[0];
    } else {
      var init, last := gs[..|gs| - 1], gs[|gs| - 1];
      GroupsOfJoined(init, sep);
      var xs := Joined(init, sep) + [sep];
      assert xs[..|xs| - 1] == Joined(init, sep);
      assert Groups(xs) == init + [[]];
      NoneBlankAll(last);
      GroupsAppendPlain(xs, last, init, []);
      assert [] + last == last;
      SplitLast(gs);
    }
  }

  /** Each operation reads back from its symbol. */
  lemma ParseOpSymbol(op: Op)
    ensures ParseOp(Symbol(op)) == Ok(op)
  {
  }

  // The example of tests().

  lemma AnswerOfThree(p: Problem)
    requires |p.numbers| == 3
    ensures Answer(p) == Apply(p.op, Apply(p.op, p.numbers[0], p.numbers[1]), p.numbers[2])
  {
    var xs := p.numbers[1..];
    assert xs[..1][..0] == [];
    assert Fold(p.op, p.numbers[0], xs[..1]) == Apply(p.op, p.numbers[0], xs[0]);
    assert xs[..|xs| - 1] == xs[..1];
  }

  const SampleOps: seq<Op> := [Times, Plus, Times, Plus]

  /** The problems parse_input reads from the example. */
  const SampleProblems: seq<Problem> :=
    [Problem([123, 45, 6], Times), Problem([328, 64, 98], Plus),
     Problem([51, 387, 215], Times), Problem([64, 23, 314], Plus)]

  /** The problems parse_input_2 reads from the example. */
  const SampleProblems2: seq<Problem> :=
    [Problem([1, 24, 356], Times), Problem([369, 248, 8], Plus),
     Problem([32, 581, 175], Times), Problem([623, 431, 4], Plus)]

  /** The answers tests() checks and the two totals. */
  lemma SampleAnswers()
    ensures Answer(SampleProblems[0]) == 33210 && Answer(SampleProblems[1]) == 490
    ensures Answer(SampleProblems[2]) == 4243455 && Answer(SampleProblems[3]) == 401
    ensures Total(SampleProblems) == Ok(4277556)
    ensures Answer(SampleProblems2[0]) == 8544 && Answer(SampleProblems2[1]) == 625
    ensures Answer(SampleProblems2[2]) == 3253600 && Answer(SampleProblems2[3]) == 1058
    ensures Total(SampleProblems2) == Ok(3263827)
  {
    var ps, qs := SampleProblems, SampleProblems2;
    AnswerOfThree(ps[0]);
    AnswerOfThree(ps[1]);
    AnswerOfThree(ps[2]);
    AnswerOfThree(ps[3]);
    AnswerOfThree(qs[0]);
    AnswerOfThree(qs[1]);
    AnswerOfThree(qs[2]);
    AnswerOfThree(qs[3]);
    assert ps[..1][..0] == [] && Total(ps[..1]) == Ok(33210);
    assert ps[..2][..1] == ps[..1] && Total(ps[..2]) == Ok(33700);
    assert ps[..3][..2] == ps[..2] && Total(ps[..3]) == Ok(4277155);
    assert ps[..4][..3] == ps[..3] && ps[..4] == ps;
    assert qs[..1][..0] == [] && Total(qs[..1]) == Ok(8544);
    assert qs[..2][..1] == qs[..1] && Total(qs[..2]) == Ok(9169);
    assert qs[..3][..2] == qs[..2] && Total(qs[..3]) == Ok(3262769);
    assert qs[..4][..3] == qs[..3] && qs[..4] == qs;
  }

  // Worksheets written out from their problems, and read back.

  function Decimals(vs: seq<nat>): seq<string> {
    seq(|vs|, k requires 0 <= k < |vs| => ToDecimal(vs[k]))
  }

  function Symbols(ops: seq<Op>): seq<string> {
    seq(|ops|, k requires 0 <= k < |ops| => Symbol(ops[k]))
  }

  /** An operand line: the numbers as std::to_string writes them, laid out
      with the runs of spaces `gaps` says. */
  function RowLine(vs: seq<nat>, gaps: seq<nat>): string
    requires |vs| >= 1 && |gaps| == |vs| + 1
  {
    Join(Spaced(Decimals(vs), gaps), ' ')
  }

  /** The operator line, laid out the same way. */
  function OpLine(ops: seq<Op>, gaps: seq<nat>): string
    requires |ops| >= 1 && |gaps| == |ops| + 1
  {
    Join(Spaced(Symbols(ops), gaps), ' ')
  }

  /** An operand line, however spaced, reads back as its numbers. */
  lemma RowLineRead(vs: seq<nat>, gaps: seq<nat>)
    requires |vs| >= 1 && |gaps| == |vs| + 1
    ensures RowReader(Parse)(RowLine(vs, gaps)) == Ok(vs)
    ensures '\n' !in RowLine(vs, gaps) && RowLine(vs, gaps) != []
  {
    var ws := Decimals(vs);
    forall k | 0 <= k < |ws|
      ensures ws[k] != [] && ' ' !in ws[k] && '\n' !in ws[k] && Parse(ws[k]) == Ok(vs[k])
    {
      DigitsOnly(ws[k]);
    }
    SpacedLine(ws, gaps, ' ', '\n');
    ParseAllOk(ws, Parse, vs);
  }

  lemma DigitsOnly(s: string)
    requires AllDigits(s)
    ensures ' ' !in s && '\n' !in s
  {
  }

  /** The operator line, however spaced, reads back as its operations. */
  lemma OpLineRead(ops: seq<Op>, gaps: seq<nat>)
    requires |ops| >= 1 && |gaps| == |ops| + 1
    ensures Operators(OpLine(ops, gaps)) == Ok(Unsolved(ops))
    ensures '\n' !in OpLine(ops, gaps) && OpLine(ops, gaps) != []
  {
    var ws := Symbols(ops);
    forall k | 0 <= k < |ws|
      ensures ws[k] != [] && ' ' !in ws[k] && '\n' !in ws[k] && ParseOp(ws[k]) == Ok(ops[k])
    {
      ParseOpSymbol(ops[k]);
    }
    SpacedLine(ws, gaps, ' ', '\n');
    ParseAllOk(ws, ParseOp, ops);
  }

  /** The layout of a worksheet: one line per operand row and one operator
      line, each with its runs of spaces. */
  predicate Layout(rows: seq<seq<nat>>, rowGaps: seq<seq<nat>>, ops: seq<Op>, opGaps: seq<nat>) {
    |ops| >= 1 && |opGaps| == |ops| + 1 && |rowGaps| == |rows| &&
    forall l :: 0 <= l < |rows| ==> |rows[l]| >= 1 && |rowGaps[l]| == |rows[l]| + 1
  }

  function SheetLines(rows: seq<seq<nat>>, rowGaps: seq<seq<nat>>, ops: seq<Op>, opGaps: seq<nat>): seq<string>
    requires Layout(rows, rowGaps, ops, opGaps)
  {
    seq(|rows|, l requires 0 <= l < |rows| => RowLine(rows[l], rowGaps[l])) + [OpLine(ops, opGaps)]
  }

  /** The worksheet text, every line ended by a newline. */
  function Sheet(rows: seq<seq<nat>>, rowGaps: seq<seq<nat>>, ops: seq<Op>, opGaps: seq<nat>): string
    requires Layout(rows, rowGaps, ops, opGaps)
  {
    Join(SheetLines(rows, rowGaps, ops, opGaps), '\n') + "\n"
  }

  /** parse_input reads a written worksheet back: problem k holds the k-th
      number of every row that has one; a row longer than the operator line
      is rejected. */
  lemma SheetRead(rows: seq<seq<nat>>, rowGaps: seq<seq<nat>>, ops: seq<Op>, opGaps: seq<nat>)
    requires Layout(rows, rowGaps, ops, opGaps)
    ensures ParseSpec(Sheet(rows, rowGaps, ops, opGaps)) ==
      if Fits(rows, |ops|) then Ok(Columns(Unsolved(ops), rows)) else Err
  {
    var lines := SheetLines(rows, rowGaps, ops, opGaps);
    var text := Sheet(rows, rowGaps, ops, opGaps);
    SheetLinesRead(rows, rowGaps, ops, opGaps);
    assert |lines| == |rows| + 1;
    assert ParseSpec(text) == Fill(Unsolved(ops), lines[..|rows|], Parse);
    SheetRowsRead(rows, rowGaps, ops, opGaps);
    assert |Unsolved(ops)| == |ops|;
  }

  /** The operand lines of a written worksheet read back as its rows. */
  lemma SheetRowsRead(rows: seq<seq<nat>>, rowGaps: seq<seq<nat>>, ops: seq<Op>, opGaps: seq<nat>)
    requires Layout(rows, rowGaps, ops, opGaps)
    ensures ParseAll(SheetLines(rows, rowGaps, ops, opGaps)[..|rows|], RowReader(Parse)) == Ok(rows)
  {
    var operands := SheetLines(rows, rowGaps, ops, opGaps)[..|rows|];
    forall l | 0 <= l < |rows|
      ensures RowReader(Parse)(operands[l]) == Ok(rows[l])
    {
      assert operands[l] == RowLine(rows[l], rowGaps[l]);
      RowLineRead(rows[l], rowGaps[l]);
    }
    ParseAllOk(operands, RowReader(Parse), rows);
  }

  /** The lines of a written worksheet, and the problems of its operator line. */
  lemma SheetLinesRead(rows: seq<seq<nat>>, rowGaps: seq<seq<nat>>, ops: seq<Op>, opGaps: seq<nat>)
    requires Layout(rows, rowGaps, ops, opGaps)
    ensures Worksheet(Sheet(rows, rowGaps, ops, opGaps)) == Ok((SheetLines(rows, rowGaps, ops, opGaps), Unsolved(ops)))
  {
    var lines := seq(|rows|, l requires 0 <= l < |rows| => RowLine(rows[l], rowGaps[l]));
    forall l | 0 <= l < |rows|
      ensures '\n' !in lines[l] && lines[l] != []
    {
      RowLineRead(rows[l], rowGaps[l]);
    }
    OpLineRead(ops, opGaps);
    WorksheetOfLines(lines, OpLine(ops, opGaps), Unsolved(ops));
  }

  /** Operand lines without newlines, then an operator line, each ended by a
      newline: the worksheet's lines are those lines. */
  lemma WorksheetOfLines(lines: seq<string>, op: string, ps: seq<Problem>)
    requires Operators(op) == Ok(ps) && '\n' !in op && op != []
    requires forall l :: 0 <= l < |lines| ==> '\n' !in lines[l] && lines[l] != []
    ensures Worksheet(Join(lines + [op], '\n') + "\n") == Ok((lines + [op], ps))
  {
    var all := lines + [op];
    CleanLines(lines, op);
    SplitOfTerminated(all, '\n', false);
    JoinLast(all, '\n');
    WorksheetOf(Join(all, '\n') + "\n", all, ps);
  }

  /** None of the lines, the operator line included, holds a newline or is empty. */
  lemma CleanLines(lines: seq<string>, op: string)
    requires '\n' !in op && op != []
    requires forall l :: 0 <= l < |lines| ==> '\n' !in lines[l] && lines[l] != []
    ensures forall k :: 0 <= k < |lines + [op]| ==> '\n' !in (lines + [op])[k] && (lines + [op])[k] != []
  {
    forall k | 0 <= k < |lines + [op]|
      ensures '\n' !in (lines + [op])[k] && (lines + [op])[k] != []
    {
      if k < |lines| {
        assert (lines + [op])[k] == lines[k];
      }
    }
  }

  /** The joined text is at least as long as its last piece. */
  lemma JoinLast(ps: seq<string>, d: char)
    requires |ps| >= 1
    ensures |Join(ps, d)| >= |ps[|ps| - 1]|
  {
  }

  /** Text of at least two characters whose lines end with an operator line
      opens as those lines and that line's problems. */
  lemma WorksheetOf(text: string, lines: seq<string>, ps: seq<Problem>)
    requires |text| >= 2 && Lines(text) == lines && lines != []
    requires Operators(lines[|lines| - 1]) == Ok(ps)
    ensures Worksheet(text) == Ok((lines, ps))
  {
  }

  /** Text made of spaces. */
  function Spaces(n: nat): string {
    seq(n, _ => ' ')
  }

  /** One column of operand characters: a number written downwards with
      `above` spaces over it and `below` spaces under it. */
  function Atom(v: nat, above: nat, below: nat): string {
    Spaces(above) + ToDecimal(v) + Spaces(below)
  }

  /** A column reads back as its number, is not blank and has no newline. */
  lemma AtomRead(v: nat, above: nat, below: nat)
    ensures Parse(Atom(v, above, below)) == Ok(v)
    ensures !Blank(Atom(v, above, below)) && '\n' !in Atom(v, above, below)
  {
    ParseDecimal(Spaces(above), ToDecimal(v), Spaces(below));
    AtomChars(v, above, below);
  }

  /** A column holds spaces and digits only, with a digit in row `above`. */
  lemma AtomChars(v: nat, above: nat, below: nat)
    ensures var a := Atom(v, above, below);
      above < |a| && IsDigit(a[above]) && forall t :: 0 <= t < |a| ==> a[t] == ' ' || IsDigit(a[t])
  {
    var a := Atom(v, above, below);
    var d := ToDecimal(v);
    assert a[above] == d[0];
    forall t | 0 <= t < |a|
      ensures a[t] == ' ' || IsDigit(a[t])
    {
      if above <= t < above + |d| {
        assert a[t] == d[t - above];
      }
    }
  }

  /** Every column of a joined layout has a property that the separator
      and every column of every group have. */
  lemma {:induction false} JoinedHolds(gs: seq<seq<string>>, sep: string, P: string -> bool)
    requires |gs| >= 1 && P(sep)
    requires forall g, t :: 0 <= g < |gs| && 0 <= t < |gs[g]| ==> P(gs[g][t])
    ensures forall c :: 0 <= c < |Joined(gs, sep)| ==> P(Joined(gs, sep)[c])
  {
    if |gs| > 1 {
      var init, last := gs[..|gs| - 1], gs[|gs| - 1];
      JoinedHolds(init, sep, P);
      var xs := Joined(init, sep) + [sep];
      assert forall c :: 0 <= c < |xs| ==> P(xs[c]);
      assert forall t :: 0 <= t < |last| ==> P(last[t]);
    }
  }

  /** The numbers of the first n groups, when each group reads whole. */
  lemma {:induction false} NumbersOk(gs: seq<seq<string>>, n: nat, parse: string -> Result<nat>, nums: seq<seq<nat>>)
    requires n <= |gs| && n <= |nums|
    requires forall g :: 0 <= g < n ==> ParseAll(gs[g], parse) == Ok(nums[g])
    ensures Numbers(gs, n, parse) == Ok(nums[..n])
  {
    if n > 0 {
      NumbersOk(gs, n - 1, parse, nums);
      assert nums[..n] == nums[..n - 1] + [nums[n - 1]];
    }
  }

  /** A worksheet written down the columns: the column groups `gs`, one per
      problem, each column `h` characters tall, separated by blank columns. */
  predicate Columnar(gs: seq<seq<string>>, h: nat) {
    |gs| >= 1 && h >= 1 && (forall g :: 0 <= g < |gs| ==> gs[g] != []) &&
    forall g, t :: 0 <= g < |gs| && 0 <= t < |gs[g]| ==> |gs[g][t]| == h
  }

  /** The columns of a columnar worksheet, left to right. */
  function Columns2(gs: seq<seq<string>>, h: nat): (atoms: seq<string>)
    requires Columnar(gs, h)
    ensures forall c :: 0 <= c < |atoms| ==> |atoms[c]| == h
  {
    JoinedHolds(gs, Spaces(h), a => |a| == h);
    Joined(gs, Spaces(h))
  }

  /** Its text: the rows of the columns, then the operator line. */
  function Sheet2(gs: seq<seq<string>>, h: nat, ops: seq<Op>, opGaps: seq<nat>): string
    requires Columnar(gs, h) && |ops| >= 1 && |opGaps| == |ops| + 1
  {
    Join(Transpose(Columns2(gs, h), h) + [OpLine(ops, opGaps)], '\n') + "\n"
  }

  /** parse_input_2 reads a columnar worksheet back: problem k holds the
      numbers of column group k, left to right. */
  lemma Sheet2Read(gs: seq<seq<string>>, h: nat, ops: seq<Op>, opGaps: seq<nat>, nums: seq<seq<nat>>)
    requires Columnar(gs, h) && |ops| == |gs| && |opGaps| == |ops| + 1 && |nums| == |gs|
    requires forall g, t :: 0 <= g < |gs| && 0 <= t < |gs[g]| ==> !Blank(gs[g][t]) && '\n' !in gs[g][t]
    requires forall g :: 0 <= g < |gs| ==> ParseAll(gs[g], Parse) == Ok(nums[g])
    ensures Parse2Spec(Sheet2(gs, h, ops, opGaps)) == Ok(Append(Unsolved(ops), nums))
  {
    Sheet2Lines(gs, h, ops, opGaps);
    GatheredOfJoined(Unsolved(ops), gs, Spaces(h), Parse, nums);
  }

  /** Column groups written side by side with blank separators are gathered
      back into the problems, group by group. */
  lemma GatheredOfJoined(ps: seq<Problem>, gs: seq<seq<string>>, sep: string, parse: string -> Result<nat>, nums: seq<seq<nat>>)
    requires |gs| >= 1 && |ps| == |gs| && |nums| == |gs| && Blank(sep)
    requires forall g, t :: 0 <= g < |gs| && 0 <= t < |gs[g]| ==> !Blank(gs[g][t])
    requires forall g :: 0 <= g < |gs| ==> ParseAll(gs[g], parse) == Ok(nums[g])
    ensures Gathered(ps, Joined(gs, sep), parse) == Ok(Append(ps, nums))
  {
    GroupsOfJoined(gs, sep);
    NumbersOk(gs, |gs|, parse, nums);
    assert nums[..|gs|] == nums;
  }

  /** The rows of columns `h` tall are as wide as there are columns, and
      hold no character the columns do not. */
  lemma TransposeRows(atoms: seq<string>, h: nat, ch: char)
    requires forall c :: 0 <= c < |atoms| ==> |atoms[c]| == h && ch !in atoms[c]
    ensures forall l :: 0 <= l < h ==> |Transpose(atoms, h)[l]| == |atoms| && ch !in Transpose(atoms, h)[l]
  {
    var rows := Transpose(atoms, h);
    forall l | 0 <= l < h
      ensures |rows[l]| == |atoms| && ch !in rows[l]
    {
      assert forall c :: 0 <= c < |atoms| ==> rows[l][c] == atoms[c][l];
    }
  }

  /** Reading the rows of the columns back down the columns gives the columns. */
  lemma TransposeTwice(atoms: seq<string>, h: nat)
    requires forall c :: 0 <= c < |atoms| ==> |atoms[c]| == h
    requires forall l :: 0 <= l < h ==> |Transpose(atoms, h)[l]| == |atoms|
    ensures Transpose(Transpose(atoms, h), |atoms|) == atoms
  {
    var back := Transpose(Transpose(atoms, h), |atoms|);
    forall c | 0 <= c < |atoms|
      ensures back[c] == atoms[c]
    {
    }
  }

  /** The lines of a columnar worksheet are as wide as each other, and their
      columns are the columns it was written from. */
  lemma Sheet2Lines(gs: seq<seq<string>>, h: nat, ops: seq<Op>, opGaps: seq<nat>)
    requires Columnar(gs, h) && |ops| >= 1 && |opGaps| == |ops| + 1
    requires forall g, t :: 0 <= g < |gs| && 0 <= t < |gs[g]| ==> '\n' !in gs[g][t]
    ensures var atoms := Columns2(gs, h);
      var lines := Transpose(atoms, h) + [OpLine(ops, opGaps)];
      Worksheet(Sheet2(gs, h, ops, opGaps)) == Ok((lines, Unsolved(ops))) &&
      SameWidth(lines) && Transpose(lines[..|lines| - 1], |lines[0]|) == atoms
  {
    var atoms := Columns2(gs, h);
    var rows := Transpose(atoms, h);
    ColumnsTall(gs, h);
    TransposeTwice(atoms, h);
    OpLineRead(ops, opGaps);
    WorksheetOfLines(rows, OpLine(ops, opGaps), Unsolved(ops));
    assert (rows + [OpLine(ops, opGaps)])[..h] == rows;
  }

  /** The rows of a columnar worksheet are not empty, are as wide as there
      are columns and hold no newline. */
  lemma ColumnsTall(gs: seq<seq<string>>, h: nat)
    requires Columnar(gs, h)
    requires forall g, t :: 0 <= g < |gs| && 0 <= t < |gs[g]| ==> '\n' !in gs[g][t]
    ensures |Columns2(gs, h)| >= 1
    ensures forall l :: 0 <= l < h ==>
      |Transpose(Columns2(gs, h), h)[l]| == |Columns2(gs, h)| && '\n' !in Transpose(Columns2(gs, h), h)[l]
  {
    var atoms := Columns2(gs, h);
    JoinedHolds(gs, Spaces(h), a => '\n' !in a);
    assert |atoms| >= 1;
    TransposeRows(atoms, h, '\n');
  }

  /** The numbers of the example's operand lines. */
  const SampleRows: seq<seq<nat>> := [[123, 328, 51, 64], [45, 64, 387, 23], [6, 98, 215, 314]]

  /** The example's spacing: with these runs the written sheet is the
      example text of tests(). */
  const SampleRowGaps: seq<seq<nat>> := [[0, 0, 1, 0, 1], [1, 0, 1, 0, 1], [2, 0, 1, 0, 0]]
  const SampleOpGaps: seq<nat> := [0, 2, 2, 2, 0]

  /** The problems the example's rows fill in. */
  lemma SampleColumns()
    ensures Fits(SampleRows, |SampleOps|)
    ensures Columns(Unsolved(SampleOps), SampleRows) == SampleProblems
  {
    var rows := SampleRows;
    ColumnFull(rows, 0);
    ColumnFull(rows, 1);
    ColumnFull(rows, 2);
    ColumnFull(rows, 3);
    var ps := Columns(Unsolved(SampleOps), rows);
    assert ps[0] == SampleProblems[0];
    assert ps[1] == SampleProblems[1];
    assert ps[2] == SampleProblems[2];
    assert ps[3] == SampleProblems[3];
  }

  /** The example read by parse_input. */
  lemma SampleSheet(rows: seq<seq<nat>>, rowGaps: seq<seq<nat>>, opGaps: seq<nat>)
    requires rows == SampleRows && rowGaps == SampleRowGaps && opGaps == SampleOpGaps
    ensures Layout(rows, rowGaps, SampleOps, opGaps)
    ensures ParseSpec(Sheet(rows, rowGaps, SampleOps, opGaps)) == Ok(SampleProblems)
  {
    SampleColumns();
    SheetRead(rows, rowGaps, SampleOps, opGaps);
  }

  /** part_1 of the example. */
  lemma SamplePart1(rows: seq<seq<nat>>, rowGaps: seq<seq<nat>>, opGaps: seq<nat>)
    requires rows == SampleRows && rowGaps == SampleRowGaps && opGaps == SampleOpGaps
    ensures Layout(rows, rowGaps, SampleOps, opGaps)
    ensures Part1Spec(Sheet(rows, rowGaps, SampleOps, opGaps)) == Ok(4277556)
  {
    SampleSheet(rows, rowGaps, opGaps);
    SampleAnswers();
  }

  lemma {:induction false} SmallDecimalLength(n: nat)
    requires n < 1000
    ensures |ToDecimal(n)| == if n < 10 then 1 else if n < 100 then 2 else 3
  {
    if n >= 10 {
      SmallDecimalLength(n / 10);
    }
  }

  /** Column groups written from their numbers, each number with the
      given spaces above and below it. */
  function ColumnGroups(nums: seq<seq<nat>>, above: seq<seq<nat>>, below: seq<seq<nat>>): seq<seq<string>>
    requires |above| == |nums| && |below| == |nums|
    requires forall g :: 0 <= g < |nums| ==> |above[g]| == |nums[g]| && |below[g]| == |nums[g]|
  {
    seq(|nums|, g requires 0 <= g < |nums| =>
      seq(|nums[g]|, t requires 0 <= t < |nums[g]| => Atom(nums[g][t], above[g][t], below[g][t])))
  }

  /** Every column is `h` characters tall. */
  predicate ColumnsFit(nums: seq<seq<nat>>, above: seq<seq<nat>>, below: seq<seq<nat>>, h: nat)
    requires |above| == |nums| && |below| == |nums|
    requires forall g :: 0 <= g < |nums| ==> |above[g]| == |nums[g]| && |below[g]| == |nums[g]|
  {
    forall g, t :: 0 <= g < |nums| && 0 <= t < |nums[g]| ==>
      above[g][t] + |ToDecimal(nums[g][t])| + below[g][t] == h
  }

  /** Written column groups form a columnar worksheet whose groups read
      back as their numbers. */
  lemma ColumnGroupsRead(nums: seq<seq<nat>>, above: seq<seq<nat>>, below: seq<seq<nat>>, h: nat)
    requires |nums| >= 1 && h >= 1 && |above| == |nums| && |below| == |nums|
    requires forall g :: 0 <= g < |nums| ==> |above[g]| == |nums[g]| && |below[g]| == |nums[g]| && nums[g] != []
    requires ColumnsFit(nums, above, below, h)
    ensures Columnar(ColumnGroups(nums, above, below), h)
    ensures forall g, t :: 0 <= g < |nums| && 0 <= t < |nums[g]| ==>
      !Blank(ColumnGroups(nums, above, below)[g][t]) && '\n' !in ColumnGroups(nums, above, below)[g][t]
    ensures forall g :: 0 <= g < |nums| ==> ParseAll(ColumnGroups(nums, above, below)[g], Parse) == Ok(nums[g])
  {
    var gs := ColumnGroups(nums, above, below);
    forall g, t | 0 <= g < |gs| && 0 <= t < |gs[g]|
      ensures |gs[g][t]| == h && !Blank(gs[g][t]) && '\n' !in gs[g][t] && Parse(gs[g][t]) == Ok(nums[g][t])
    {
      AtomRead(nums[g][t], above[g][t], below[g][t]);
    }
    forall g | 0 <= g < |gs|
      ensures ParseAll(gs[g], Parse) == Ok(nums[g])
    {
      ParseAllOk(gs[g], Parse, nums[g]);
    }
  }

  /** The numbers of the example's columns, group by group, and the spaces
      above each; written out three lines tall they give the example text
      of tests(). */
  const SampleNumbers2: seq<seq<nat>> := [[1, 24, 356], [369, 248, 8], [32, 581, 175], [623, 431, 4]]
  const SampleAbove: seq<seq<nat>> := [[0, 0, 0], [0, 0, 0], [1, 0, 0], [0, 0, 2]]
  const SampleBelow: seq<seq<nat>> := [[2, 1, 0], [0, 0, 2], [0, 0, 0], [0, 0, 0]]

  lemma SampleAppend()
    ensures Append(Unsolved(SampleOps), SampleNumbers2) == SampleProblems2
  {
    var ps := Append(Unsolved(SampleOps), SampleNumbers2);
    assert ps[0] == SampleProblems2[0];
    assert ps[1] == SampleProblems2[1];
    assert ps[2] == SampleProblems2[2];
    assert ps[3] == SampleProblems2[3];
  }

  lemma SampleFit(nums: seq<seq<nat>>, above: seq<seq<nat>>, below: seq<seq<nat>>)
    requires nums == SampleNumbers2 && above == SampleAbove && below == SampleBelow
    ensures ColumnsFit(nums, above, below, 3)
  {
    forall g, t | 0 <= g < |nums| && 0 <= t < |nums[g]|
      ensures above[g][t] + |ToDecimal(nums[g][t])| + below[g][t] == 3
    {
      SmallDecimalLength(nums[g][t]);
      assert g == 0 || g == 1 || g == 2 || g == 3;
      assert t == 0 || t == 1 || t == 2;
    }
  }

  /** The example read by parse_input_2. */
  lemma SampleSheet2(nums: seq<seq<nat>>, above: seq<seq<nat>>, below: seq<seq<nat>>, opGaps: seq<nat>)
    requires nums == SampleNumbers2 && above == SampleAbove && below == SampleBelow && opGaps == SampleOpGaps
    ensures Columnar(ColumnGroups(nums, above, below), 3)
    ensures Parse2Spec(Sheet2(ColumnGroups(nums, above, below), 3, SampleOps, opGaps)) == Ok(SampleProblems2)
  {
    SampleFit(nums, above, below);
    ColumnGroupsRead(nums, above, below, 3);
    SampleAppend();
    Sheet2Read(ColumnGroups(nums, above, below), 3, SampleOps, opGaps, nums);
  }

  /** part_2 of the example. */
  lemma SamplePart2(nums: seq<seq<nat>>, above: seq<seq<nat>>, below: seq<seq<nat>>, opGaps: seq<nat>)
    requires nums == SampleNumbers2 && above == SampleAbove && below == SampleBelow && opGaps == SampleOpGaps
    ensures Columnar(ColumnGroups(nums, above, below), 3)
    ensures Part2Spec(Sheet2(ColumnGroups(nums, above, below), 3, SampleOps, opGaps)) == Ok(3263827)
  {
    SampleSheet2(nums, above, below, opGaps);
    SampleAnswers();
  }

  /** The example text of tests(). */
  const SampleInput: string := "123 328  51 64 \n 45 64  387 23 \n  6 98  215 314\n*   +   *   +\n"

  /** parse_input and part_1 on the example text of tests(). */
  lemma SampleInputPart1(input: string)
    requires input == SampleInput
    ensures ParseSpec(input) == Ok(SampleProblems)
    ensures Part1Spec(input) == Ok(4277556)
  {
    SampleText();
    var rows, rowGaps, opGaps := SampleRows, SampleRowGaps, SampleOpGaps;
    SampleSheet(rows, rowGaps, opGaps);
    SamplePart1(rows, rowGaps, opGaps);
  }

  /** parse_input_2 and part_2 on the example text of tests(). */
  lemma SampleInputPart2(input: string)
    requires input == SampleInput
    ensures Parse2Spec(input) == Ok(SampleProblems2)
    ensures Part2Spec(input) == Ok(3263827)
  {
    SampleText2();
    var nums, above, below, opGaps := SampleNumbers2, SampleAbove, SampleBelow, SampleOpGaps;
    SampleSheet2(nums, above, below, opGaps);
    SamplePart2(nums, above, below, opGaps);
  }

  /** Four words laid out with their runs of spaces. */
  lemma SpacedFour(a: string, b: string, c: string, e: string, g0: nat, g1: nat, g2: nat, g3: nat, g4: nat, d: char)
    ensures Join(Spaced([a, b, c, e], [g0, g1, g2, g3, g4]), d) ==
      Run(d, g0) + a + Run(d, g1) + [d] + b + Run(d, g2) + [d] + c + Run(d, g3) + [d] + e + Run(d, g4)
  {
    JoinSpacedOne(a, g0, g1, d);
    assert [a] + [b] == [a, b] && [g0, g1] + [g2] == [g0, g1, g2];
    JoinSpacedSnoc([a], [g0, g1], b, g2, d);
    assert [a, b] + [c] == [a, b, c] && [g0, g1, g2] + [g3] == [g0, g1, g2, g3];
    JoinSpacedSnoc([a, b], [g0, g1, g2], c, g3, d);
    assert [a, b, c] + [e] == [a, b, c, e] && [g0, g1, g2, g3] + [g4] == [g0, g1, g2, g3, g4];
    JoinSpacedSnoc([a, b, c], [g0, g1, g2, g3], e, g4, d);
  }

  lemma ShortRuns()
    ensures Run(' ', 0) == "" && Run(' ', 1) == " " && Run(' ', 2) == "  "
  {
  }

  /** The numbers of the example's operand lines as std::to_string writes them. */
  lemma SampleDecimals0()
    ensures Decimals([123, 328, 51, 64]) == ["123", "328", "51", "64"]
  {
    assert ToDecimal(12) == "12";
    assert ToDecimal(123) == "123";
    assert ToDecimal(32) == "32";
    assert ToDecimal(328) == "328";
    var d := Decimals([123, 328, 51, 64]);
    assert d[0] == "123" && d[1] == "328" && d[2] == "51" && d[3] == "64";
  }

  lemma SampleDecimals1()
    ensures Decimals([45, 64, 387, 23]) == ["45", "64", "387", "23"]
  {
    assert ToDecimal(38) == "38";
    assert ToDecimal(387) == "387";
    var d := Decimals([45, 64, 387, 23]);
    assert d[0] == "45" && d[1] == "64" && d[2] == "387" && d[3] == "23";
  }

  lemma SampleDecimals2()
    ensures Decimals([6, 98, 215, 314]) == ["6", "98", "215", "314"]
  {
    assert ToDecimal(21) == "21" && ToDecimal(215) == "215";
    assert ToDecimal(31) == "31" && ToDecimal(314) == "314";
    var d := Decimals([6, 98, 215, 314]);
    assert d[0] == "6" && d[1] == "98" && d[2] == "215" && d[3] == "314";
  }

  /** The example's lines, written from their numbers with the sample spacing. */
  lemma SampleRow0()
    ensures RowLine([123, 328, 51, 64], [0, 0, 1, 0, 1]) == "123 328  51 64 "
  {
    SampleDecimals0();
    SpacedFour("123", "328", "51", "64", 0, 0, 1, 0, 1, ' ');
    ShortRuns();
  }

  lemma SampleRow1()
    ensures RowLine([45, 64, 387, 23], [1, 0, 1, 0, 1]) == " 45 64  387 23 "
  {
    SampleDecimals1();
    SpacedFour("45", "64", "387", "23", 1, 0, 1, 0, 1, ' ');
    ShortRuns();
  }

  lemma SampleRow2()
    ensures RowLine([6, 98, 215, 314], [2, 0, 1, 0, 0]) == "  6 98  215 314"
  {
    SampleDecimals2();
    SpacedFour("6", "98", "215", "314", 2, 0, 1, 0, 0, ' ');
    ShortRuns();
    assert "  " + "6" + "" + " " + "98" + " " + " " + "215" + "" + " " + "314" + "" == "  6 98  215 314";
  }

  lemma SampleOpRow()
    ensures OpLine(SampleOps, SampleOpGaps) == "*   +   *   +"
  {
    var ss := Symbols(SampleOps);
    assert ss == ["*", "+", "*", "+"];
    SpacedFour("*", "+", "*", "+", 0, 2, 2, 2, 0, ' ');
    ShortRuns();
  }

  /** Four lines joined, with the final newline. */
  lemma JoinFour(a: string, b: string, c: string, e: string, d: char)
    ensures Join([a, b, c, e], d) + [d] == (a + [d] + b + [d]) + (c + [d] + e + [d])
  {
    assert [a] + [b] == [a, b] && [a, b] + [c] == [a, b, c] && [a, b, c] + [e] == [a, b, c, e];
    JoinSnoc([a], b, d);
    JoinSnoc([a, b], c, d);
    JoinSnoc([a, b, c], e, d);
  }

  lemma SampleLines()
    ensures Layout(SampleRows, SampleRowGaps, SampleOps, SampleOpGaps)
    ensures SheetLines(SampleRows, SampleRowGaps, SampleOps, SampleOpGaps) ==
      ["123 328  51 64 ", " 45 64  387 23 ", "  6 98  215 314", "*   +   *   +"]
  {
    SampleRow0();
    SampleRow1();
    SampleRow2();
    SampleOpRow();
    var ls := SheetLines(SampleRows, SampleRowGaps, SampleOps, SampleOpGaps);
    assert |ls| == 4 && ls[3] == OpLine(SampleOps, SampleOpGaps);
    assert ls[0] == RowLine(SampleRows[0], SampleRowGaps[0]);
    assert ls[1] == RowLine(SampleRows[1], SampleRowGaps[1]);
    assert ls[2] == RowLine(SampleRows[2], SampleRowGaps[2]);
  }

  lemma SampleHalves()
    ensures "123 328  51 64 " + "\n" + " 45 64  387 23 " + "\n" == "123 328  51 64 \n 45 64  387 23 \n"
    ensures "  6 98  215 314" + "\n" + "*   +   *   +" + "\n" == "  6 98  215 314\n*   +   *   +\n"
  {
  }

  lemma SampleGlue()
    ensures "123 328  51 64 \n 45 64  387 23 \n" + "  6 98  215 314\n*   +   *   +\n" ==
      "123 328  51 64 \n 45 64  387 23 \n  6 98  215 314\n*   +   *   +\n"
  {
  }

  /** The worksheet written from the example's rows is the example text. */
  lemma SampleText()
    ensures Layout(SampleRows, SampleRowGaps, SampleOps, SampleOpGaps)
    ensures Sheet(SampleRows, SampleRowGaps, SampleOps, SampleOpGaps) == SampleInput
  {
    SampleLines();
    JoinFour("123 328  51 64 ", " 45 64  387 23 ", "  6 98  215 314", "*   +   *   +", '\n');
    SampleHalves();
    SampleGlue();
  }

  /** The example's columns, written downwards. */
  lemma SmallSpaces()
    ensures Spaces(0) == "" && Spaces(1) == " " && Spaces(2) == "  "
  {
  }

  lemma SampleAtoms0()
    ensures Atom(1, 0, 2) == "1  " && Atom(24, 0, 1) == "24 " && Atom(356, 0, 0) == "356"
  {
    SmallSpaces();
    assert ToDecimal(35) == "35" && ToDecimal(356) == "356";
  }

  lemma SampleAtoms1()
    ensures Atom(369, 0, 0) == "369" && Atom(248, 0, 0) == "248" && Atom(8, 0, 2) == "8  "
  {
    SmallSpaces();
    assert ToDecimal(36) == "36" && ToDecimal(369) == "369";
    assert ToDecimal(24) == "24" && ToDecimal(248) == "248";
  }

  lemma SampleAtoms2()
    ensures Atom(32, 1, 0) == " 32" && Atom(581, 0, 0) == "581" && Atom(175, 0, 0) == "175"
  {
    SmallSpaces();
    assert ToDecimal(58) == "58" && ToDecimal(581) == "581";
    assert ToDecimal(17) == "17" && ToDecimal(175) == "175";
  }

  lemma SampleAtoms3()
    ensures Atom(623, 0, 0) == "623" && Atom(431, 0, 0) == "431" && Atom(4, 2, 0) == "  4"
  {
    SmallSpaces();
    assert ToDecimal(62) == "62" && ToDecimal(623) == "623";
    assert ToDecimal(43) == "43" && ToDecimal(431) == "431";
  }

  lemma SampleGroup0()
    ensures ColumnGroups(SampleNumbers2, SampleAbove, SampleBelow)[0] == ["1  ", "24 ", "356"]
  {
    SampleAtoms0();
    var g := ColumnGroups(SampleNumbers2, SampleAbove, SampleBelow)[0];
    assert g[0] == "1  " && g[1] == "24 " && g[2] == "356";
  }

  lemma SampleGroup1()
    ensures ColumnGroups(SampleNumbers2, SampleAbove, SampleBelow)[1] == ["369", "248", "8  "]
  {
    SampleAtoms1();
    var g := ColumnGroups(SampleNumbers2, SampleAbove, SampleBelow)[1];
    assert g[0] == "369" && g[1] == "248" && g[2] == "8  ";
  }

  lemma SampleGroup2()
    ensures ColumnGroups(SampleNumbers2, SampleAbove, SampleBelow)[2] == [" 32", "581", "175"]
  {
    SampleAtoms2();
    var g := ColumnGroups(SampleNumbers2, SampleAbove, SampleBelow)[2];
    assert g[0] == " 32" && g[1] == "581" && g[2] == "175";
  }

  lemma SampleGroup3()
    ensures ColumnGroups(SampleNumbers2, SampleAbove, SampleBelow)[3] == ["623", "431", "  4"]
  {
    SampleAtoms3();
    var g := ColumnGroups(SampleNumbers2, SampleAbove, SampleBelow)[3];
    assert g[0] == "623" && g[1] == "431" && g[2] == "  4";
  }

  lemma SampleGroups()
    ensures ColumnGroups(SampleNumbers2, SampleAbove, SampleBelow) ==
      [["1  ", "24 ", "356"], ["369", "248", "8  "], [" 32", "581", "175"], ["623", "431", "  4"]]
  {
    SampleGroup0();
    SampleGroup1();
    SampleGroup2();
    SampleGroup3();
  }

  lemma JoinedFour(a: seq<string>, b: seq<string>, c: seq<string>, e: seq<string>, sep: string)
    ensures Joined([a, b, c, e], sep) == a + [sep] + b + [sep] + c + [sep] + e
  {
    assert [a, b, c, e][..3] == [a, b, c] && [a, b, c][..2] == [a, b] && [a, b][..1] == [a];
    assert Joined([a, b], sep) == a + [sep] + b;
    assert Joined([a, b, c], sep) == a + [sep] + b + [sep] + c;
  }

  /** The columns of the example text, left to right. */
  const SampleAtoms: seq<string> :=
    ["1  ", "24 ", "356", "   ", "369", "248", "8  ", "   ", " 32", "581", "175", "   ", "623", "431", "  4"]

  lemma SampleColumnar()
    ensures Columnar(ColumnGroups(SampleNumbers2, SampleAbove, SampleBelow), 3)
  {
    SampleFit(SampleNumbers2, SampleAbove, SampleBelow);
    ColumnGroupsRead(SampleNumbers2, SampleAbove, SampleBelow, 3);
  }

  lemma AtomsGlue()
    ensures ["1  ", "24 ", "356"] + ["   "] + ["369", "248", "8  "] + ["   "] + [" 32", "581", "175"] + ["   "] + ["623", "431", "  4"] == SampleAtoms
  {
  }

  lemma SampleColumns2()
    ensures Columnar(ColumnGroups(SampleNumbers2, SampleAbove, SampleBelow), 3)
    ensures Columns2(ColumnGroups(SampleNumbers2, SampleAbove, SampleBelow), 3) == SampleAtoms
  {
    SampleColumnar();
    SampleGroups();
    assert Spaces(3) == "   ";
    JoinedFour(["1  ", "24 ", "356"], ["369", "248", "8  "], [" 32", "581", "175"], ["623", "431", "  4"], "   ");
    AtomsGlue();
  }

  /** Read row by row, those columns are the example's operand lines. */
  lemma SampleTranspose()
    ensures forall c :: 0 <= c < |SampleAtoms| ==> |SampleAtoms[c]| == 3
    ensures Transpose(SampleAtoms, 3) == ["123 328  51 64 ", " 45 64  387 23 ", "  6 98  215 314"]
  {
    var ts := Transpose(SampleAtoms, 3);
    assert |ts| == 3 && |ts[0]| == 15 && |ts[1]| == 15 && |ts[2]| == 15;
    forall k | 0 <= k < 15
      ensures ts[0][k] == "123 328  51 64 "[k]
    {
    }
    assert ts[0] == "123 328  51 64 ";
    forall k | 0 <= k < 15
      ensures ts[1][k] == " 45 64  387 23 "[k]
    {
    }
    assert ts[1] == " 45 64  387 23 ";
    forall k | 0 <= k < 15
      ensures ts[2][k] == "  6 98  215 314"[k]
    {
    }
    assert ts[2] == "  6 98  215 314";
  }

  /** The columnar worksheet written from the example's column groups is the example text too. */
  lemma SampleText2()
    ensures Columnar(ColumnGroups(SampleNumbers2, SampleAbove, SampleBelow), 3)
    ensures Sheet2(ColumnGroups(SampleNumbers2, SampleAbove, SampleBelow), 3, SampleOps, SampleOpGaps) == SampleInput
  {
    SampleColumns2();
    SampleTranspose();
    SampleOpRow();
    var r0, r1, r2, o := "123 328  51 64 ", " 45 64  387 23 ", "  6 98  215 314", "*   +   *   +";
    var gs := ColumnGroups(SampleNumbers2, SampleAbove, SampleBelow);
    assert Transpose(Columns2(gs, 3), 3) + [OpLine(SampleOps, SampleOpGaps)] == [r0, r1, r2, o];
    assert Sheet2(gs, 3, SampleOps, SampleOpGaps) == Join([r0, r1, r2, o], '\n') + "\n";
    JoinFour(r0, r1, r2, o, '\n');
    SampleHalves();
    SampleGlue();
  }
}
