/** Reading a block of lines one value per line, as the parse loops of
    the solvers do: the block fails as soon as one line fails. */
module Blocks {
  import opened Wrappers
  import opened Text

  /** What a loop that parses every line of a block computes, failing
      when one line fails. */
  function ParseAll<T>(lines: seq<string>, parse: string -> Result<T>): (r: Result<seq<T>>)
    ensures r.Ok? ==> |r.value| == |lines|
  {
    if lines == [] then
      Ok([])
    else
      var init :- ParseAll(lines[..|lines| - 1], parse);
      var last :- parse(lines[|lines| - 1]);
      Ok(init + [last])
  }

  lemma ParseAllStep<T>(lines: seq<string>, parse: string -> Result<T>, j: nat, xs: seq<T>, x: T)
    requires j < |lines| && ParseAll(lines[..j], parse) == Ok(xs) && parse(lines[j]) == Ok(x)
    ensures ParseAll(lines[..j + 1], parse) == Ok(xs + [x])
  {
    assert lines[..j + 1][..j] == lines[..j];
  }

  /** The values read are those of the lines, one by one. */
  lemma {:induction false} ParseAllValues<T>(lines: seq<string>, parse: string -> Result<T>)
    requires ParseAll(lines, parse).Ok?
    ensures forall k :: 0 <= k < |lines| ==> parse(lines[k]) == Ok(ParseAll(lines, parse).value[k])
  {
    if lines != [] {
      ParseAllValues(lines[..|lines| - 1], parse);
    }
  }

  /** One line that does not parse makes the whole block fail. */
  lemma ParseAllFails<T>(lines: seq<string>, parse: string -> Result<T>, j: nat)
    requires j < |lines| && parse(lines[j]).Err?
    ensures ParseAll(lines, parse) == Err
  {
    if ParseAll(lines, parse).Ok? {
      ParseAllValues(lines, parse);
    }
  }

  /** A block fails only when one of its lines fails. */
  lemma {:induction false} ParseAllErr<T>(lines: seq<string>, parse: string -> Result<T>)
    requires ParseAll(lines, parse).Err?
    ensures exists k :: 0 <= k < |lines| && parse(lines[k]).Err?
  {
    var init := lines[..|lines| - 1];
    if ParseAll(init, parse).Err? {
      ParseAllErr(init, parse);
      var k :| 0 <= k < |init| && parse(init[k]).Err?;
      assert lines[k] == init[k];
    } else {
      assert parse(lines[|lines| - 1]).Err?;
    }
  }

  lemma {:induction false} ParseAllOk<T>(lines: seq<string>, parse: string -> Result<T>, xs: seq<T>)
    requires |lines| == |xs|
    requires forall k :: 0 <= k < |lines| ==> parse(lines[k]) == Ok(xs[k])
    ensures ParseAll(lines, parse) == Ok(xs)
  {
    if lines != [] {
      ParseAllOk(lines[..|lines| - 1], parse, xs[..|xs| - 1]);
      SplitLast(xs);
    }
  }

}
