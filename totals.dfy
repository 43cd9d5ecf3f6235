/** Sums of per-item answers, the std::accumulate calls that end every part. */
module Totals {
  import opened Wrappers

  function SumOf(xs: seq<nat>): nat {
    if xs == [] then 0 else SumOf(xs[..|xs| - 1]) + xs[|xs| - 1]
  }

  /** The total of the shares, failing when one of them fails. */
  function SumResults(rs: seq<Result<nat>>): Result<nat> {
    if rs == [] then
      Ok(0)
    else
      var init :- SumResults(rs[..|rs| - 1]);
      var last :- rs[|rs| - 1];
      Ok(init + last)
  }

  /** The total fails exactly when some share fails, and otherwise adds up
      the shares. */
  lemma {:induction false} SumResultsFails(rs: seq<Result<nat>>)
    ensures SumResults(rs).Err? <==> exists k :: 0 <= k < |rs| && rs[k].Err?
    ensures SumResults(rs).Ok? ==> SumResults(rs).value == SumOf(seq(|rs|, k requires 0 <= k < |rs| => rs[k].value))
  {
    if rs != [] {
      var init := rs[..|rs| - 1];
      SumResultsFails(init);
      if exists k :: 0 <= k < |init| && init[k].Err? {
        var k :| 0 <= k < |init| && init[k].Err?;
        assert rs[k] == init[k];
      }
      if exists k :: 0 <= k < |rs| && rs[k].Err? {
        var k :| 0 <= k < |rs| && rs[k].Err?;
        if k < |init| {
          assert rs[k] == init[k];
        }
      }
      if SumResults(rs).Ok? {
        var vs := seq(|rs|, k requires 0 <= k < |rs| => rs[k].value);
        assert vs[..|vs| - 1] == seq(|init|, k requires 0 <= k < |init| => init[k].value);
      }
    }
  }

  /** The total of one share per item, the accumulate over a transformed
      container. */
  function SumOver<T>(xs: seq<T>, share: T -> Result<nat>): Result<nat> {
    SumResults(seq(|xs|, k requires 0 <= k < |xs| => share(xs[k])))
  }

  /** The total of shares none of which fails. */
  function TotalOf<T>(xs: seq<T>, share: T -> Result<nat>): nat
    requires forall k :: 0 <= k < |xs| ==> share(xs[k]).Ok?
  {
    SumOf(seq(|xs|, k requires 0 <= k < |xs| => share(xs[k]).value))
  }

  /** The total over the items fails exactly when one item's share fails,
      and otherwise adds up the shares. */
  lemma SumOverFails<T>(xs: seq<T>, share: T -> Result<nat>)
    ensures SumOver(xs, share).Err? <==> exists k :: 0 <= k < |xs| && share(xs[k]).Err?
    ensures SumOver(xs, share).Ok? ==> SumOver(xs, share).value == TotalOf(xs, share)
  {
    var rs: seq<Result<nat>> := seq(|xs|, k requires 0 <= k < |xs| => share(xs[k]));
    SumResultsFails(rs);
    assert forall k :: 0 <= k < |xs| ==> rs[k] == share(xs[k]);
    if SumResults(rs).Ok? {
      assert seq(|rs|, k requires 0 <= k < |rs| => rs[k].value) == seq(|xs|, k requires 0 <= k < |xs| => share(xs[k]).value);
    }
  }

  /** The total of four successful shares. */
  lemma SumOverFour<T>(xs: seq<T>, share: T -> Result<nat>, a: nat, b: nat, c: nat, d: nat)
    requires |xs| == 4
    requires share(xs[0]) == Ok(a) && share(xs[1]) == Ok(b)
    requires share(xs[2]) == Ok(c) && share(xs[3]) == Ok(d)
    ensures SumOver(xs, share) == Ok(a + b + c + d)
  {
    var rs: seq<Result<nat>> := seq(|xs|, k requires 0 <= k < |xs| => share(xs[k]));
    assert rs[..1][..0] == [];
    assert SumResults(rs[..1]) == Ok(a);
    assert rs[..2][..1] == rs[..1];
    assert SumResults(rs[..2]) == Ok(a + b);
    assert rs[..3][..2] == rs[..2];
    assert SumResults(rs[..3]) == Ok(a + b + c);
    assert rs[..4][..3] == rs[..3];
    assert rs[..4] == rs;
  }
}
