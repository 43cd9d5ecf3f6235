/** Tokenising text on a delimiter (src/common.cpp).

    split_at reads a stream with std::getline(stream, buf, delim) until the
    stream is exhausted and keeps each piece unless it is empty and empty
    pieces are not allowed. The model scans the characters of the string
    directly; the string overload, which only wraps the string in a
    stringstream, is the same operation. */
module Text {

  /** The pieces between delimiters, including the (possibly empty) piece
      after the last delimiter: every delimiter closes one piece. */
  function Pieces(s: string, d: char): (ps: seq<string>)
    ensures |ps| >= 1
  {
    if s == [] then
      [[]]
    else
      var ps := Pieces(s[..|s| - 1], d);
      if s[|s| - 1] == d then ps + [[]] else ps[..|ps| - 1] + [ps[|ps| - 1] + [s[|s| - 1]]]
  }

  /** The pieces the getline loop hands out: at end of input getline fails
      when it extracts nothing, so a final empty piece is never produced. */
  function Fields(s: string, d: char): seq<string> {
    var ps := Pieces(s, d);
    if ps[|ps| - 1] == [] then ps[..|ps| - 1] else ps
  }

  /** The pieces that are not empty, in order. */
  function NonEmpty(ps: seq<string>): (qs: seq<string>)
    ensures |qs| <= |ps|
  {
    if ps == [] then []
    else if ps[|ps| - 1] == [] then NonEmpty(ps[..|ps| - 1])
    else NonEmpty(ps[..|ps| - 1]) + [ps[|ps| - 1]]
  }

  /** NonEmpty keeps exactly the pieces that are not empty. */
  lemma {:induction false} NonEmptyMembers(ps: seq<string>)
    ensures forall k :: 0 <= k < |NonEmpty(ps)| ==> NonEmpty(ps)[k] != []
    ensures forall p :: p in NonEmpty(ps) <==> p in ps && p != []
  {
    if ps != [] {
      var init := ps[..|ps| - 1];
      NonEmptyMembers(init);
      SplitLast(ps);
    }
  }

  /** One more piece is kept exactly when it is not empty. */
  lemma NonEmptySnoc(ps: seq<string>, p: string)
    ensures NonEmpty(ps + [p]) == if p == [] then NonEmpty(ps) else NonEmpty(ps) + [p]
  {
    SnocParts(ps, p);
  }

  /** The result of split_at(s, d, allowEmpty): no piece contains the
      delimiter, and without allowEmpty no piece is empty. */
  function Split(s: string, d: char, allowEmpty: bool): (r: seq<string>)
    ensures forall p :: p in r ==> d !in p
    ensures !allowEmpty ==> forall p :: p in r ==> p != []
  {
    PiecesNoDelimiter(s, d);
    assert forall p :: p in Fields(s, d) ==> p in Pieces(s, d);
    NonEmptyMembers(Fields(s, d));
    if allowEmpty then Fields(s, d) else NonEmpty(Fields(s, d))
  }

  /** The result of split_lines(s). */
  function Lines(s: string): seq<string> {
    Split(s, '\n', false)
  }

  /** `Join(ps, d)` writes the pieces back with one delimiter between each two. */
  function Join(ps: seq<string>, d: char): string
    requires |ps| >= 1
  {
    if |ps| == 1 then ps[0] else Join(ps[..|ps| - 1], d) + [d] + ps[|ps| - 1]
  }

  /** The any_of test of split_at: some character of the piece differs from the delimiter. */
  predicate HasOtherThan(buf: string, d: char) {
    exists k :: 0 <= k < |buf| && buf[k] != d
  }

  method SplitAt(s: string, d: char, allowEmpty: bool) returns (lines: seq<string>)
    ensures lines == Split(s, d, allowEmpty)
  {
    lines := [];
    var buf: string := [];
    ghost var done: seq<string> := [];
    var i := 0;
    while i < |s|
      invariant 0 <= i <= |s|
      invariant Pieces(s[..i], d) == done + [buf]
      invariant d !in buf
      invariant lines == if allowEmpty then done else NonEmpty(done)
    {
      ScanStep(s, d, i, done, buf);
      if s[i] == d {
        OtherThanNonEmpty(buf, d);
        NonEmptySnoc(done, buf);
        if allowEmpty || HasOtherThan(buf, d) {
          lines := lines + [buf];
        }
        done := done + [buf];
        buf := [];
      } else {
        buf := buf + [s[i]];
      }
      i := i + 1;
    }
    assert s[..i] == s;
    SnocParts(done, buf);
    if buf != [] {
      OtherThanNonEmpty(buf, d);
      NonEmptySnoc(done, buf);
      if allowEmpty || HasOtherThan(buf, d) {
        lines := lines + [buf];
      }
    }
  }

  /** How one more character moves the scan on. */
  lemma ScanStep(s: string, d: char, i: nat, done: seq<string>, buf: string)
    requires i < |s| && Pieces(s[..i], d) == done + [buf]
    ensures Pieces(s[..i + 1], d) == if s[i] == d then (done + [buf]) + [[]] else done + [buf + [s[i]]]
  {
    assert s[..i + 1] == s[..i] + [s[i]];
    PiecesSnoc(s[..i], s[i], d);
    SnocParts(done, buf);
  }

  /** For a piece without the delimiter, the any_of test is a test for emptiness. */
  lemma OtherThanNonEmpty(buf: string, d: char)
    requires d !in buf
    ensures HasOtherThan(buf, d) <==> buf != []
  {
    if buf != [] {
      assert buf[0] != d;
    }
  }

  method SplitLines(s: string) returns (lines: seq<string>)
    ensures lines == Lines(s)
  {
    lines := SplitAt(s, '\n', false);
  }

  /** No piece contains the delimiter: getline consumes it. */
  lemma {:induction false} PiecesNoDelimiter(s: string, d: char)
    ensures forall p :: p in Pieces(s, d) ==> d !in p
  {
    if s != [] {
      PiecesNoDelimiter(s[..|s| - 1], d);
    }
  }

  /** Writing the pieces back with the delimiter restores the text. */
  lemma {:induction false} JoinPieces(s: string, d: char)
    ensures Join(Pieces(s, d), d) == s
  {
    if s == [] {
      return;
    }
    var s', c := s[..|s| - 1], s[|s| - 1];
    var ps := Pieces(s', d);
    JoinPieces(s', d);
    assert s == s' + [c];
    PiecesSnoc(s', c, d);
    if c == d {
      JoinSnoc(ps, [], d);
      assert Join(ps, d) + [d] + [] == s;
    } else {
      var init, last := ps[..|ps| - 1], ps[|ps| - 1];
      SplitLast(ps);
      if |ps| == 1 {
        assert Join([last + [c]], d) == last + [c];
      } else {
        JoinSnoc(init, last, d);
        JoinSnoc(init, last + [c], d);
        assert Join(init, d) + [d] + (last + [c]) == (Join(init, d) + [d] + last) + [c];
      }
    }
  }

  /** Joining one more piece adds a delimiter and the piece. */
  lemma JoinSnoc(ps: seq<string>, p: string, d: char)
    requires |ps| >= 1
    ensures Join(ps + [p], d) == Join(ps, d) + [d] + p
  {
    SnocParts(ps, p);
  }

  /** With allowEmpty, joining the pieces reproduces the text, except that a
      final delimiter leaves no empty piece behind it. */
  lemma FieldsRoundTrip(s: string, d: char)
    ensures s == [] ==> Fields(s, d) == []
    ensures s != [] && s[|s| - 1] == d ==> |Fields(s, d)| >= 1 && Join(Fields(s, d), d) + [d] == s
    ensures s != [] && s[|s| - 1] != d ==> |Fields(s, d)| >= 1 && Join(Fields(s, d), d) == s
  {
    JoinPieces(s, d);
    if s != [] {
      var ps := Pieces(s[..|s| - 1], d);
      if s[|s| - 1] == d {
        assert Pieces(s, d) == ps + [[]];
        assert (ps + [[]])[..|ps|] == ps;
        if |ps| >= 1 {
          assert Join(ps + [[]], d) == Join(ps, d) + [d] + [];
        }
      } else {
        assert Pieces(s, d)[|Pieces(s, d)| - 1] != [];
      }
    }
  }

  /** One more character either closes the last piece or extends it. */
  lemma PiecesSnoc(s: string, c: char, d: char)
    ensures var ps := Pieces(s, d);
      Pieces(s + [c], d) == if c == d then ps + [[]] else ps[..|ps| - 1] + [ps[|ps| - 1] + [c]]
  {
    assert (s + [c])[..|s + [c]| - 1] == s;
  }

  /** Appending text without a delimiter only extends the last piece. */
  lemma {:induction false} PiecesAppendPlain(x: string, y: string, d: char, init: seq<string>, last: string)
    requires d !in y && Pieces(x, d) == init + [last]
    ensures Pieces(x + y, d) == init + [last + y]
  {
    if y == [] {
      assert x + y == x && last + y == last;
      return;
    }
    var y', c := y[..|y| - 1], y[|y| - 1];
    assert y == y' + [c] && d !in y' && c != d;
    assert Pieces(x + y', d) == init + [last + y'] by {
      PiecesAppendPlain(x, y', d, init, last);
    }
    assert x + y == (x + y') + [c] && (last + y') + [c] == last + y;
    SnocParts(init, last + y');
    PiecesSnoc(x + y', c, d);
  }

  /** A non-empty sequence is its front followed by its last element. */
  lemma SplitLast<T>(s: seq<T>)
    requires s != []
    ensures s == s[..|s| - 1] + [s[|s| - 1]]
  {
  }

  /** The parts of a sequence with one more element. */
  lemma SnocParts<T>(init: seq<T>, e: T)
    ensures (init + [e])[..|init|] == init && (init + [e])[|init|] == e
  {
  }

  /** Cutting a joined list at the delimiter gives the list back, when no
      piece contains the delimiter. */
  lemma {:induction false} PiecesOfJoin(ps: seq<string>, d: char)
    requires |ps| >= 1
    requires forall k :: 0 <= k < |ps| ==> d !in ps[k]
    ensures Pieces(Join(ps, d), d) == ps
  {
    if |ps| == 1 {
      PiecesAppendPlain([], ps[0], d, [], []);
      assert [] + ps[0] == ps[0];
      return;
    }
    var init, last := ps[..|ps| - 1], ps[|ps| - 1];
    assert Pieces(Join(init, d), d) == init by {
      PiecesOfJoin(init, d);
    }
    var x := Join(init, d) + [d];
    PiecesSnoc(Join(init, d), d, d);
    assert d !in last;
    PiecesAppendPlain(x, last, d, init, []);
    assert Join(ps, d) == x + last;
    assert [] + last == last;
    SplitLast(ps);
  }

  /** split_at undoes joining non-empty, delimiter-free pieces. */
  lemma SplitOfJoin(ps: seq<string>, d: char, allowEmpty: bool)
    requires |ps| >= 1
    requires forall k :: 0 <= k < |ps| ==> d !in ps[k] && ps[k] != []
    ensures Split(Join(ps, d), d, allowEmpty) == ps
  {
    PiecesOfJoin(ps, d);
    NonEmptyOfNonEmpty(ps);
  }

  lemma {:induction false} NonEmptyOfNonEmpty(ps: seq<string>)
    requires forall k :: 0 <= k < |ps| ==> ps[k] != []
    ensures NonEmpty(ps) == ps
  {
    if ps != [] {
      NonEmptyOfNonEmpty(ps[..|ps| - 1]);
    }
  }

  /** split_at undoes writing non-empty, delimiter-free pieces each followed
      by the delimiter, as a text file of lines is written. */
  lemma SplitOfTerminated(ps: seq<string>, d: char, allowEmpty: bool)
    requires |ps| >= 1
    requires forall k :: 0 <= k < |ps| ==> d !in ps[k] && ps[k] != []
    ensures Split(Join(ps, d) + [d], d, allowEmpty) == ps
  {
    PiecesOfJoin(ps, d);
    PiecesSnoc(Join(ps, d), d, d);
    assert (ps + [[]])[..|ps|] == ps;
    NonEmptyOfNonEmpty(ps);
  }

  /** With empty pieces allowed, split_at also undoes writing delimiter-free
      pieces, some of them empty, each followed by the delimiter. */
  lemma FieldsOfTerminated(ps: seq<string>, d: char)
    requires |ps| >= 1
    requires forall k :: 0 <= k < |ps| ==> d !in ps[k]
    ensures Split(Join(ps, d) + [d], d, true) == ps
  {
    PiecesOfJoin(ps, d);
    PiecesSnoc(Join(ps, d), d, d);
    assert (ps + [[]])[..|ps|] == ps;
  }

  /** Without empty pieces, split_at undoes joining delimiter-free pieces,
      dropping the empty ones (runs of delimiters count as one). */
  lemma WordsOfJoin(ps: seq<string>, d: char)
    requires |ps| >= 1
    requires forall k :: 0 <= k < |ps| ==> d !in ps[k]
    ensures Split(Join(ps, d), d, false) == NonEmpty(ps)
  {
    PiecesOfJoin(ps, d);
    if ps[|ps| - 1] == [] {
      assert ps == ps[..|ps| - 1] + [ps[|ps| - 1]];
      NonEmptySnoc(ps[..|ps| - 1], []);
    }
  }

  /** m empty pieces: m extra delimiters in a run. */
  function Empties(m: nat): seq<string> {
    if m == 0 then [] else Empties(m - 1) + [[]]
  }

  /** Words laid out with runs of delimiters: gaps[0] extra delimiters before
      the first word and gaps[k + 1] after word k, as pieces for Join. */
  function Spaced(words: seq<string>, gaps: seq<nat>): (ps: seq<string>)
    requires |gaps| == |words| + 1
    ensures |ps| >= |words|
  {
    var n := |words|;
    if n == 0 then Empties(gaps[0]) else Spaced(words[..n - 1], gaps[..n]) + [words[n - 1]] + Empties(gaps[n])
  }

  lemma {:induction false} NonEmptyEmpties(ps: seq<string>, m: nat)
    ensures NonEmpty(ps + Empties(m)) == NonEmpty(ps)
  {
    if m == 0 {
      assert ps + Empties(m) == ps;
    } else {
      NonEmptyEmpties(ps, m - 1);
      assert ps + Empties(m) == (ps + Empties(m - 1)) + [[]];
      NonEmptySnoc(ps + Empties(m - 1), []);
    }
  }

  /** Dropping the empty pieces of a spaced layout gives back its words. */
  lemma {:induction false} NonEmptySpaced(words: seq<string>, gaps: seq<nat>)
    requires |gaps| == |words| + 1
    requires forall k :: 0 <= k < |words| ==> words[k] != []
    ensures NonEmpty(Spaced(words, gaps)) == words
  {
    var n := |words|;
    if n == 0 {
      NonEmptyEmpties([], gaps[0]);
      assert [] + Empties(gaps[0]) == Empties(gaps[0]);
    } else {
      var init := Spaced(words[..n - 1], gaps[..n]);
      NonEmptySpaced(words[..n - 1], gaps[..n]);
      NonEmptyEmpties(init + [words[n - 1]], gaps[n]);
      NonEmptySnoc(init, words[n - 1]);
      SplitLast(words);
    }
  }

  lemma {:induction false} EmptiesAreEmpty(m: nat)
    ensures forall k :: 0 <= k < |Empties(m)| ==> Empties(m)[k] == []
  {
    if m > 0 {
      EmptiesAreEmpty(m - 1);
    }
  }

  /** Every piece of a spaced layout is empty or one of the words. */
  lemma {:induction false} SpacedPieces(words: seq<string>, gaps: seq<nat>)
    requires |gaps| == |words| + 1
    ensures forall k :: 0 <= k < |Spaced(words, gaps)| ==> Spaced(words, gaps)[k] == [] || Spaced(words, gaps)[k] in words
  {
    var n := |words|;
    EmptiesAreEmpty(gaps[n]);
    if n > 0 {
      SpacedPieces(words[..n - 1], gaps[..n]);
      assert forall w :: w in words[..n - 1] ==> w in words;
    }
  }

  /** A character that is neither the delimiter nor in any piece is not in the join. */
  lemma {:induction false} JoinAvoids(ps: seq<string>, d: char, c: char)
    requires |ps| >= 1 && c != d
    requires forall k :: 0 <= k < |ps| ==> c !in ps[k]
    ensures c !in Join(ps, d)
  {
    if |ps| > 1 {
      JoinAvoids(ps[..|ps| - 1], d, c);
    }
  }

  /** split_at without empty pieces reads back the words of any spaced layout. */
  lemma WordsOfSpaced(words: seq<string>, gaps: seq<nat>, d: char)
    requires |words| >= 1 && |gaps| == |words| + 1
    requires forall k :: 0 <= k < |words| ==> words[k] != [] && d !in words[k]
    ensures Split(Join(Spaced(words, gaps), d), d, false) == words
  {
    var ps := Spaced(words, gaps);
    SpacedPieces(words, gaps);
    WordsOfJoin(ps, d);
    NonEmptySpaced(words, gaps);
  }

  /** A line written as a spaced layout splits back into its words, is not
      empty, and holds no character that neither the words nor the
      delimiter hold. */
  lemma SpacedLine(words: seq<string>, gaps: seq<nat>, d: char, c: char)
    requires |words| >= 1 && |gaps| == |words| + 1 && c != d
    requires forall k :: 0 <= k < |words| ==> words[k] != [] && d !in words[k] && c !in words[k]
    ensures Split(Join(Spaced(words, gaps), d), d, false) == words
    ensures c !in Join(Spaced(words, gaps), d) && Join(Spaced(words, gaps), d) != []
  {
    WordsOfSpaced(words, gaps, d);
    SpacedPieces(words, gaps);
    JoinAvoids(Spaced(words, gaps), d, c);
  }

  /** Appending a non-empty sequence is appending its front, then its last element. */
  lemma AppendSnoc<T>(xs: seq<T>, ys: seq<T>)
    requires ys != []
    ensures xs + ys == (xs + ys[..|ys| - 1]) + [ys[|ys| - 1]]
  {
    assert ys == ys[..|ys| - 1] + [ys[|ys| - 1]];
  }

  /** n delimiters in a row. */
  function Run(d: char, n: nat): (s: string)
    ensures |s| == n && forall k :: 0 <= k < n ==> s[k] == d
  {
    seq(n, _ => d)
  }

  /** Joining m empty pieces writes the m - 1 delimiters between them. */
  lemma {:induction false} JoinEmpties(m: nat, d: char)
    requires m >= 1
    ensures Join(Empties(m), d) == Run(d, m - 1)
  {
    if m == 1 {
      assert Empties(1) == [[]];
    } else {
      JoinEmpties(m - 1, d);
      JoinSnoc(Empties(m - 1), [], d);
      assert Run(d, m - 2) + [d] + [] == Run(d, m - 1);
    }
  }

  /** Empty pieces after the last one add one delimiter each. */
  lemma {:induction false} JoinAppendEmpties(ps: seq<string>, m: nat, d: char)
    requires |ps| >= 1
    ensures Join(ps + Empties(m), d) == Join(ps, d) + Run(d, m)
  {
    if m == 0 {
      assert ps + Empties(0) == ps;
      assert Join(ps, d) + Run(d, 0) == Join(ps, d);
    } else {
      JoinAppendEmpties(ps, m - 1, d);
      assert ps + Empties(m) == (ps + Empties(m - 1)) + [[]];
      JoinSnoc(ps + Empties(m - 1), [], d);
      assert Join(ps, d) + Run(d, m - 1) + [d] + [] == Join(ps, d) + Run(d, m);
    }
  }

  /** A layout of one word is its runs of delimiters around the word. */
  lemma JoinSpacedOne(w: string, g0: nat, g1: nat, d: char)
    ensures Join(Spaced([w], [g0, g1]), d) == Run(d, g0) + w + Run(d, g1)
  {
    assert [w][..0] == [] && [g0, g1][..1] == [g0];
    assert Spaced([w], [g0, g1]) == (Empties(g0) + [w]) + Empties(g1);
    if g0 == 0 {
      assert Empties(g0) + [w] == [w];
      assert Run(d, g0) + w == w;
    } else {
      JoinEmpties(g0, d);
      JoinSnoc(Empties(g0), w, d);
      assert Run(d, g0 - 1) + [d] + w == Run(d, g0) + w;
    }
    JoinAppendEmpties(Empties(g0) + [w], g1, d);
  }

  /** One more word in a layout is written after a delimiter, followed by
      its run. */
  lemma JoinSpacedSnoc(ws: seq<string>, gs: seq<nat>, w: string, k: nat, d: char)
    requires |ws| >= 1 && |gs| == |ws| + 1
    ensures Join(Spaced(ws + [w], gs + [k]), d) == Join(Spaced(ws, gs), d) + [d] + w + Run(d, k)
  {
    var n := |ws| + 1;
    assert (ws + [w])[..n - 1] == ws && (gs + [k])[..n] == gs;
    var ps := Spaced(ws, gs);
    assert Spaced(ws + [w], gs + [k]) == (ps + [w]) + Empties(k);
    JoinSnoc(ps, w, d);
    JoinAppendEmpties(ps + [w], k, d);
  }
}
