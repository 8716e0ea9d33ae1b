/**
 * The range-list encoding behind `TemperatureController._format_atom_list`
 * (modules/temperature_controller.py): sorted atom indices grouped into
 * runs of consecutive integers, each run written `n` or `a-b`, the runs
 * joined by commas, and a long list wrapped into lines of at most 80
 * characters joined by a backslash line continuation.
 *
 * This module holds the specification functions and their properties; the
 * loop that computes them is `TemperatureController.FormatAtomList`.
 */
module AtomRanges {
  import opened Wrappers
  import opened PyText

  /** The text `_format_atom_list` returns for an empty list, and `ATOMS=` uses when there are no solute atoms. */
  const Placeholder: string := "1-100  # EDIT THIS: Replace with actual solute atom indices"

  /** The continuation between wrapped lines: a space, a backslash, a newline and four spaces. */
  const LineBreak: string := " \\\n    "

  /** The wrap threshold. */
  const MaxLine: nat := 80

  // ---------------------------------------------------------------------
  // Sorting (`sorted`)
  // ---------------------------------------------------------------------

  predicate IsSorted(s: seq<int>)
  {
    forall i, j :: 0 <= i < j < |s| ==> s[i] <= s[j]
  }

  predicate StrictlyIncreasing(s: seq<int>)
  {
    forall i, j :: 0 <= i < j < |s| ==> s[i] < s[j]
  }

  function Insert(x: int, s: seq<int>): (r: seq<int>)
    requires IsSorted(s)
    ensures IsSorted(r) && multiset(r) == multiset(s) + multiset{x} && |r| == |s| + 1
  {
    if s == [] then [x]
    else if x <= s[0] then
      SortedCons(x, s);
      [x] + s
    else
      var tail := Insert(x, s[1..]);
      assert s == [s[0]] + s[1..];
      LowerBound(s[0], tail, s[1..], x);
      SortedCons(s[0], tail);
      [s[0]] + tail
  }

  /** A sorted list stays sorted under a new head no larger than its elements. */
  lemma SortedCons(h: int, t: seq<int>)
    requires IsSorted(t) && (t != [] ==> h <= t[0])
    ensures IsSorted([h] + t)
  {
  }

  /** A bound below every element of `u` and below `x` is below every element of a permutation of `u + [x]`. */
  lemma LowerBound(b: int, t: seq<int>, u: seq<int>, x: int)
    requires multiset(t) == multiset(u) + multiset{x}
    requires b <= x && forall k :: 0 <= k < |u| ==> b <= u[k]
    ensures forall k :: 0 <= k < |t| ==> b <= t[k]
  {
    forall k | 0 <= k < |t|
      ensures b <= t[k]
    {
      assert t[k] in multiset(t);
      if t[k] != x {
        assert t[k] in multiset(u);
        assert t[k] in u;
      }
    }
  }

  /** Python's `sorted(s)`: the same multiset in ascending order. */
  function Sorted(s: seq<int>): (r: seq<int>)
    ensures IsSorted(r) && multiset(r) == multiset(s) && |r| == |s|
  {
    if s == [] then []
    else
      assert s == s[..|s| - 1] + [s[|s| - 1]];
      Insert(s[|s| - 1], Sorted(s[..|s| - 1]))
  }

  // ---------------------------------------------------------------------
  // Runs of consecutive integers
  // ---------------------------------------------------------------------

  /**
   * The runs the grouping loop emits for `s`: the next element extends the
   * current run when it is one more than the run's end, and starts a new
   * run otherwise.
   */
  function Runs(s: seq<int>): (runs: seq<(int, int)>)
    requires |s| > 0
    ensures |runs| > 0 && runs[|runs| - 1].1 == s[|s| - 1]
  {
    if |s| == 1 then [(s[0], s[0])]
    else
      var prev := Runs(s[..|s| - 1]);
      var last := prev[|prev| - 1];
      var x := s[|s| - 1];
      if x == last.1 + 1 then prev[..|prev| - 1] + [(last.0, x)]
      else prev + [(x, x)]
  }

  /** One more element either extends the last run or opens a new one. */
  lemma RunsStep(s: seq<int>, i: nat, done: seq<(int, int)>, start: int, end: int)
    requires 1 <= i < |s| && Runs(s[..i]) == done + [(start, end)]
    ensures s[i] == end + 1 ==> Runs(s[..i + 1]) == done + [(start, s[i])]
    ensures s[i] != end + 1 ==> Runs(s[..i + 1]) == done + [(start, end)] + [(s[i], s[i])]
  {
    assert s[..i + 1][..i] == s[..i];
    assert (done + [(start, end)])[..|done|] == done;
  }

  lemma TokensSnoc(runs: seq<(int, int)>, run: (int, int))
    ensures Tokens(runs + [run]) == Tokens(runs) + [Token(run)]
  {
  }

  /** `x` lies in one of the runs. */
  predicate Covered(runs: seq<(int, int)>, x: int)
  {
    exists k :: 0 <= k < |runs| && runs[k].0 <= x <= runs[k].1
  }

  /** The shape of the runs of a sorted sequence. */
  predicate WellFormedRuns(runs: seq<(int, int)>)
  {
    && (forall k :: 0 <= k < |runs| ==> runs[k].0 <= runs[k].1)
    && (forall k :: 0 <= k < |runs| - 1 ==> runs[k].1 <= runs[k + 1].0 && runs[k + 1].0 != runs[k].1 + 1)
  }

  /** One run as text: `str(start)` or `f"{start}-{end}"`. */
  function Token(run: (int, int)): string
  {
    if run.0 == run.1 then IntToString(run.0) else IntToString(run.0) + "-" + IntToString(run.1)
  }

  function Tokens(runs: seq<(int, int)>): (toks: seq<string>)
    ensures |toks| == |runs|
    ensures forall k :: 0 <= k < |runs| ==> toks[k] == Token(runs[k])
  {
    if runs == [] then [] else [Token(runs[0])] + Tokens(runs[1..])
  }

  /** `",".join(ranges)` for the runs of the sorted indices. */
  function Unwrapped(indices: seq<int>): string
    requires |indices| > 0
  {
    Join(Tokens(Runs(Sorted(indices))), ",")
  }

  // ---------------------------------------------------------------------
  // Wrapping
  // ---------------------------------------------------------------------

  /** One step of the wrap loop over `(formatted_ranges, current_line)`. */
  function WrapStep(state: (seq<string>, string), tok: string): (seq<string>, string)
  {
    var (lines, cur) := state;
    if |cur| + |tok| + 1 > MaxLine then
      ((if cur != [] then lines + [RStrip(cur)] else lines), tok)
    else if cur != [] then (lines, cur + "," + tok)
    else (lines, tok)
  }

  /** The wrap loop's state after the given tokens. */
  function WrapState(toks: seq<string>): (seq<string>, string)
  {
    if toks == [] then ([], [])
    else WrapStep(WrapState(toks[..|toks| - 1]), toks[|toks| - 1])
  }

  /** The wrapped lines: the completed ones and the last, non-empty current line. */
  function WrapLines(toks: seq<string>): seq<string>
  {
    var (lines, cur) := WrapState(toks);
    if cur != [] then lines + [cur] else lines
  }

  /** What `_format_atom_list` returns. */
  function AtomListText(indices: seq<int>): string
  {
    if indices == [] then Placeholder
    else
      var toks := Tokens(Runs(Sorted(indices)));
      var joined := Join(toks, ",");
      if |joined| > MaxLine then Join(WrapLines(toks), LineBreak) else joined
  }

  // ---------------------------------------------------------------------
  // Decoding
  // ---------------------------------------------------------------------

  /** Python's `s.split(c)`: always at least one piece. */
  function SplitOn(s: string, c: char): (pieces: seq<string>)
    ensures |pieces| > 0
    decreases |s|
  {
    match Find(s, [c])
    case None => [s]
    case Some(k) => [s[..k]] + SplitOn(s[k + 1..], c)
  }

  /** A non-negative decimal numeral. */
  function ParseNat(s: string): Option<nat>
  {
    if s != [] && AllDigits(s) then Some(DigitsValue(s)) else None
  }

  /** Reading one token back: `a-b` or `n`. */
  function ParseToken(t: string): Option<(int, int)>
  {
    match Find(t, "-")
    case Some(k) =>
      (match (ParseNat(t[..k]), ParseNat(t[k + 1..]))
       case (Some(a), Some(b)) => Some((a as int, b as int))
       case _ => None)
    case None =>
      (match ParseNat(t)
       case Some(v) => Some((v as int, v as int))
       case None => None)
  }

  function ParseTokens(ts: seq<string>): Option<seq<(int, int)>>
  {
    if ts == [] then Some([])
    else match (ParseToken(ts[0]), ParseTokens(ts[1..]))
      case (Some(r), Some(rs)) => Some([r] + rs)
      case _ => None
  }

  /** Reading an unwrapped list back into its runs. */
  function DecodeAtomList(text: string): Option<seq<(int, int)>>
  {
    ParseTokens(SplitOn(text, ','))
  }

  // ---------------------------------------------------------------------
  // Lemmas: runs
  // ---------------------------------------------------------------------

  lemma SortedPrefix(s: seq<int>, i: nat)
    requires IsSorted(s) && i <= |s|
    ensures IsSorted(s[..i])
  {
  }

  /** Extending the last run by its successor adds exactly that successor to the covered set. */
  lemma CoverExtend(prev: seq<(int, int)>, x: int)
    requires |prev| > 0 && prev[|prev| - 1].0 <= prev[|prev| - 1].1 && x == prev[|prev| - 1].1 + 1
    ensures forall y :: Covered(prev[..|prev| - 1] + [(prev[|prev| - 1].0, x)], y) <==> Covered(prev, y) || y == x
  {
    var last := prev[|prev| - 1];
    var runs := prev[..|prev| - 1] + [(last.0, x)];
    forall y
      ensures Covered(runs, y) <==> Covered(prev, y) || y == x
    {
      if Covered(runs, y) {
        var k :| 0 <= k < |runs| && runs[k].0 <= y <= runs[k].1;
        if k < |prev| - 1 {
          assert runs[k] == prev[k];
        } else if y <= last.1 {
          assert prev[|prev| - 1].0 <= y <= prev[|prev| - 1].1;
        }
      }
      if Covered(prev, y) {
        var k :| 0 <= k < |prev| && prev[k].0 <= y <= prev[k].1;
        if k < |prev| - 1 {
          assert runs[k] == prev[k];
        } else {
          assert runs[|runs| - 1] == (last.0, x);
        }
      }
      if y == x {
        assert runs[|runs| - 1] == (last.0, x);
      }
    }
  }

  /** Appending a one-element run adds exactly that element to the covered set. */
  lemma CoverAppend(prev: seq<(int, int)>, x: int)
    ensures forall y :: Covered(prev + [(x, x)], y) <==> Covered(prev, y) || y == x
  {
    var runs := prev + [(x, x)];
    forall y
      ensures Covered(runs, y) <==> Covered(prev, y) || y == x
    {
      if Covered(runs, y) {
        var k :| 0 <= k < |runs| && runs[k].0 <= y <= runs[k].1;
        if k < |prev| {
          assert runs[k] == prev[k];
        }
      }
      if Covered(prev, y) {
        var k :| 0 <= k < |prev| && prev[k].0 <= y <= prev[k].1;
        assert runs[k] == prev[k];
      }
      if y == x {
        assert runs[|runs| - 1] == (x, x);
      }
    }
  }

  /** The last step of `Runs` keeps the runs well formed when the new element is not below the last one. */
  lemma WellFormedStep(prev: seq<(int, int)>, x: int)
    requires |prev| > 0 && WellFormedRuns(prev) && prev[|prev| - 1].1 <= x
    ensures x == prev[|prev| - 1].1 + 1 ==> WellFormedRuns(prev[..|prev| - 1] + [(prev[|prev| - 1].0, x)])
    ensures x != prev[|prev| - 1].1 + 1 ==> WellFormedRuns(prev + [(x, x)])
  {
  }

  /**
   * The runs of a sorted sequence are well formed, start at its first
   * element, and cover exactly its elements.
   */
  lemma {:induction false} RunsOfSorted(s: seq<int>)
    requires |s| > 0 && IsSorted(s)
    ensures WellFormedRuns(Runs(s))
    ensures Runs(s)[0].0 == s[0]
    ensures forall x :: Covered(Runs(s), x) <==> x in s
  {
    if |s| > 1 {
      var init := s[..|s| - 1];
      var x := s[|s| - 1];
      SortedPrefix(s, |s| - 1);
      RunsOfSorted(init);
      var prev := Runs(init);
      assert prev[|prev| - 1].1 == init[|init| - 1] <= x;
      assert s == init + [x];
      assert forall y :: y in s <==> y in init || y == x;
      WellFormedStep(prev, x);
      if x == prev[|prev| - 1].1 + 1 {
        CoverExtend(prev, x);
      } else {
        CoverAppend(prev, x);
      }
    }
  }

  /** No index occurs twice, as for the atom indices of a selection. */
  predicate Distinct(xs: seq<int>)
  {
    forall i, j :: 0 <= i < j < |xs| ==> xs[i] != xs[j]
  }

  /** Each value occurs at most once in a list without repetitions. */
  lemma {:induction false} DistinctCount(xs: seq<int>, v: int)
    requires Distinct(xs)
    ensures multiset(xs)[v] <= 1
  {
    if xs != [] {
      var tail := xs[1..];
      assert xs == [xs[0]] + tail;
      assert Distinct(tail) by {
        forall i, j | 0 <= i < j < |tail| ensures tail[i] != tail[j] {
          assert tail[i] == xs[i + 1] && tail[j] == xs[j + 1];
        }
      }
      DistinctCount(tail, v);
      if v == xs[0] {
        assert v !in tail by {
          forall k | 0 <= k < |tail| ensures tail[k] != v {
            assert tail[k] == xs[k + 1];
          }
        }
      }
    }
  }

  /** A value at two positions occurs at least twice. */
  lemma RepeatedCount(s: seq<int>, i: nat, j: nat)
    requires i < j < |s| && s[i] == s[j]
    ensures multiset(s)[s[i]] >= 2
  {
    assert s == s[..j] + s[j..];
    assert s[i] in s[..j];
    assert s[j..][0] == s[j];
  }

  /** Sorting distinct indices gives a strictly increasing list. */
  lemma SortedOfDistinct(xs: seq<int>)
    requires Distinct(xs)
    ensures StrictlyIncreasing(Sorted(xs))
  {
    var r := Sorted(xs);
    forall i, j | 0 <= i < j < |r| ensures r[i] < r[j] {
      if r[i] == r[j] {
        RepeatedCount(r, i, j);
        DistinctCount(xs, r[i]);
        assert false;
      }
    }
  }

  /** For distinct indices, neighbouring runs of the sorted list are separated by a gap of at least two. */
  lemma RunsOfDistinctAreMaximal(xs: seq<int>)
    requires |xs| > 0 && Distinct(xs)
    ensures forall k :: 0 <= k < |Runs(Sorted(xs))| - 1 ==> Runs(Sorted(xs))[k + 1].0 >= Runs(Sorted(xs))[k].1 + 2
  {
    RunsOfSortedNoOverlap(xs);
    RunsOfSorted(Sorted(xs));
  }

  /** For distinct indices no run of the sorted list begins where the previous one ends. */
  lemma RunsOfSortedNoOverlap(xs: seq<int>)
    requires |xs| > 0 && Distinct(xs)
    ensures forall k :: 0 <= k < |Runs(Sorted(xs))| - 1 ==> Runs(Sorted(xs))[k].1 < Runs(Sorted(xs))[k + 1].0
  {
    SortedOfDistinct(xs);
    RunsOfIncreasingNoOverlap(Sorted(xs));
  }

  /** For strictly increasing input no run begins where the previous one ends. */
  lemma {:induction false} RunsOfIncreasingNoOverlap(s: seq<int>)
    requires |s| > 0 && StrictlyIncreasing(s)
    ensures forall k :: 0 <= k < |Runs(s)| - 1 ==> Runs(s)[k].1 < Runs(s)[k + 1].0
  {
    if |s| > 1 {
      var init := s[..|s| - 1];
      var x := s[|s| - 1];
      RunsOfIncreasingNoOverlap(init);
      var prev := Runs(init);
      assert prev[|prev| - 1].1 == init[|init| - 1] < x;
    }
  }

  // ---------------------------------------------------------------------
  // Lemmas: decoding
  // ---------------------------------------------------------------------

  predicate NoChar(s: string, c: char)
  {
    forall i :: 0 <= i < |s| ==> s[i] != c
  }

  lemma {:induction false} FindAbsent(s: string, c: char)
    requires NoChar(s, c)
    ensures Find(s, [c]) == None
    decreases |s|
  {
    if s != [] {
      assert s[..1][0] == s[0];
      assert !StartsWith(s, [c]);
      FindAbsent(s[1..], c);
    }
  }

  /** The first `c` in `a + [c] + b` is right after `a` when `a` has none. */
  lemma FindAfterPrefix(a: string, c: char, b: string)
    requires NoChar(a, c)
    ensures Find(a + [c] + b, [c]) == Some(|a|)
  {
    var s := a + [c] + b;
    assert s[|a|..][..1] == [c];
    assert StartsWith(s[|a|..], [c]);
    var r := Find(s, [c]);
    assert r.Some?;
    assert s[r.value..r.value + 1][0] == s[r.value];
    assert s[r.value] == c;
    assert forall k :: 0 <= k < |a| ==> s[k] == a[k];
    assert r.value >= |a|;
    assert s[|a|..] != [];
  }

  lemma {:induction false} SplitOnJoin(ts: seq<string>, c: char)
    requires |ts| > 0 && forall k :: 0 <= k < |ts| ==> NoChar(ts[k], c)
    ensures SplitOn(Join(ts, [c]), c) == ts
  {
    if |ts| == 1 {
      FindAbsent(ts[0], c);
    } else {
      var rest := Join(ts[1..], [c]);
      assert Join(ts, [c]) == ts[0] + [c] + rest;
      FindAfterPrefix(ts[0], c, rest);
      assert (ts[0] + [c] + rest)[..|ts[0]|] == ts[0];
      assert (ts[0] + [c] + rest)[|ts[0]| + 1..] == rest;
      SplitOnJoin(ts[1..], c);
    }
  }

  lemma DigitsNoChar(s: string, c: char)
    requires AllDigits(s) && !IsDigit(c)
    ensures NoChar(s, c)
  {
  }

  lemma ParseNatOfNatToString(n: nat)
    ensures ParseNat(NatToString(n)) == Some(n)
  {
    DigitsValueOfNatToString(n);
  }

  /** A token of a run of non-negative integers reads back as that run. */
  lemma ParseTokenOfToken(run: (int, int))
    requires 0 <= run.0 && 0 <= run.1
    ensures ParseToken(Token(run)) == Some(run)
  {
    var a := NatToString(run.0);
    DigitsNoChar(a, '-');
    ParseNatOfNatToString(run.0);
    if run.0 == run.1 {
      FindAbsent(a, '-');
    } else {
      var b := NatToString(run.1);
      ParseNatOfNatToString(run.1);
      FindAfterPrefix(a, '-', b);
      assert Token(run) == a + ['-'] + b;
      assert (a + ['-'] + b)[..|a|] == a;
      assert (a + ['-'] + b)[|a| + 1..] == b;
    }
  }

  lemma {:induction false} ParseTokensOfTokens(runs: seq<(int, int)>)
    requires forall k :: 0 <= k < |runs| ==> 0 <= runs[k].0 && 0 <= runs[k].1
    ensures ParseTokens(Tokens(runs)) == Some(runs)
  {
    if runs != [] {
      ParseTokenOfToken(runs[0]);
      ParseTokensOfTokens(runs[1..]);
      assert Tokens(runs)[1..] == Tokens(runs[1..]);
      assert [runs[0]] + runs[1..] == runs;
    }
  }

  lemma TokenNoComma(run: (int, int))
    requires 0 <= run.0 && 0 <= run.1
    ensures NoChar(Token(run), ',')
  {
    DigitsNoChar(NatToString(run.0), ',');
    DigitsNoChar(NatToString(run.1), ',');
  }

  /**
   * Decoding the unwrapped list of non-negative indices gives back its runs,
   * and the runs cover exactly the input indices: nothing is lost or added.
   */
  lemma DecodeRoundTrip(indices: seq<int>)
    requires |indices| > 0 && forall i :: 0 <= i < |indices| ==> indices[i] >= 0
    ensures DecodeAtomList(Unwrapped(indices)) == Some(Runs(Sorted(indices)))
    ensures forall x :: Covered(Runs(Sorted(indices)), x) <==> x in indices
  {
    var s := Sorted(indices);
    RunsOfSorted(s);
    var runs := Runs(s);
    assert forall x :: x in s <==> x in indices by {
      assert forall x :: x in s <==> x in multiset(s);
      assert forall x :: x in indices <==> x in multiset(indices);
    }
    forall k | 0 <= k < |runs|
      ensures 0 <= runs[k].0 && 0 <= runs[k].1
    {
      assert Covered(runs, runs[k].0);
      assert runs[k].0 in s;
    }
    forall k | 0 <= k < |runs|
      ensures NoChar(Tokens(runs)[k], ',')
    {
      TokenNoComma(runs[k]);
    }
    SplitOnJoin(Tokens(runs), ',');
    ParseTokensOfTokens(runs);
  }

  /** `Runs` of one more element, read off the runs before it. */
  lemma RunsSnoc(s: seq<int>, x: int)
    requires |s| > 0
    ensures var prev := Runs(s); var last := prev[|prev| - 1];
      Runs(s + [x]) == if x == last.1 + 1 then prev[..|prev| - 1] + [(last.0, x)] else prev + [(x, x)]
  {
    assert (s + [x])[..|s|] == s;
  }

  /** The first run of the example. */
  lemma FirstRunOfExample()
    ensures Runs([1, 2, 3]) == [(1, 3)]
  {
    RunsSnoc([1], 2);
    assert [1] + [2] == [1, 2];
    RunsSnoc([1, 2], 3);
    assert [1, 2] + [3] == [1, 2, 3];
  }

  /** The second run of the example opens ... */
  lemma SecondRunOpens()
    ensures Runs([1, 2, 3, 5]) == [(1, 3), (5, 5)]
  {
    FirstRunOfExample();
    RunsSnoc([1, 2, 3], 5);
    assert [1, 2, 3] + [5] == [1, 2, 3, 5];
  }

  /** ... and grows. */
  lemma SecondRunOfExample()
    ensures Runs([1, 2, 3, 5, 6]) == [(1, 3), (5, 6)]
  {
    SecondRunOpens();
    RunsSnoc([1, 2, 3, 5], 6);
    assert [1, 2, 3, 5] + [6] == [1, 2, 3, 5, 6];
  }

  /** The example of the documentation: `[1, 2, 3, 5, 6, 9]` becomes `1-3,5-6,9`. */
  lemma FormatExample()
    ensures Runs([1, 2, 3, 5, 6, 9]) == [(1, 3), (5, 6), (9, 9)]
  {
    SecondRunOfExample();
    RunsSnoc([1, 2, 3, 5, 6], 9);
    assert [1, 2, 3, 5, 6] + [9] == [1, 2, 3, 5, 6, 9];
  }

  /** The tokens of those runs. */
  lemma TokensOfExample()
    ensures Tokens([(1, 3), (5, 6), (9, 9)]) == ["1-3", "5-6", "9"]
  {
    assert NatToString(1) == "1" && NatToString(3) == "3" && NatToString(5) == "5";
    assert NatToString(6) == "6" && NatToString(9) == "9";
    assert Token((1, 3)) == "1-3";
    assert Token((5, 6)) == "5-6";
    assert Token((9, 9)) == "9";
  }

  /** The text of those runs. */
  lemma FormatExampleText()
    ensures Join(Tokens([(1, 3), (5, 6), (9, 9)]), ",") == "1-3,5-6,9"
  {
    TokensOfExample();
    var toks: seq<string> := ["1-3", "5-6", "9"];
    assert Join(toks[2..], ",") == "9";
    assert Join(toks[1..], ",") == "5-6" + "," + "9";
  }

  // ---------------------------------------------------------------------
  // Lemmas: wrapping
  // ---------------------------------------------------------------------

  /** A wrapped line fits in 80 characters, or it is one token that alone is longer. */
  predicate LineFits(line: string, toks: seq<string>)
  {
    |line| <= MaxLine || line in toks
  }

  lemma TokenShape(run: (int, int))
    ensures Token(run) != [] && NoSpace(Token(run))
  {
    assert AllDigits(NatToString(if run.0 < 0 then -run.0 else run.0));
    assert AllDigits(NatToString(if run.1 < 0 then -run.1 else run.1));
  }

  lemma JoinSnocPiece(ws: seq<string>, y: string, z: string, sep: string)
    ensures Join(ws + [y + sep + z], sep) == Join(ws + [y], sep) + sep + z
  {
    if ws != [] {
      JoinSnoc(ws, y + sep + z, sep);
      JoinSnoc(ws, y, sep);
    }
  }

  /** What the wrap loop keeps: its lines, followed by the current line, re-join to the unwrapped list. */
  lemma {:induction false} WrapInvariant(toks: seq<string>)
    requires |toks| > 0 && forall k :: 0 <= k < |toks| ==> toks[k] != [] && NoSpace(toks[k])
    ensures WrapState(toks).1 != [] && NoSpace(WrapState(toks).1)
    ensures Join(WrapState(toks).0 + [WrapState(toks).1], ",") == Join(toks, ",")
  {
    var init := toks[..|toks| - 1];
    var t := toks[|toks| - 1];
    assert toks == init + [t];
    if init == [] {
      assert WrapState(init) == ([], []);
    } else {
      WrapInvariant(init);
      var (lines, cur) := WrapState(init);
      JoinSnoc(init, t, ",");
      if |cur| + |t| + 1 > MaxLine {
        RStripOfNonSpaceEnd(cur);
        assert WrapState(toks) == (lines + [cur], t);
        JoinSnoc(lines + [cur], t, ",");
      } else {
        assert WrapState(toks) == (lines, cur + "," + t);
        JoinSnocPiece(lines, cur, t, ",");
      }
    }
  }

  /** ... and every line it keeps, the current one included, fits or is a single token. */
  lemma {:induction false} WrapFits(toks: seq<string>)
    requires |toks| > 0 && forall k :: 0 <= k < |toks| ==> toks[k] != [] && NoSpace(toks[k])
    ensures forall k :: 0 <= k < |WrapState(toks).0| ==> LineFits(WrapState(toks).0[k], toks)
    ensures LineFits(WrapState(toks).1, toks)
  {
    var init := toks[..|toks| - 1];
    var t := toks[|toks| - 1];
    assert toks == init + [t];
    if init == [] {
      assert WrapState(init) == ([], []);
    } else {
      WrapFits(init);
      WrapInvariant(init);
      var (lines, cur) := WrapState(init);
      assert forall line :: line in init ==> line in toks;
      if |cur| + |t| + 1 > MaxLine {
        RStripOfNonSpaceEnd(cur);
        assert WrapState(toks) == (lines + [cur], t);
      } else {
        assert WrapState(toks) == (lines, cur + "," + t);
      }
    }
  }

  /**
   * Wrapping only breaks the list at commas: joining the wrapped lines with
   * commas gives the unwrapped list back, and every line fits in 80
   * characters unless it is a single token that is longer by itself.
   */
  lemma WrapLinesProperties(toks: seq<string>)
    requires |toks| > 0 && forall k :: 0 <= k < |toks| ==> toks[k] != [] && NoSpace(toks[k])
    ensures |WrapLines(toks)| > 0
    ensures Join(WrapLines(toks), ",") == Join(toks, ",")
    ensures forall k :: 0 <= k < |WrapLines(toks)| ==> LineFits(WrapLines(toks)[k], toks)
  {
    WrapInvariant(toks);
    WrapFits(toks);
  }

  /**
   * The text `_format_atom_list` returns: the placeholder for no indices;
   * the comma-joined runs when that fits in 80 characters; otherwise lines
   * joined by a line continuation that re-join with commas to the same list.
   */
  lemma AtomListTextShape(indices: seq<int>)
    ensures indices == [] ==> AtomListText(indices) == Placeholder
    ensures indices != [] && |Unwrapped(indices)| <= MaxLine ==> AtomListText(indices) == Unwrapped(indices)
    ensures indices != [] && |Unwrapped(indices)| > MaxLine ==>
      var lines := WrapLines(Tokens(Runs(Sorted(indices))));
      && AtomListText(indices) == Join(lines, LineBreak)
      && Join(lines, ",") == Unwrapped(indices)
      && forall k :: 0 <= k < |lines| ==> LineFits(lines[k], Tokens(Runs(Sorted(indices))))
  {
    if indices != [] {
      var toks := Tokens(Runs(Sorted(indices)));
      forall k | 0 <= k < |toks|
        ensures toks[k] != [] && NoSpace(toks[k])
      {
        TokenShape(Runs(Sorted(indices))[k]);
      }
      WrapLinesProperties(toks);
    }
  }
}
