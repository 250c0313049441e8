/**
 * `count_consec` of burst_analysis.py: run-length encoding of a list of
 * integer frame indices into run lengths (`consec`) and run start values
 * (`initials`).
 *
 * The specification function `RunsOf` follows `count_consec`'s
 * scan over adjacent pairs `(x, y)`: the last run grows when `x == y - 1`,
 * otherwise a new run of length 1 starts at `y`. Nothing is deduplicated:
 * a repeated value fails the test and so opens a run of its own.
 */
module RunLength {
  import opened ListSort

  /** Sum of a list of integers, peeled from the end. */
  function Sum(xs: seq<int>): (total: int)
  {
    if |xs| == 0 then 0 else Sum(xs[..|xs| - 1]) + xs[|xs| - 1]
  }

  lemma SumPrefix(xs: seq<int>, i: int)
    requires 0 <= i < |xs|
    ensures Sum(xs[..i + 1]) == Sum(xs[..i]) + xs[i]
  {
    assert xs[..i + 1][..i] == xs[..i];
  }

  /** What `count_consec` returns: run lengths and the value each run starts at. */
  datatype Runs = Runs(consec: seq<int>, initials: seq<int>)

  /**
   * One iteration of the pair loop on the adjacent values `x`, `y`: the last
   * run grows when `x == y - 1`; otherwise a run of length 1 starts at `y`.
   */
  function Step(e: Runs, x: int, y: int): (e': Runs)
    requires |e.consec| == |e.initials| > 0
    ensures |e'.consec| == |e'.initials| > 0
    ensures |e'.consec| <= |e.consec| + 1 && e'.initials[0] == e.initials[0]
  {
    var c := e.consec;
    if x == y - 1 then Runs(c[|c| - 1 := c[|c| - 1] + 1], e.initials)
    else Runs(c + [1], e.initials + [y])
  }

  /** The result of the pair scan over `s`, peeled from the end. */
  function RunsOf(s: seq<int>): (e: Runs)
    requires |s| > 0
    ensures 1 <= |e.consec| <= |s| && |e.initials| == |e.consec|
    ensures e.initials[0] == s[0]
  {
    if |s| == 1 then Runs([1], [s[0]])
    else Step(RunsOf(s[..|s| - 1]), s[|s| - 2], s[|s| - 1])
  }

  /** One scan step: the encoding of `p + [x]` from that of `p`. */
  lemma RunsOfSnoc(p: seq<int>, x: int)
    requires |p| > 0
    ensures RunsOf(p + [x]) == Step(RunsOf(p), p[|p| - 1], x)
  {
    var s := p + [x];
    assert s[..|s| - 1] == p;
  }

  /** A scan step keeps every run length at least 1. */
  lemma StepPositive(e: Runs, x: int, y: int)
    requires |e.consec| == |e.initials| > 0
    requires forall i :: 0 <= i < |e.consec| ==> e.consec[i] >= 1
    ensures forall i :: 0 <= i < |Step(e, x, y).consec| ==> Step(e, x, y).consec[i] >= 1
  {
  }

  /** Every run has length at least 1. */
  lemma {:induction false} RunsPositive(s: seq<int>)
    requires |s| > 0
    ensures forall i :: 0 <= i < |RunsOf(s).consec| ==> RunsOf(s).consec[i] >= 1
  {
    if |s| > 1 {
      var p, x := s[..|s| - 1], s[|s| - 1];
      assert s == p + [x];
      RunsPositive(p);
      RunsOfSnoc(p, x);
      StepPositive(RunsOf(p), p[|p| - 1], x);
    }
  }

  lemma SumSnoc(xs: seq<int>, v: int)
    ensures Sum(xs + [v]) == Sum(xs) + v
  {
    assert (xs + [v])[..|xs|] == xs;
  }

  /** A scan step adds exactly one frame to the runs. */
  lemma StepSum(e: Runs, x: int, y: int)
    requires |e.consec| == |e.initials| > 0
    ensures Sum(Step(e, x, y).consec) == Sum(e.consec) + 1
  {
    var c := e.consec;
    var n := |c|;
    var c0, k := c[..n - 1], c[n - 1];
    assert c == c0 + [k];
    if x == y - 1 {
      assert Step(e, x, y).consec == c0 + [k + 1];
      SumSnoc(c0, k);
      SumSnoc(c0, k + 1);
    } else {
      SumSnoc(c, 1);
    }
  }

  /** The run lengths add up to `len(lst)`. */
  lemma {:induction false} RunsCoverAll(s: seq<int>)
    requires |s| > 0
    ensures Sum(RunsOf(s).consec) == |s|
  {
    if |s| > 1 {
      var p, x := s[..|s| - 1], s[|s| - 1];
      assert s == p + [x];
      RunsCoverAll(p);
      RunsOfSnoc(p, x);
      StepSum(RunsOf(p), p[|p| - 1], x);
    } else {
      assert RunsOf(s).consec == [1];
      SumSnoc([], 1);
    }
  }

  /** The consecutive integers `a, a + 1, ..., a + k - 1` (none when `k <= 0`). */
  function Span(a: int, k: int): (r: seq<int>)
  {
    if k <= 0 then [] else seq(k, j => a + j)
  }

  lemma SpanSnoc(a: int, k: int)
    requires k >= 0
    ensures Span(a, k + 1) == Span(a, k) + [a + k]
  {
  }

  /** The frames that runs with lengths `c` and starts `st` cover, run after run. */
  function Expand(c: seq<int>, st: seq<int>): (frames: seq<int>)
    requires |c| == |st|
  {
    if |c| == 0 then []
    else Expand(c[..|c| - 1], st[..|st| - 1]) + Span(st[|st| - 1], c[|c| - 1])
  }

  lemma ExpandSnoc(c: seq<int>, st: seq<int>, k: int, a: int)
    requires |c| == |st|
    ensures Expand(c + [k], st + [a]) == Expand(c, st) + Span(a, k)
  {
    assert (c + [k])[..|c|] == c;
    assert (st + [a])[..|st|] == st;
  }

  lemma {:induction false} ExpandLength(c: seq<int>, st: seq<int>)
    requires |c| == |st|
    requires forall i :: 0 <= i < |c| ==> c[i] >= 0
    ensures |Expand(c, st)| == Sum(c)
  {
    if c != [] {
      var n := |c|;
      var c0, st0, k, a := c[..n - 1], st[..n - 1], c[n - 1], st[n - 1];
      assert c == c0 + [k];
      assert st == st0 + [a];
      ExpandLength(c0, st0);
      ExpandSnoc(c0, st0, k, a);
      SumSnoc(c0, k);
    }
  }

  /** Position `Sum(c[..i]) + j` of the expansion is frame `j` of run `i`. */
  lemma {:induction false} ExpandAt(c: seq<int>, st: seq<int>, i: int, j: int)
    requires |c| == |st|
    requires forall k :: 0 <= k < |c| ==> c[k] >= 0
    requires 0 <= i < |c| && 0 <= j < c[i]
    ensures 0 <= Sum(c[..i]) + j < |Expand(c, st)|
    ensures Expand(c, st)[Sum(c[..i]) + j] == st[i] + j
  {
    var n := |c|;
    var c0, st0, k, a := c[..n - 1], st[..n - 1], c[n - 1], st[n - 1];
    assert c == c0 + [k];
    assert st == st0 + [a];
    ExpandSnoc(c0, st0, k, a);
    ExpandLength(c0, st0);
    var front := Expand(c0, st0);
    if i == n - 1 {
      assert c[..i] == c0;
      assert Span(a, k)[j] == a + j;
      assert (front + Span(a, k))[|front| + j] == a + j;
    } else {
      assert c0[..i] == c[..i];
      ExpandAt(c0, st0, i, j);
      var idx := Sum(c[..i]) + j;
      assert (front + Span(a, k))[idx] == front[idx];
    }
  }

  /** The last frame covered is the last frame of the last run. */
  lemma ExpandLast(c0: seq<int>, st0: seq<int>, k: int, a: int)
    requires |c0| == |st0| && k >= 1
    ensures |Expand(c0 + [k], st0 + [a])| > 0
    ensures Expand(c0 + [k], st0 + [a])[|Expand(c0 + [k], st0 + [a])| - 1] == a + k - 1
  {
    ExpandSnoc(c0, st0, k, a);
    assert Span(a, k)[k - 1] == a + k - 1;
  }

  /** Lengthening the last run by one covers one more frame, right after it. */
  lemma ExpandGrow(c0: seq<int>, st0: seq<int>, k: int, a: int)
    requires |c0| == |st0| && k >= 0
    ensures Expand(c0 + [k + 1], st0 + [a]) == Expand(c0 + [k], st0 + [a]) + [a + k]
  {
    ExpandSnoc(c0, st0, k, a);
    ExpandSnoc(c0, st0, k + 1, a);
    SpanSnoc(a, k);
  }

  /** A new run of length 1 at `x` covers just `x`. */
  lemma ExpandNew(c: seq<int>, st: seq<int>, x: int)
    requires |c| == |st|
    ensures Expand(c + [1], st + [x]) == Expand(c, st) + [x]
  {
    ExpandSnoc(c, st, 1, x);
    assert Span(x, 1) == [x];
  }

  /**
   * One scan step on the decoded side: if the runs of `e` expand to `p`,
   * the runs after `Step(e, p[|p|-1], x)` expand to `p + [x]`.
   */
  lemma ExpandStep(e: Runs, p: seq<int>, x: int)
    requires |e.consec| == |e.initials| > 0 && e.consec[|e.consec| - 1] >= 1
    requires Expand(e.consec, e.initials) == p
    ensures |p| > 0
    ensures p[|p| - 1] == e.initials[|e.initials| - 1] + e.consec[|e.consec| - 1] - 1
    ensures Expand(Step(e, p[|p| - 1], x).consec, Step(e, p[|p| - 1], x).initials) == p + [x]
  {
    var c, st := e.consec, e.initials;
    var n := |c|;
    var c0, st0, k, a := c[..n - 1], st[..n - 1], c[n - 1], st[n - 1];
    assert c == c0 + [k];
    assert st == st0 + [a];
    ExpandLast(c0, st0, k, a);
    if p[|p| - 1] == x - 1 {
      assert Step(e, p[|p| - 1], x) == Runs(c0 + [k + 1], st);
      ExpandGrow(c0, st0, k, a);
    } else {
      assert Step(e, p[|p| - 1], x) == Runs(c + [1], st + [x]);
      ExpandNew(c, st, x);
    }
  }

  /** Expanding the encoding of `s` gives back `s`, whatever `s` is. */
  lemma {:induction false} RoundTrip(s: seq<int>)
    requires |s| > 0
    ensures Expand(RunsOf(s).consec, RunsOf(s).initials) == s
  {
    if |s| > 1 {
      var p, x := s[..|s| - 1], s[|s| - 1];
      assert s == p + [x];
      RoundTrip(p);
      RunsPositive(p);
      RunsOfSnoc(p, x);
      ExpandStep(RunsOf(p), p, x);
    } else {
      assert RunsOf(s) == Runs([1], [s[0]]);
      ExpandSnoc([], [], 1, s[0]);
      assert Span(s[0], 1) == [s[0]];
      assert s == [s[0]];
    }
  }

  /**
   * The `initials` walk: run `i` begins at position
   * `consec[0] + ... + consec[i-1]` of `s`, and frame `j` of it is
   * `initials[i] + j`.
   */
  lemma RunContents(s: seq<int>, i: int, j: int)
    requires |s| > 0
    requires 0 <= i < |RunsOf(s).consec| && 0 <= j < RunsOf(s).consec[i]
    ensures 0 <= Sum(RunsOf(s).consec[..i]) + j < |s|
    ensures s[Sum(RunsOf(s).consec[..i]) + j] == RunsOf(s).initials[i] + j
  {
    var c, st := RunsOf(s).consec, RunsOf(s).initials;
    RunsPositive(s);
    ExpandAt(c, st, i, j);
    var e := Expand(c, st);
    RoundTrip(s);
    assert e == s;
  }

  lemma SumSingle(xs: seq<int>)
    requires |xs| == 1
    ensures Sum(xs) == xs[0]
  {
    assert xs[..0] == [];
  }

  /** Only a single run that grows by `y` lengthens the first run. */
  lemma StepFirst(e: Runs, x: int, y: int, k: int)
    requires |e.consec| == |e.initials| > 0
    requires e.consec[0] <= k < Step(e, x, y).consec[0]
    ensures |e.consec| == 1 && y == x + 1 && k == e.consec[0]
  {
  }

  /** Frame `k` of the first run sits at position `k` of the list. */
  lemma {:induction false} FirstRunAt(s: seq<int>, k: int)
    requires |s| > 0 && 0 <= k < RunsOf(s).consec[0]
    ensures k < |s| && s[k] == s[0] + k
  {
    if |s| > 1 {
      var p, x := s[..|s| - 1], s[|s| - 1];
      assert s == p + [x];
      RunsOfSnoc(p, x);
      var c := RunsOf(p).consec;
      if k < c[0] {
        FirstRunAt(p, k);
        assert s[k] == p[k];
      } else {
        StepFirst(RunsOf(p), p[|p| - 1], x, k);
        RunsCoverAll(p);
        SumSingle(c);
        FirstRunAt(p, |p| - 1);
        assert k == |p| && s[k] == x && s[0] == p[0];
      }
    }
  }

  /** The last run ends at the last element of `s`. */
  lemma LastRunEnds(s: seq<int>)
    requires |s| > 0
    ensures s[|s| - 1] == RunsOf(s).initials[|RunsOf(s).initials| - 1]
      + RunsOf(s).consec[|RunsOf(s).consec| - 1] - 1
  {
    RunsPositive(s);
    RoundTrip(s);
    ExpandStep(RunsOf(s), s, 0);
  }

  /** No run ends just before the next one starts: each run is as long as it can be. */
  predicate Maximal(e: Runs)
    requires |e.consec| == |e.initials|
  {
    forall i :: 0 <= i < |e.consec| - 1 ==> e.initials[i + 1] != e.initials[i] + e.consec[i]
  }

  /** Each run ends, and at least one frame is missing, before the next run starts. */
  predicate Apart(e: Runs)
    requires |e.consec| == |e.initials|
  {
    forall i :: 0 <= i < |e.consec| - 1 ==> e.initials[i] + e.consec[i] < e.initials[i + 1]
  }

  /** One scan step keeps runs maximal. */
  lemma StepMaximal(e: Runs, last: int, x: int)
    requires |e.consec| == |e.initials| > 0
    requires last == e.initials[|e.initials| - 1] + e.consec[|e.consec| - 1] - 1
    requires Maximal(e)
    ensures Maximal(Step(e, last, x))
  {
    var c, st := e.consec, e.initials;
    var n := |c|;
    var e' := Step(e, last, x);
    if last == x - 1 {
      assert forall i :: 0 <= i < n - 1 ==> e'.consec[i] == c[i];
    } else {
      assert forall i :: 0 <= i < n ==> e'.consec[i] == c[i] && e'.initials[i] == st[i];
    }
  }

  /** One scan step keeps runs apart when the next value is larger than the last one. */
  lemma StepApart(e: Runs, last: int, x: int)
    requires |e.consec| == |e.initials| > 0
    requires last == e.initials[|e.initials| - 1] + e.consec[|e.consec| - 1] - 1
    requires Apart(e) && last < x
    ensures Apart(Step(e, last, x))
  {
    var c, st := e.consec, e.initials;
    var n := |c|;
    var e' := Step(e, last, x);
    if last == x - 1 {
      assert forall i :: 0 <= i < n - 1 ==> e'.consec[i] == c[i];
    } else {
      assert forall i :: 0 <= i < n ==> e'.consec[i] == c[i] && e'.initials[i] == st[i];
    }
  }

  /** Runs are maximal: a run never ends just before the next one starts. */
  lemma {:induction false} RunsMaximal(s: seq<int>)
    requires |s| > 0
    ensures Maximal(RunsOf(s))
  {
    if |s| > 1 {
      var p, x := s[..|s| - 1], s[|s| - 1];
      assert s == p + [x];
      RunsMaximal(p);
      LastRunEnds(p);
      RunsOfSnoc(p, x);
      StepMaximal(RunsOf(p), p[|p| - 1], x);
    }
  }

  /**
   * On a strictly ascending input the runs are ascending and separated by
   * at least one missing frame.
   */
  lemma {:induction false} RunsApart(s: seq<int>)
    requires |s| > 0 && StrictlyAscending(s)
    ensures Apart(RunsOf(s))
  {
    if |s| > 1 {
      var p, x := s[..|s| - 1], s[|s| - 1];
      assert s == p + [x];
      assert StrictlyAscending(p) && p[|p| - 1] < x;
      RunsApart(p);
      LastRunEnds(p);
      RunsOfSnoc(p, x);
      StepApart(RunsOf(p), p[|p| - 1], x);
    }
  }

  /**
   * The first loop of `count_consec`: the scan over adjacent pairs
   * `zip(lst, lst[1:])` that builds the run lengths `consec`.
   */
  method ScanPairs(lst: array<int>) returns (consec: seq<int>)
    requires lst.Length > 0
    ensures consec == RunsOf(lst[..]).consec
    ensures forall i :: 0 <= i < |consec| ==> consec[i] >= 1
    ensures Sum(consec) == lst.Length
  {
    ghost var s := lst[..];
    consec := [1];
    ghost var e := Runs([1], [lst[0]]);
    var k := 0;
    while k < lst.Length - 1
      invariant 0 <= k <= lst.Length - 1
      invariant e == RunsOf(s[..k + 1]) && consec == e.consec
    {
      var x, y := lst[k], lst[k + 1];
      assert s[..k + 2] == s[..k + 1] + [y];
      RunsOfSnoc(s[..k + 1], y);
      e := Step(e, x, y);
      if x == y - 1 {
        consec := consec[|consec| - 1 := consec[|consec| - 1] + 1];
      } else {
        consec := consec + [1];
      }
      k := k + 1;
    }
    assert s[..k + 1] == s;
    RunsPositive(s);
    RunsCoverAll(s);
  }

  /**
   * The second loop of `count_consec`: walks the accumulated position `pos`
   * through the runs and reads each run's first value into `initials`.
   */
  method WalkStarts(lst: array<int>, consec: seq<int>) returns (initials: seq<int>)
    requires lst.Length > 0 && consec == RunsOf(lst[..]).consec
    ensures initials == RunsOf(lst[..]).initials
    ensures forall i :: 0 <= i < |consec| ==>
      0 <= Sum(consec[..i]) < lst.Length && initials[i] == lst[Sum(consec[..i])]
  {
    ghost var s := lst[..];
    ghost var st := RunsOf(s).initials;
    RunsPositive(s);
    initials := [];
    var pos := 0;
    var i := 0;
    while i < |consec|
      invariant 0 <= i <= |consec|
      invariant pos == Sum(consec[..i])
      invariant initials == st[..i]
    {
      RunContents(s, i, 0);
      assert lst[pos] == st[i];
      assert st[..i + 1] == st[..i] + [st[i]];
      if i == 0 {
        initials := initials + [lst[0]];
      } else {
        initials := initials + [lst[pos]];
      }
      SumPrefix(consec, i);
      pos := pos + consec[i];
      i := i + 1;
    }
    assert initials == st;
    forall i | 0 <= i < |consec|
      ensures 0 <= Sum(consec[..i]) < lst.Length && initials[i] == lst[Sum(consec[..i])]
    {
      RunContents(s, i, 0);
    }
  }

  /**
   * `count_consec(lst)`: sorts the caller's list in place, then scans it.
   * An empty list has no `lst[0]`, so `count_consec` fails on it; its callers
   * never pass one.
   */
  method CountConsec(lst: array<int>) returns (consec: seq<int>, initials: seq<int>)
    requires lst.Length > 0
    modifies lst
    ensures Sorted(lst[..]) && multiset(lst[..]) == old(multiset(lst[..]))
    ensures Runs(consec, initials) == RunsOf(lst[..])
  {
    SortInPlace(lst);
    consec := ScanPairs(lst);
    initials := WalkStarts(lst, consec);
  }
}
