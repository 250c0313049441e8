/**
 * Worked tracks: the encoding of a few concrete frame lists, as the model
 * computes them.
 */
module Scenarios {
  import opened ListSort
  import opened RunLength
  import opened Segmentation
  import opened BurstReport

  /** A single frame is one run of length 1 starting at that frame. */
  lemma SingleFrame(v: int)
    ensures RunsOf([v]) == Runs([1], [v])
  {
  }

  /** One step of a worked scan: from the runs of `p` to those of `p + [x]`. */
  lemma Grow(p: seq<int>, x: int, q: seq<int>, before: Runs, after: Runs)
    requires |p| > 0 && q == p + [x] && RunsOf(p) == before
    requires |before.consec| == |before.initials| > 0
    requires Step(before, p[|p| - 1], x) == after
    ensures RunsOf(q) == after
  {
    RunsOfSnoc(p, x);
  }

  /** Frames 1, 2, 3 form the single run 1..3. */
  lemma OpeningRun()
    ensures RunsOf([1, 2, 3]) == Runs([3], [1])
  {
    Grow([1], 2, [1, 2], Runs([1], [1]), Runs([2], [1]));
    Grow([1, 2], 3, [1, 2, 3], Runs([2], [1]), Runs([3], [1]));
  }

  /** Frames 1, 2, 3, 7, 8, 10 form the runs 1..3, 7..8 and 10. */
  lemma ThreeRuns()
    ensures RunsOf([1, 2, 3, 7, 8, 10]) == Runs([3, 2, 1], [1, 7, 10])
  {
    OpeningRun();
    Grow([1, 2, 3], 7, [1, 2, 3, 7], Runs([3], [1]), Runs([3, 1], [1, 7]));
    Grow([1, 2, 3, 7], 8, [1, 2, 3, 7, 8], Runs([3, 1], [1, 7]), Runs([3, 2], [1, 7]));
    Grow([1, 2, 3, 7, 8], 10, [1, 2, 3, 7, 8, 10], Runs([3, 2], [1, 7]), Runs([3, 2, 1], [1, 7, 10]));
  }

  /**
   * A repeated frame is not merged: it fails the `x == y - 1` test and opens
   * a run of its own, so 1, 2, 2, 3 gives two overlapping runs 1..2 and 2..3.
   */
  lemma RepeatedFrame()
    ensures RunsOf([1, 2, 2, 3]) == Runs([2, 2], [1, 2])
  {
    Grow([1], 2, [1, 2], Runs([1], [1]), Runs([2], [1]));
    Grow([1, 2], 2, [1, 2, 2], Runs([2], [1]), Runs([2, 1], [1, 2]));
    Grow([1, 2, 2], 3, [1, 2, 2, 3], Runs([2, 1], [1, 2]), Runs([2, 2], [1, 2]));
  }

  /** Two ascending lists without repeats that hold the same frames are equal. */
  lemma {:induction false} AscendingByMembers(a: seq<int>, b: seq<int>)
    requires StrictlyAscending(a) && StrictlyAscending(b)
    requires forall x :: x in a <==> x in b
    ensures a == b
  {
    assert a != [] ==> a[0] in a && a[0] in b;
    assert b != [] ==> b[0] in b && b[0] in a;
    if a != [] && b != [] {
      assert a[0] == b[0];
      forall x
        ensures x in a[1..] <==> x in b[1..]
      {
        assert x in a[1..] <==> x in a && x != a[0];
        assert x in b[1..] <==> x in b && x != b[0];
      }
      AscendingByMembers(a[1..], b[1..]);
      assert a == [a[0]] + a[1..] && b == [b[0]] + b[1..];
    }
  }

  /** Each frame below the next one is enough for a list to be ascending without repeats. */
  lemma {:induction false} AdjacentAscending(s: seq<int>)
    requires forall i :: 0 <= i < |s| - 1 ==> s[i] < s[i + 1]
    ensures StrictlyAscending(s)
  {
    if |s| > 1 {
      var p := s[..|s| - 1];
      AdjacentAscending(p);
      forall i, j | 0 <= i < j < |s|
        ensures s[i] < s[j]
      {
        if j < |s| - 1 {
          assert s[i] == p[i] && s[j] == p[j];
        } else if i < |s| - 2 {
          assert s[i] == p[i] && p[|s| - 2] == s[|s| - 2];
        }
      }
    }
  }

  /** The frames of the worked track: ascending, from 1 to 10, and as a set. */
  lemma WorkedFrames(on: seq<int>)
    requires on == [1, 2, 3, 7, 8, 10]
    ensures StrictlyAscending(on) && Min(on) == 1 && Max(on) == 10
    ensures forall x :: x in on <==> x in {1, 2, 3, 7, 8, 10}
  {
    AdjacentAscending(on);
    SortedEnds(on);
    forall x | x in on
      ensures x in {1, 2, 3, 7, 8, 10}
    {
      var i :| 0 <= i < |on| && on[i] == x;
    }
    assert on[0] == 1 && on[1] == 2 && on[2] == 3 && on[3] == 7 && on[4] == 8 && on[5] == 10;
  }

  /** The expected OFF frames of the worked track: ascending, and as a set. */
  lemma WorkedGaps(off: seq<int>)
    requires off == [4, 5, 6, 9]
    ensures StrictlyAscending(off)
    ensures forall x :: x in off <==> x in {4, 5, 6, 9}
  {
    AdjacentAscending(off);
    forall x | x in off
      ensures x in {4, 5, 6, 9}
    {
      var i :| 0 <= i < |off| && off[i] == x;
    }
    assert off[0] == 4 && off[1] == 5 && off[2] == 6 && off[3] == 9;
  }

  /** Any ON list spanning 1..10 with the frames 1, 2, 3, 7, 8, 10 has OFF frames 4, 5, 6, 9. */
  lemma WorkedOff(on: seq<int>, expected: seq<int>)
    requires |on| > 0 && Min(on) == 1 && Max(on) == 10
    requires forall x :: x in on <==> x in {1, 2, 3, 7, 8, 10}
    requires StrictlyAscending(expected) && forall x :: x in expected <==> x in {4, 5, 6, 9}
    ensures OffFrames(on) == expected
  {
    var off := OffFrames(on);
    forall x
      ensures x in off <==> x in expected
    {
    }
    AscendingByMembers(off, expected);
  }

  /** The OFF frames of 1, 2, 3, 7, 8, 10 are 4, 5, 6 and 9: frame 10 itself is not in range. */
  lemma ThreeRunsOff()
    ensures OffFrames([1, 2, 3, 7, 8, 10]) == [4, 5, 6, 9]
  {
    var on, expected := [1, 2, 3, 7, 8, 10], [4, 5, 6, 9];
    WorkedFrames(on);
    WorkedGaps(expected);
    WorkedOff(on, expected);
  }

  /** The OFF frames 4, 5, 6, 9 form the runs 4..6 and 9. */
  lemma ThreeRunsOffRuns()
    ensures RunsOf([4, 5, 6, 9]) == Runs([3, 1], [4, 9])
  {
    Grow([4], 5, [4, 5], Runs([1], [4]), Runs([2], [4]));
    Grow([4, 5], 6, [4, 5, 6], Runs([2], [4]), Runs([3], [4]));
    Grow([4, 5, 6], 9, [4, 5, 6, 9], Runs([3], [4]), Runs([3, 1], [4, 9]));
  }

  /** The only sorted arrangement of the frames 1, 2, 3, 7, 8, 10 is that list. */
  lemma WorkedSort(x: seq<int>, sorted: seq<int>)
    requires sorted == [1, 2, 3, 7, 8, 10]
    requires Sorted(x) && multiset(x) == multiset(sorted)
    ensures x == sorted
  {
    AdjacentAscending(sorted);
    SortedUnique(x, sorted);
  }

  /** The worked track's columns as written and as intended. */
  lemma WorkedColumns()
    ensures TimesTwo([3, 2, 1]) == [3, 2, 1, 3, 2, 1] && TimesTwo([3, 1]) == [3, 1, 3, 1]
    ensures Minutes([3, 2, 1]) == [6, 4, 2] && Minutes([3, 1]) == [6, 2]
  {
    var m, n := Minutes([3, 2, 1]), Minutes([3, 1]);
    assert |m| == 3 && m[0] == 6 && m[1] == 4 && m[2] == 2;
    assert |n| == 2 && n[0] == 6 && n[1] == 2;
  }

  /**
   * Frames 5, 6, 7 form one run, so the repeated `initials` list has two
   * entries, while the plot loop reads one entry per frame: three.
   */
  lemma PlotOverrun()
    ensures RunsOf([5, 6, 7]) == Runs([3], [5])
    ensures |TimesTwo(RunsOf([5, 6, 7]).initials)| == 2 < |[5, 6, 7]|
  {
    Grow([5], 6, [5, 6], Runs([1], [5]), Runs([2], [5]));
    Grow([5, 6], 7, [5, 6, 7], Runs([2], [5]), Runs([3], [5]));
  }

  /**
   * The row written for a track seen in frames 1, 2, 3, 7, 8, 10: both duration columns hold the run lengths twice over, where
   * the conversion to minutes would give 6, 4, 2 and 6, 2.
   */
  lemma ThreeRunsRow(row: BurstRow)
    requires IsRowOf(Track(5, [1, 2, 3, 7, 8, 10]), row)
    ensures row.onFrames == [1, 2, 3, 7, 8, 10] && row.offFrames == [4, 5, 6, 9]
    ensures row.onDurations == [3, 2, 1, 3, 2, 1] && row.offDurations == [3, 1, 3, 1]
    ensures Minutes(RunsOf(row.onFrames).consec) == [6, 4, 2]
    ensures Minutes(RunsOf(row.offFrames).consec) == [6, 2]
    ensures Extent(row) == 11
  {
    WorkedSort(row.onFrames, [1, 2, 3, 7, 8, 10]);
    ThreeRuns();
    ThreeRunsOff();
    ThreeRunsOffRuns();
    WorkedColumns();
  }
}
