/**
 * The OFF frames of a track in burst_analysis.py: every frame from the
 * first ON frame up to, but not including, the last one in which the burst
 * was not seen (`np.arange(min(on), max(on))` filtered by `not in on`).
 */
module Segmentation {
  import opened ListSort
  import opened RunLength

  /** Python's `min` on a non-empty list. */
  function Min(s: seq<int>): (m: int)
    requires |s| > 0
    ensures m in s && forall i :: 0 <= i < |s| ==> m <= s[i]
  {
    if |s| == 1 then s[0]
    else
      var m' := Min(s[..|s| - 1]);
      assert m' in s;
      if s[|s| - 1] < m' then s[|s| - 1] else m'
  }

  /** Python's `max` on a non-empty list. */
  function Max(s: seq<int>): (m: int)
    requires |s| > 0
    ensures m in s && forall i :: 0 <= i < |s| ==> s[i] <= m
  {
    if |s| == 1 then s[0]
    else
      var m' := Max(s[..|s| - 1]);
      assert m' in s;
      if s[|s| - 1] > m' then s[|s| - 1] else m'
  }

  /** After `lst.sort()` the first element is the minimum and the last the maximum. */
  lemma SortedEnds(s: seq<int>)
    requires |s| > 0 && Sorted(s)
    ensures Min(s) == s[0] && Max(s) == s[|s| - 1]
  {
  }

  /**
   * `[x for x in range(lo, hi) if x not in on]`: the frames of `[lo, hi)`
   * missing from `on`, in ascending order.
   */
  function GapsIn(on: seq<int>, lo: int, hi: int): (r: seq<int>)
    ensures forall x :: x in r <==> lo <= x < hi && x !in on
    ensures StrictlyAscending(r)
    decreases hi - lo
  {
    if lo >= hi then []
    else if lo in on then GapsIn(on, lo + 1, hi)
    else
      var rest := GapsIn(on, lo + 1, hi);
      assert forall i :: 0 <= i < |rest| ==> lo < rest[i] by {
        forall i | 0 <= i < |rest| ensures lo < rest[i] {
          assert rest[i] in rest;
        }
      }
      [lo] + rest
  }

  /** A range whose every frame is ON has no gap. */
  lemma {:induction false} NoGapsIn(on: seq<int>, lo: int, hi: int)
    requires forall x :: lo <= x < hi ==> x in on
    ensures GapsIn(on, lo, hi) == []
    decreases hi - lo
  {
    if lo < hi {
      assert lo in on;
      NoGapsIn(on, lo + 1, hi);
    }
  }

  /**
   * `tps_OFF`: the frames strictly between the first and the last ON frame
   * (the last one excluded, as `np.arange` excludes its stop) in which the
   * burst was off. They are ascending and none of them is an ON frame.
   */
  function OffFrames(on: seq<int>): (off: seq<int>)
    requires |on| > 0
    ensures forall x :: x in off <==> Min(on) <= x < Max(on) && x !in on
    ensures StrictlyAscending(off)
  {
    GapsIn(on, Min(on), Max(on))
  }

  /** A frame strictly inside the ON span that is not ON is an OFF frame. */
  lemma OffFrameAt(on: seq<int>, v: int)
    requires |on| > 0 && Min(on) <= v < Max(on) && v !in on
    ensures v in OffFrames(on)
  {
  }

  /** A track seen in a single frame has no OFF frames. */
  lemma SingletonNoOff(v: int)
    ensures OffFrames([v]) == []
  {
  }

  /** One run of consecutive ON frames leaves no OFF frame. */
  lemma OneRunNoOff(on: seq<int>)
    requires |on| > 0 && Sorted(on)
    requires |RunsOf(on).consec| == 1
    ensures OffFrames(on) == []
  {
    var c := RunsOf(on).consec;
    RunsCoverAll(on);
    assert c == [] + [c[0]];
    SumSnoc([], c[0]);
    FirstRunAt(on, |on| - 1);
    forall x | on[0] <= x < on[|on| - 1]
      ensures x in on
    {
      var k := x - on[0];
      FirstRunAt(on, k);
      assert on[k] == x;
    }
    SortedEnds(on);
    NoGapsIn(on, Min(on), Max(on));
  }

  /** The second run starts right after the first run's frames, at position `consec[0]`. */
  lemma SecondRunAt(s: seq<int>)
    requires |s| > 0 && |RunsOf(s).consec| > 1
    ensures 0 < RunsOf(s).consec[0] < |s| && s[RunsOf(s).consec[0]] == RunsOf(s).initials[1]
  {
    var c := RunsOf(s).consec;
    RunsPositive(s);
    assert c[..1] == [] + [c[0]];
    SumSnoc([], c[0]);
    RunContents(s, 1, 0);
  }

  /**
   * On distinct frames, two runs or more leave at least one OFF frame: the
   * frame right after the first run.
   */
  lemma TwoRunsSomeOff(on: seq<int>)
    requires |on| > 0 && StrictlyAscending(on)
    requires |RunsOf(on).consec| > 1
    ensures RunsOf(on).initials[0] + RunsOf(on).consec[0] in OffFrames(on)
  {
    var c, st := RunsOf(on).consec, RunsOf(on).initials;
    var v := st[0] + c[0];
    AfterFirstRun(on);
    SortedEnds(on);
    OffFrameAt(on, v);
  }

  /** On distinct frames, the frame right after the first run lies inside the span and is not ON. */
  lemma AfterFirstRun(on: seq<int>)
    requires |on| > 0 && StrictlyAscending(on)
    requires |RunsOf(on).consec| > 1
    ensures on[0] < RunsOf(on).initials[0] + RunsOf(on).consec[0] < on[|on| - 1]
    ensures RunsOf(on).initials[0] + RunsOf(on).consec[0] !in on
  {
    var c, st := RunsOf(on).consec, RunsOf(on).initials;
    var v := st[0] + c[0];
    RunsApart(on);
    SecondRunAt(on);
    assert on[0] < v < on[c[0]] <= on[|on| - 1];
    if v in on {
      var k :| 0 <= k < |on| && on[k] == v;
      if k < c[0] {
        FirstRunAt(on, k);
      }
      assert false;
    }
  }

  /**
   * On distinct frames, a track has no OFF frame exactly when its ON frames
   * form a single run.
   */
  lemma NoOffIffOneRun(on: seq<int>)
    requires |on| > 0 && StrictlyAscending(on)
    ensures OffFrames(on) == [] <==> |RunsOf(on).consec| == 1
  {
    if |RunsOf(on).consec| == 1 {
      OneRunNoOff(on);
    } else {
      TwoRunsSomeOff(on);
    }
  }
}
