/**
 * The per-track loop of `main` in burst_analysis.py: for each track, the
 * ON frames are run-length encoded, the OFF frames between the first and
 * the last ON frame are derived and encoded too, one CSV row is produced,
 * and `max_duration` keeps the largest `tps_ON[-1] + tps_ON_duration[-1]`
 * seen so far: as written, the last ON frame plus the length in frames of
 * the last ON run.
 */
module BurstReport {
  import opened ListSort
  import opened RunLength
  import opened Segmentation

  /** The frames (`POSITION_T`) recorded for one `TRACK_ID`, in table order. */
  datatype Track = Track(id: int, frames: seq<int>)

  /**
   * One row of `bursts_info.csv`: `Burst id`, `ON[min]`, `OFF[min]`,
   * `frames ON`, `frames OFF`.
   */
  datatype BurstRow = BurstRow(
    id: int,
    onDurations: seq<int>,
    offDurations: seq<int>,
    onFrames: seq<int>,
    offFrames: seq<int>)

  /**
   * `[x*2 for x in count_consec(...)]` as written: `x` ranges over the two
   * returned lists, and `x*2` on a Python list is the list followed by
   * itself, not its elements doubled.
   */
  function TimesTwo(xs: seq<int>): (r: seq<int>)
    ensures |r| == 2 * |xs|
    ensures r[..|xs|] == xs && r[|xs|..] == xs
  {
    xs + xs
  }

  /** The conversion the comments at the call sites describe: one frame lasts 2 minutes. */
  function Minutes(frames: seq<int>): (r: seq<int>)
    ensures |r| == |frames|
    ensures forall i :: 0 <= i < |r| ==> r[i] == 2 * frames[i]
  {
    if frames == [] then [] else Minutes(frames[..|frames| - 1]) + [2 * frames[|frames| - 1]]
  }

  /** In minutes, the runs of a track last twice as long as its number of frames. */
  lemma {:induction false} MinutesTotal(frames: seq<int>)
    ensures Sum(Minutes(frames)) == 2 * Sum(frames)
  {
    if frames != [] {
      var p, k := frames[..|frames| - 1], frames[|frames| - 1];
      assert frames == p + [k];
      MinutesTotal(p);
      SumSnoc(Minutes(p), 2 * k);
    }
  }

  /** The ON runs of a track, converted to minutes, add up to 2 minutes per frame. */
  lemma RunMinutesCoverTrack(s: seq<int>)
    requires |s| > 0
    ensures Sum(Minutes(RunsOf(s).consec)) == 2 * |s|
  {
    MinutesTotal(RunsOf(s).consec);
    RunsCoverAll(s);
  }

  /**
   * The duration column as written has twice as many entries as there are
   * runs, holds frame counts rather than minutes, and so differs from the
   * minutes column for every non-empty list of runs.
   */
  lemma TimesTwoIsNotMinutes(c: seq<int>)
    requires |c| > 0
    ensures |TimesTwo(c)| == 2 * |c| && TimesTwo(c) != Minutes(c)
    ensures TimesTwo(c)[..|c|] == c && TimesTwo(c)[|c|..] == c
    ensures TimesTwo(c)[2 * |c| - 1] == c[|c| - 1]
  {
  }

  /** Each row has a last ON frame and a last ON duration, which `max_duration` reads. */
  predicate HasOn(row: BurstRow)
  {
    |row.onFrames| > 0 && |row.onDurations| > 0
  }

  /**
   * `row` is what the loop body writes for track `t`: the ON frames are
   * the track's frames sorted in place, the OFF frames are the gaps between
   * the first and the last of them, and each duration column is the
   * as-written `TimesTwo` of the run lengths, empty when there is no OFF
   * frame.
   */
  predicate IsRowOf(t: Track, row: BurstRow)
  {
    && HasOn(row)
    && row.id == t.id
    && Sorted(row.onFrames)
    && multiset(row.onFrames) == multiset(t.frames)
    && row.onDurations == TimesTwo(RunsOf(row.onFrames).consec)
    && row.offFrames == OffFrames(row.onFrames)
    && row.offDurations ==
         (if |row.offFrames| > 0 then TimesTwo(RunsOf(row.offFrames).consec) else [])
  }

  /**
   * The body of the loop over `np.unique(TRACK_ID)` for one track, without
   * the file and plot output: it encodes the ON frames (which sorts them in
   * place), derives the OFF frames and encodes them when there are any.
   */
  method AnalyzeTrack(t: Track) returns (row: BurstRow)
    requires |t.frames| > 0
    ensures IsRowOf(t, row)
  {
    var on := new int[|t.frames|](i requires 0 <= i < |t.frames| => t.frames[i]);
    assert on[..] == t.frames;
    var consec, initials := CountConsec(on);
    var onDurations := TimesTwo(consec);
    var onFrames := on[..];
    var offFrames := OffFrames(onFrames);
    var offDurations: seq<int>;
    if |offFrames| > 0 {
      var off := new int[|offFrames|](i requires 0 <= i < |offFrames| => offFrames[i]);
      assert off[..] == offFrames;
      var offConsec, offInitials := CountConsec(off);
      // the OFF frames are ascending already, so sorting them changes nothing
      SortedUnique(off[..], offFrames);
      offDurations := TimesTwo(offConsec);
    } else {
      offDurations := [];
    }
    row := BurstRow(t.id, onDurations, offDurations, onFrames, offFrames);
  }

  /**
   * A track whose ON frames form one run has no OFF frame, so its OFF
   * columns are both empty and the OFF frames are never encoded.
   */
  lemma OneRunRow(t: Track, row: BurstRow)
    requires IsRowOf(t, row) && |RunsOf(row.onFrames).consec| == 1
    ensures row.offFrames == [] && row.offDurations == []
  {
    OneRunNoOff(row.onFrames);
  }

  /**
   * For a track seen in distinct frames, the OFF columns are empty exactly
   * when the ON frames form a single run.
   */
  lemma OffColumnsEmptyIffOneRun(t: Track, row: BurstRow)
    requires IsRowOf(t, row) && StrictlyAscending(row.onFrames)
    ensures (row.offFrames == [] && row.offDurations == [])
      <==> |RunsOf(row.onFrames).consec| == 1
  {
    NoOffIffOneRun(row.onFrames);
  }

  /** The rows written for the tracks, one per track and in the same order. */
  predicate AreRowsOf(tracks: seq<Track>, rows: seq<BurstRow>)
  {
    && |rows| == |tracks|
    && (tracks != [] ==>
          && AreRowsOf(tracks[..|tracks| - 1], rows[..|rows| - 1])
          && IsRowOf(tracks[|tracks| - 1], rows[|rows| - 1]))
  }

  /** Row `i` is the row of track `i`. */
  lemma {:induction false} RowAt(tracks: seq<Track>, rows: seq<BurstRow>, i: int)
    requires AreRowsOf(tracks, rows) && 0 <= i < |tracks|
    ensures IsRowOf(tracks[i], rows[i])
  {
    if i < |tracks| - 1 {
      RowAt(tracks[..|tracks| - 1], rows[..|rows| - 1], i);
    }
  }

  /**
   * `tps_ON[-1] + tps_ON_duration[-1]`: the last ON frame plus the last entry
   * of the duration column, which as written is the last run's length in
   * frames (see `ExtentOfTrack`).
   */
  function Extent(row: BurstRow): (e: int)
    requires HasOn(row)
  {
    row.onFrames[|row.onFrames| - 1] + row.onDurations[|row.onDurations| - 1]
  }

  /**
   * `max_duration` after the given rows: it starts at 0 and takes each
   * row's extent when that is larger. The result is the largest extent, or
   * 0 when there is none above 0.
   */
  function MaxDuration(rows: seq<BurstRow>): (m: int)
    requires forall i :: 0 <= i < |rows| ==> HasOn(rows[i])
    ensures m >= 0
    ensures forall i :: 0 <= i < |rows| ==> Extent(rows[i]) <= m
    ensures m == 0 || exists i :: 0 <= i < |rows| && m == Extent(rows[i])
  {
    if rows == [] then 0
    else
      var m' := MaxDuration(rows[..|rows| - 1]);
      var e := Extent(rows[|rows| - 1]);
      if e > m' then e else m'
  }

  lemma MaxDurationSnoc(rows: seq<BurstRow>, row: BurstRow)
    requires forall i :: 0 <= i < |rows| ==> HasOn(rows[i])
    requires HasOn(row)
    ensures MaxDuration(rows + [row])
      == if Extent(row) > MaxDuration(rows) then Extent(row) else MaxDuration(rows)
  {
    assert (rows + [row])[..|rows|] == rows;
  }

  /**
   * One iteration of the loop over the tracks: the row of track `k` is
   * appended and `max_duration` takes its extent when that is larger.
   */
  lemma LoopStep(tracks: seq<Track>, k: int, rows: seq<BurstRow>, row: BurstRow)
    requires 0 <= k < |tracks|
    requires AreRowsOf(tracks[..k], rows) && forall i :: 0 <= i < |rows| ==> HasOn(rows[i])
    requires IsRowOf(tracks[k], row)
    ensures AreRowsOf(tracks[..k + 1], rows + [row])
    ensures forall i :: 0 <= i < |rows| + 1 ==> HasOn((rows + [row])[i])
    ensures MaxDuration(rows + [row])
      == if Extent(row) > MaxDuration(rows) then Extent(row) else MaxDuration(rows)
  {
    TakeSnoc(tracks, k);
    RowsSnoc(tracks[..k], rows, tracks[k], row);
    MaxDurationSnoc(rows, row);
  }

  /** Appending a track and its row keeps the rows matched to the tracks. */
  lemma RowsSnoc(ts: seq<Track>, rows: seq<BurstRow>, t: Track, row: BurstRow)
    requires AreRowsOf(ts, rows) && IsRowOf(t, row)
    ensures AreRowsOf(ts + [t], rows + [row])
  {
    assert (ts + [t])[..|ts|] == ts;
    assert (rows + [row])[..|rows|] == rows;
  }

  lemma TakeSnoc<T>(s: seq<T>, k: int)
    requires 0 <= k < |s|
    ensures s[..k + 1] == s[..k] + [s[k]]
  {
  }

  /** `max_duration` never decreases from one track to the next. */
  lemma {:induction false} MaxDurationGrows(rows: seq<BurstRow>, k: int)
    requires forall i :: 0 <= i < |rows| ==> HasOn(rows[i])
    requires 0 <= k <= |rows|
    ensures MaxDuration(rows[..k]) <= MaxDuration(rows)
    decreases |rows|
  {
    if k < |rows| {
      var p := rows[..|rows| - 1];
      assert p[..k] == rows[..k];
      MaxDurationGrows(p, k);
    } else {
      assert rows[..k] == rows;
    }
  }

  /**
   * The loop of `main` over the tracks: one row per track, in order, and
   * `max_duration` at the end of the loop.
   */
  method Analyze(tracks: seq<Track>) returns (rows: seq<BurstRow>, maxDuration: int)
    requires forall i :: 0 <= i < |tracks| ==> |tracks[i].frames| > 0
    ensures AreRowsOf(tracks, rows)
    ensures forall i :: 0 <= i < |rows| ==> HasOn(rows[i])
    ensures maxDuration == MaxDuration(rows)
  {
    rows := [];
    maxDuration := 0;
    var k := 0;
    while k < |tracks|
      invariant 0 <= k <= |tracks|
      invariant AreRowsOf(tracks[..k], rows)
      invariant forall i :: 0 <= i < k ==> HasOn(rows[i])
      invariant maxDuration == MaxDuration(rows)
    {
      var row := AnalyzeTrack(tracks[k]);
      LoopStep(tracks, k, rows, row);
      if Extent(row) > maxDuration {
        maxDuration := Extent(row);
      }
      rows := rows + [row];
      k := k + 1;
    }
    assert tracks[..k] == tracks;
  }

  /** Rearranging a list does not change its maximum. */
  lemma MaxOfPermutation(a: seq<int>, b: seq<int>)
    requires |a| > 0 && multiset(a) == multiset(b)
    ensures |b| > 0 && Max(a) == Max(b)
  {
    assert |a| == |multiset(a)| == |multiset(b)| == |b|;
    assert Max(a) in multiset(b) && Max(b) in multiset(a);
  }

  /**
   * As written, a row's extent is the track's last frame plus the length in
   * frames of its last ON run (the doubled list puts a frame count, not a
   * number of minutes, at its end).
   */
  lemma ExtentOfTrack(t: Track, row: BurstRow)
    requires IsRowOf(t, row)
    ensures |t.frames| > 0
    ensures Extent(row) == Max(t.frames)
      + RunsOf(row.onFrames).consec[|RunsOf(row.onFrames).consec| - 1]
  {
    MaxOfPermutation(row.onFrames, t.frames);
    SortedEnds(row.onFrames);
    TimesTwoIsNotMinutes(RunsOf(row.onFrames).consec);
  }

  /** The row of a track depends only on which frames it has, not on their order. */
  lemma RowDeterministic(t: Track, u: Track, r1: BurstRow, r2: BurstRow)
    requires t.id == u.id && multiset(t.frames) == multiset(u.frames)
    requires IsRowOf(t, r1) && IsRowOf(u, r2)
    ensures r1 == r2
  {
    SortedUnique(r1.onFrames, r2.onFrames);
  }
}
