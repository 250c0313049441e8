# Burst segmentation of tracked spots

burst_analysis.py reads the tracking table of a microscopy time series. For
every tracked burst (`TRACK_ID`) it takes the frames (`POSITION_T`) in which
the burst was seen (its ON frames). Then it does four things:

- It splits those frames into runs of consecutive frames with `count_consec`.
- It derives the OFF frames, the frames between the first and the last ON
  frame in which the burst was not seen, and splits them into runs too.
- It writes one row of `bursts_info.csv` per burst.
- It keeps `max_duration`, the largest value of `tps_ON[-1] + tps_ON_duration[-1]`
  seen so far: a track's last ON frame plus the length in frames of its last
  ON run (see "## Findings").

This project models that core in Dafny, in five modules:

- `ListSort` (list_sort.dfy) is `lst.sort()`. It is an in-place sort of an
  `array<int>` that is proved sorted and a permutation. A lemma shows that a
  sorted arrangement of a multiset is unique.
- `RunLength` (run_length.dfy) is `count_consec`. The recursive function
  `RunsOf` performs the scan over adjacent pairs, and a separate reference
  definition `Expand` lays the runs back out frame by frame. The method
  `CountConsec` sorts the caller's array in place, then runs the two loops of
  `count_consec`:
  - `ScanPairs` scans the pairs and builds `consec`.
  - `WalkStarts` walks the position accumulator and builds `initials`.

  Each method is proved equal to `RunsOf`. The lemmas prove the promises of
  the encoding: lengths at least 1 that sum to the input length, the
  round trip `Expand(RunsOf(s)) == s`, where each run sits in the list, and
  that runs are maximal, and apart when the frames are distinct.
- `Segmentation` (segmentation.dfy) is the OFF-frame comprehension
  `[x for x in np.arange(min(on), max(on)) if x not in on]`, together with
  Python's `min` and `max`. It is proved to contain exactly the missing
  frames of `[min, max)`, in ascending order. For distinct frames it is
  proved empty exactly when the ON frames form one run.
- `BurstReport` (burst_report.dfy) is the loop of `main` over the tracks.
  `AnalyzeTrack` is the body for one track. `Analyze` is the loop, with the
  running `max_duration`. Both are proved against the predicate `IsRowOf`
  and the function `MaxDuration`.
- `Scenarios` (scenarios.dfy) holds worked tracks. Frames 1, 2, 3, 7, 8, 10
  give runs 3, 2, 1 starting at 1, 7, 10. The OFF frames are 4, 5, 6 and 9,
  and the CSV row written for them follows from these. A repeated frame
  shows how the scan handles duplicates.

The duration columns are modelled as written (see "## Findings"). Each
duration column is the list of run lengths repeated twice, not the run
lengths doubled.

A repeated frame is not merged: it fails the `x == y - 1` test at
burst_analysis.py:20 and opens a run of length 1, so 1, 2, 2, 3 gives runs
1..2 and 2..3 (`Scenarios.RepeatedFrame`); run lengths still add up to the
number of frames. The lemmas that need distinct frames require a strictly
ascending list.

## Model

| member | source | states |
|---|---|---|
| ListSort.SortInPlace | burst_analysis.py:17 | after `lst.sort()` the caller's list is ascending and holds the same multiset of frames |
| ListSort.SortedUnique | burst_analysis.py:17 | two sorted lists with the same multiset are equal, so the sorted list is determined by the frames alone |
| RunLength.Step | burst_analysis.py:19-23 | one pair `(x, y)` adds at most one run and never changes the first run's start |
| RunLength.RunsOf | burst_analysis.py:18-33 | a non-empty list has between 1 and `len(lst)` runs, as many starts as lengths, and the first start is `lst[0]` |
| RunLength.RunsOfSnoc | burst_analysis.py:19-23 | loop-step lemma that `ScanPairs` relies on: the encoding of `p + [x]` is the encoding of `p` followed by one step on the pair `(p[-1], x)` |
| RunLength.RunsPositive | burst_analysis.py:18-23 | every run length is at least 1 |
| RunLength.RunsCoverAll | burst_analysis.py:18-23 | the run lengths add up to the number of frames, duplicates included |
| RunLength.RoundTrip | burst_analysis.py:17-33 | laying the runs out one after the other (`initials[i]`, `initials[i] + 1`, …, `consec[i]` frames) gives back the list exactly, so the runs partition it in order |
| RunLength.RunContents | burst_analysis.py:25-32 | frame `j` of run `i` sits at position `consec[0] + … + consec[i-1] + j` of the sorted list and equals `initials[i] + j` |
| RunLength.FirstRunAt | burst_analysis.py:18-21 | the first run holds `lst[0], lst[0] + 1, …` at positions 0, 1, … |
| RunLength.LastRunEnds | burst_analysis.py:19-23 | the last frame is the last run's start plus its length minus 1 |
| RunLength.RunsMaximal | burst_analysis.py:19-23 | no run ends right before the next one starts, for any input |
| RunLength.RunsApart | burst_analysis.py:17-23 | on distinct sorted frames the runs are ascending and disjoint, with at least one missing frame between them: `initials[i] + consec[i] < initials[i+1]` |
| RunLength.ScanPairs | burst_analysis.py:18-23 | the pair loop returns the run lengths of the list, each at least 1, summing to its length |
| RunLength.WalkStarts | burst_analysis.py:25-32 | the `pos` loop returns the run starts, one per run, and `initials[i] == lst[consec[0] + … + consec[i-1]]` |
| RunLength.CountConsec | burst_analysis.py:8-33 | on a non-empty list it sorts the caller's list in place, keeps its frames, and returns the run lengths and starts of the sorted list |
| Segmentation.Min | burst_analysis.py:92 | `min` of a non-empty list is one of its frames and no frame is below it |
| Segmentation.Max | burst_analysis.py:92 | `max` of a non-empty list is one of its frames and no frame is above it |
| Segmentation.SortedEnds | burst_analysis.py:17 | once the list is sorted, `min` is its first frame and `max` its last, which `tps_ON[-1]` reads |
| Segmentation.GapsIn | burst_analysis.py:92 | the filtered range holds exactly the frames of `[lo, hi)` absent from the list, ascending without repeats |
| Segmentation.NoGapsIn | burst_analysis.py:92 | a range whose every frame is ON leaves nothing after the filter |
| Segmentation.OffFrames | burst_analysis.py:92 | `tps_OFF` holds exactly the frames of `[min(ON), max(ON))` that are not ON, ascending and disjoint from ON |
| Segmentation.OffFrameAt | burst_analysis.py:92 | a frame inside `[min(ON), max(ON))` that is not ON is in `tps_OFF` |
| Segmentation.SingletonNoOff | burst_analysis.py:92-99 | a track seen in one frame has no OFF frame, so the empty branch is taken |
| Segmentation.OneRunNoOff | burst_analysis.py:92-99 | ON frames forming a single run leave no OFF frame |
| Segmentation.SecondRunAt | burst_analysis.py:25-32 | the second run starts at position `consec[0]` of the sorted list |
| Segmentation.AfterFirstRun | burst_analysis.py:92 | on distinct frames with two runs or more, the frame right after the first run lies strictly inside the ON span and is not ON |
| Segmentation.TwoRunsSomeOff | burst_analysis.py:92-96 | on distinct frames with two runs or more, that frame is an OFF frame |
| Segmentation.NoOffIffOneRun | burst_analysis.py:92-99 | on distinct frames, `tps_OFF` is empty exactly when the ON frames form one run |
| BurstReport.Minutes | burst_analysis.py:88 | the intended conversion: entry `i` is `2 * frames[i]` minutes, one entry per run |
| BurstReport.MinutesTotal | burst_analysis.py:88 | the intended conversion doubles the total |
| BurstReport.RunMinutesCoverTrack | burst_analysis.py:88-89 | the intended ON minutes of a track add up to 2 minutes per ON frame (the repeated list has the same total, so only `Minutes`' entry-by-entry contract tells the two apart) |
| BurstReport.TimesTwo | burst_analysis.py:89-96 | `x*2` on a returned list: twice as many entries, the first half and the second half both equal to the list |
| BurstReport.TimesTwoIsNotMinutes | burst_analysis.py:89 | as written, `x*2` on the list of run lengths has twice as many entries and holds the list twice, so it differs from the minutes and ends with the last run length |
| BurstReport.AnalyzeTrack | burst_analysis.py:87-104 | the loop body for one non-empty track produces its row: sorted ON frames, their doubled-list durations, the OFF frames, and OFF durations that are empty when there is no OFF frame |
| BurstReport.OneRunRow | burst_analysis.py:94-99 | a track whose ON frames form one run gets empty OFF frames and empty OFF durations |
| BurstReport.OffColumnsEmptyIffOneRun | burst_analysis.py:92-99 | for distinct frames, both OFF columns are empty exactly when the ON frames form one run |
| BurstReport.RowAt | burst_analysis.py:85-104 | row `i` is the row of track `i` |
| BurstReport.MaxDuration | burst_analysis.py:80 | `max_duration` is at least 0 and at least every row's `tps_ON[-1] + tps_ON_duration[-1]`, and it is 0 or one of them |
| BurstReport.MaxDurationSnoc | burst_analysis.py:106-107 | loop-step lemma that `Analyze` relies on: one more track raises `max_duration` to that track's extent when the extent is larger, and otherwise keeps it |
| BurstReport.RowsSnoc | burst_analysis.py:85-104 | appending a track and its row keeps the rows matched to the tracks in order |
| BurstReport.LoopStep | burst_analysis.py:85-107 | one iteration keeps the rows matched to the tracks and updates `max_duration` as lines 106-107 of burst_analysis.py do |
| BurstReport.MaxDurationGrows | burst_analysis.py:106-107 | `max_duration` never decreases from one track to the next |
| BurstReport.Analyze | burst_analysis.py:80-107 | the loop over tracks writes one row per track, in order, and ends with `max_duration` equal to the largest extent, or 0 |
| BurstReport.MaxOfPermutation | burst_analysis.py:17 | reordering the frames does not change their maximum |
| BurstReport.ExtentOfTrack | burst_analysis.py:106 | as written, a row's extent (`Extent`, the expression `tps_ON[-1] + tps_ON_duration[-1]`) is the track's largest frame plus the length in frames of its last ON run |
| BurstReport.RowDeterministic | burst_analysis.py:85-104 | a track's row depends only on its id and its multiset of frames, not on their order in the table |
| Scenarios.SingleFrame | burst_analysis.py:18-29 | a single frame `[v]` gives `consec == [1]` and `initials == [v]` |
| Scenarios.ThreeRuns | burst_analysis.py:8-33 | frames 1, 2, 3, 7, 8, 10 give runs of lengths 3, 2, 1 starting at 1, 7, 10 |
| Scenarios.RepeatedFrame | burst_analysis.py:19-23 | frames 1, 2, 2, 3 give two overlapping runs: lengths 2, 2 starting at 1, 2 |
| Scenarios.ThreeRunsOff | burst_analysis.py:92 | the OFF frames of 1, 2, 3, 7, 8, 10 are 4, 5, 6, 9, and 10 is excluded as the stop of the range |
| Scenarios.ThreeRunsOffRuns | burst_analysis.py:96 | the OFF frames 4, 5, 6, 9 give runs of lengths 3, 1 starting at 4, 9 |
| Scenarios.WorkedSort | burst_analysis.py:17 | the only sorted arrangement of those frames is 1, 2, 3, 7, 8, 10 |
| Scenarios.WorkedColumns | burst_analysis.py:89-96 | the as-written columns of the worked track are 3, 2, 1, 3, 2, 1 and 3, 1, 3, 1, where the minutes would be 6, 4, 2 and 6, 2 |
| Scenarios.PlotOverrun | burst_analysis.py:89-112 | frames 5, 6, 7 form one run, so the repeated `initials` list has 2 entries while the plot loop reads indices 0, 1, 2 |
| Scenarios.ThreeRunsRow | burst_analysis.py:87-107 | the row for a track seen in 1, 2, 3, 7, 8, 10 holds those frames, OFF frames 4, 5, 6, 9, both repeated-list duration columns, and extent 11 |

## Left out

- Reading the tracking table, `filter_dataframe` and its pandas casts: library calls and file I/O. Each track arrives as a `Track` value with an integer id and its frames.
- Grouping by `np.unique(TRACK_ID)` and selecting rows with `.loc`: library calls. `Analyze` takes the tracks as a sequence in the order they are visited. Every track has at least one frame, since it comes from at least one row.
- Writing `bursts_info.csv`, both the header and the rows: file I/O. A row is the `BurstRow` value that would be written.
- The plot: `plot_values`, `broken_barh` and the axis settings. This is rendering, and it is the only user of the doubled `initials` list and of the final `max_duration`. Its loop at burst_analysis.py:111-112 reads `initials[i]` for every `i < len(tps_ON)`, but the repeated `initials` list has only twice as many entries as there are runs. A track with more than twice as many frames as runs therefore raises IndexError there, after its row is written and `max_duration` is updated, and `main` stops at that track (frames 5, 6, 7 give 2 entries and a read at index 2: `Scenarios.PlotOverrun`). `Analyze` describes the loop for inputs where no track triggers this.
- The `__main__` entry point and its path constants.
- Frame numbers are unbounded integers. The pandas `Int64` column type and numpy's integer width are not modelled, because frame indices stay far below any limit.
- RunLength.CountConsec: requires a non-empty list. `count_consec` fails with an index error at `lst[0]` on an empty list, and its callers never pass one.
- ListSort.SortInPlace: the sorting algorithm of Python's `list.sort()` is not modelled. Only its result, sorted and a permutation, is stated.

## Findings

| source | as written | input that shows it | evidently intended | confidence | as-written member | corrected member |
|---|---|---|---|---|---|---|
| burst_analysis.py:89 and burst_analysis.py:96 | `[x*2 for x in count_consec(...)]` multiplies each returned list by 2, which repeats the list: `tps_ON_duration` is `consec + consec` | a track seen in frames 1, 2, 3, 7, 8, 10 gets `ON[min]` 3, 2, 1, 3, 2, 1 and `OFF[min]` 3, 1, 3, 1; its `max_duration` candidate is 10 + 1 = 11 | each run length doubled to minutes, as the comment at line 88 says: `ON[min]` 6, 4, 2 and `OFF[min]` 6, 2, adding up to 2 minutes per frame | high (not executed) | BurstReport.TimesTwo, BurstReport.TimesTwoIsNotMinutes, Scenarios.WorkedColumns | BurstReport.Minutes, BurstReport.RunMinutesCoverTrack |
