# Intruder detector: the per-stream bookkeeping, modelled and proved in Dafny

The intruder detector reads several video streams (files or cameras) named in a
configuration file. It runs an SSD object detector on their frames. For each stream it
counts the detections of the requested labels, and it confirms a count only once the count
has held steady for a few frames. Every confirmed increase is logged as "intruder" events.
This project models the logic around the detector:

- `Stream` (application/include/videocap.hpp):
  - the detector constants `THRESHOLD_VALUE` (0.55, videocap.hpp:45) and
    `CANDIDATE_CONFIDENCE` (4, videocap.hpp:46);
  - the `event` record;
  - the `VideoCap` class.

  `VideoCap` is a Dafny `class`. Its per-label vectors are `seq` fields that the methods
  below reassign, as the main loop updates them in place.
- `Labels`: `getUsedLabels`. It builds the label filter table from the label file's lines:
  - a flag per class id;
  - a dense counter position per class id;
  - the used names.
- `Config`: `getInput`, the configuration-file parser.
  - `video:` lines become numbered streams, "Cam 1", "Cam 2", ..., in file order, each a
    camera or a file.
  - `intruder:` lines become requested labels.
  - Other lines are ignored.
  - Afterwards every stream gets one zeroed counter per requested label.
- `Rate`: the rate normaliser and the end of the main loop.
  - `get_minFPS` takes the smallest rounded rate, capped at 240.
  - Each turn, each stream reads its own rate divided by that pace, in C integer
    division.
  - A stream whose frame buffer comes back empty is flagged ended for good.
  - The loop stops on Esc or once every stream has ended.
- `Detection`: the SSD output parse. It clears the counters, then counts the records of
  confidence above 0.55 whose class is in use, by dense position.
- `Debounce`: the per-label confirmation state machine.
  - It tracks the candidate count and its streak.
  - A confirmation makes the count the last correct count.
  - Growth d adds d to the label's total and appends d events.
  - It feeds the shared rolling log of the log window.
- `Frame`: one processed frame of one stream. It clears, counts, runs the debounce block
  over all labels and advances the frame counter.
- `Planar`: the packed-to-planar copy of a resized frame into the network's input buffer.
  - Both are `array<int>`.
  - The copy is proved to produce the planar image, and packing that image gives the frame
    back.

The imperative parts of the source are methods with loops, proved against specification
functions:
- `DebounceUpTo` folds `UpdateLabel` over the labels.
- `Matching` gives the requested lines of the label file.
- `ParseAll`, `Paths` and `Names` give the configuration entries, paths and labels.
- `WritePixels` and `PlanarOf` describe the copy.
- `Ended` describes the ended flags.

The lemmas beside these functions state what the source promises:
- a new count is confirmed on its fifth frame;
- a count that flickers is never confirmed;
- the event ledger's length is the sum of the per-label totals;
- the log keeps exactly the newest lines;
- the dense positions are consecutive and index the used names;
- configuration files concatenate;
- the planar layout is a bijection.

Inputs that the source takes from its surroundings are parameters of the model:
- the contents of the label and configuration files (`seq<string>`);
- the detection tensor (`seq<real>`);
- the wall-clock readings an event carries;
- whether each `vc.read` delivers a frame;
- a stream's reported frame rate (`real`);
- whether Esc was pressed.

Other constants of the model: `MAX_FPS` (240, the starting pace of `get_minFPS`,
main.cpp:255), `ROLLING_LOG_SIZE` (`(432 - 15) / 20`, that is 20 lines, main.cpp:359 and
514) and `RECORD_SIZE` (7 values per SSD record, main.cpp:633).

Behaviours of the code worth knowing:
- **A new count is confirmed on its fifth consecutive frame.** The frame on which the count
  changes resets the streak to 0, and confirmation needs a streak of 4, whatever streak the
  label had before (`Debounce.NewCountConfirmedOnFifthFrame`).
- **`lastCorrectCount` can fall.** A confirmation always makes the current count the last
  correct one, even when that lowers it; only `totalCount` is monotone.
- **The pace is the smallest rounded rate capped at 240, and may be 0 or negative.** The
  reads per turn are a truncating integer quotient whose loop may run zero times.
- **Stream n's output file is `video<n+1>.mp4`.** The constructor adds one to its number.
- **The "no labels" check only catches an empty or unopenable label file.** A label file
  in which no requested label matches passes it (`Labels.UnmatchedFilePassesCheck`).

## Model

| member | source | states |
|---|---|---|
| `Stream.VideoCap.FromPath` | application/include/videocap.hpp:83-100 | a path-based stream keeps its path and camera name, is not a camera; its output file uses number + 1; no frames, no events, no label vectors yet |
| `Stream.VideoCap.FromCamera` | application/include/videocap.hpp:102-119 | a camera-id stream has input name "stream" and `isCam` set; same output-file name and empty initial state |
| `Stream.IntToStringInjective` | application/include/videocap.hpp:94 | `to_string` never gives two integers the same text |
| `Stream.VideoNameInjective` | application/include/videocap.hpp:112 | distinct stream numbers get distinct output files |
| `Stream.VideoCap.Init` | application/include/videocap.hpp:121-131 | `noLabels` becomes n and all seven per-label vectors get length n; counts are zero, changed flags false, names empty; ledger, frame counters and `isCam` are unchanged; the stream invariant then holds exactly when the ledger is empty and `frameCount` and `loopFrames` are non-negative |
| `Detection.TruncToInt` | application/src/main.cpp:638 | the `(int)` conversion truncates toward zero: the result lies within one of the value, on the side of zero |
| `Detection.CountedPositionIsUsed` | application/src/main.cpp:637-643 | a counter position that counts any record is the dense position of a used class, so it obeys every bound the table puts on those positions |
| `Detection.CountsAddUp` | application/src/main.cpp:631-643 | the per-label counts of a frame add up to the number of accepted records: none lost, none counted twice |
| `Detection.ResetCounts` | application/src/main.cpp:622-626 | afterwards every `currentCount[i]` is 0 and every `changedCount[i]` false |
| `Detection.ParseDetections` | application/src/main.cpp:631-656 | each counter grows by the number of the first `maxProposalCount` records with confidence above 0.55 whose used class maps to that position; rejected records change nothing |
| `Debounce.PushLog` | application/src/main.cpp:691-698 | pushing a line keeps the log within `rollingLogSize` and puts the line last |
| `Debounce.PushKeepsNewest` | application/src/main.cpp:695-698 | push-then-trim applied to the newest lines of a log gives the newest lines of the extended log |
| `Debounce.EmitLogKeepsNewest` | application/src/main.cpp:683-698 | after d pushes of one line the log is exactly the newest `rollingLogSize` lines of old log plus d copies |
| `Debounce.Observe` | application/src/main.cpp:660-674 | the candidate becomes the current count; the streak grows on a repeat and is 0 on a change; confirmation fires iff the streak reaches 4, which resets it to 0 |
| `Debounce.StreakFollowsTrailingRun` | application/src/main.cpp:660-672 | from a zero streak the streak equals (run length - 1) mod 4, and a count is confirmed iff its run of equal frames has reached 5, 9, 13, ... |
| `Debounce.StreakForgetsStart` | application/src/main.cpp:660-666 | once the count differs from the candidate, the streak and the confirmations no longer depend on the streak the label started with |
| `Debounce.NewCountConfirmedOnFifthFrame` | application/src/main.cpp:660-672 | from any starting streak, a new count held for n frames is confirmed on frame n iff n >= 5 and n - 1 is a multiple of 4 |
| `Debounce.FlickerNeverConfirms` | application/src/main.cpp:660-666 | from any starting streak, a count sequence that changes on every frame is never confirmed |
| `Debounce.NoImmediateReconfirmation` | application/src/main.cpp:668-672 | right after a confirmation the same count on the next frame does not confirm again |
| `Debounce.UpdateLabel` | application/src/main.cpp:660-713 | one label's step touches only that label's entries; its total never falls; the events only grow, by exactly the growth of its total |
| `Debounce.UpdateLabelCases` | application/src/main.cpp:660-713 | a non-confirming frame changes no last/total/changed/events/log; a confirmation sets the last count to the current one (also downwards, emitting nothing) and marks it changed; growth d adds d to the total and appends d events with the label's name, the frame and the stream's total after the increment, and the log becomes its newest lines |
| `Debounce.AppendBatchKeepsLedger` | application/src/main.cpp:678-705 | appending d events carrying the new running total keeps the ledger's length equal to the sum of the totals, and keeps its counts and frames ordered |
| `Debounce.UpdateLabelKeepsGood` | application/src/main.cpp:660-713 | one label's step keeps counts non-negative, streaks below 4, the ledger consistent and the log in its window |
| `Debounce.DebounceUpTo` | application/src/main.cpp:658-714 | after the first n labels' steps the later labels are untouched, no total has fallen and the events only grew |
| `Debounce.DebounceKeepsGood` | application/src/main.cpp:658-714 | every prefix of the labels' steps keeps the between-labels invariant |
| `Debounce.StreamTotal` | application/src/main.cpp:685-687 | the loop over `totalCount` yields its sum |
| `Debounce.EmitEvents` | application/src/main.cpp:683-707 | `detObj` iterations append `detObj` copies of the event (label, time, frame, stream total) and push `detObj` log lines with trimming |
| `Debounce.StepStreak` | application/src/main.cpp:660-672 | the candidate and streak of label i become what `Observe` gives, and the label is marked changed exactly when it is confirmed |
| `Debounce.ConfirmLabel` | application/src/main.cpp:676-713 | the current count becomes the last correct one; growth d adds d to the total and appends d events and log lines; no growth changes neither totals nor events nor log |
| `Debounce.DebounceLabel` | application/src/main.cpp:660-713 | the imperative block for label i leaves the stream in the state `UpdateLabel` describes |
| `Debounce.DebounceLabels` | application/src/main.cpp:658-714 | the loop over all labels leaves the stream in the state `DebounceUpTo` describes |
| `Frame.CountFrame` | application/src/main.cpp:619-656 | after clearing and parsing, the counters are the frame's counts and the changed flags are clear |
| `Frame.ConfirmFrame` | application/src/main.cpp:658-715 | the debounce block keeps the stream invariant (ledger length equals the sum of totals), follows `DebounceUpTo`, and `frameCount` grows by exactly 1 |
| `Frame.NamedWhenGrowing` | application/src/main.cpp:689-702 | a label whose count grows is one that some accepted record counted, so `labelNames[i]` exists for it |
| `Frame.ProcessFrame` | application/src/main.cpp:615-716 | given a label table whose used positions index `labelNames`, one processed frame reads no label name out of range and keeps the invariant; every total is non-decreasing; events only grow; the frame counter grows by 1 |
| `Labels.Matching` | application/src/main.cpp:186-192 | the used names are at most as many as the label file's lines, and each is a requested label |
| `Labels.DensePosition` | application/src/main.cpp:186-200 | a used line k gets the number of used lines before it as its position, and the used names hold line k there |
| `Labels.PositionsIncrease` | application/src/main.cpp:186-200 | later used lines get strictly larger positions |
| `Labels.GetUsedLabels` | application/src/main.cpp:172-205 | an unopenable file gives three empty vectors; otherwise one flag and one position per line, positions 0, 1, 2, ... for used lines in file order and 0 for others, names the used lines in order, and `labelNames[labelPos[k]]` is line k for every used line; the result is empty iff the file is missing or empty |
| `Labels.MatchingDistinct` | application/src/main.cpp:188-192 | a label file without repeated lines gives used names without repeats, all from the file |
| `Labels.PositionsBelowRequested` | application/src/main.cpp:188-193 | with no repeated label-file lines every dense position is below the number of requested labels, which is every stream's counter count |
| `Labels.DuplicateLineOverflows` | application/src/main.cpp:188-193 | a requested label listed twice gets position 1 with a single counter |
| `Labels.UnmatchedFilePassesCheck` | application/src/main.cpp:497-503 | a non-empty label file with no requested line passes the "no labels" check yet yields no used names |
| `Config.Key` | application/src/main.cpp:218-219 | the key is the colon-free prefix of the line, ending at the first colon or at the end of the line |
| `Config.Value` | application/src/main.cpp:223 | the value is absent (the throwing `substr`) iff the line ends before two characters past the colon |
| `Config.ValueLayout` | application/src/main.cpp:218-223 | a line with a value is its key, the colon, one skipped character and the value; without a colon it is one skipped character and the value |
| `Config.CameraIds` | application/src/main.cpp:224 | a path is a camera id iff it is one of the ten one-digit strings |
| `Config.CamName` | application/src/main.cpp:222 | every stream name starts with "Cam " and does not end there |
| `Config.CamNameInjective` | application/src/main.cpp:222 | distinct stream numbers give distinct stream names |
| `Config.FindColon` | application/src/main.cpp:218 | the index of the first colon, or -1 when there is none |
| `Config.ColonSplit` | application/src/main.cpp:218-235 | for a colon-free key followed by a colon, the key reads back and the value skips one character, or is absent (the throwing `substr`) when nothing follows |
| `Config.OptionLineRoundTrip` | application/src/main.cpp:218-235 | `key: value` reads back as exactly that key and value |
| `Config.OptionLineParses` | application/src/main.cpp:216-240 | `video: p` parses to a stream path p, `intruder: x` to a label x, any other key is ignored |
| `Config.NoColonDropsFirstCharacter` | application/src/main.cpp:218-223 | without a colon the whole line is the key and the value starts at index 1 |
| `Config.TrailingColonThrows` | application/src/main.cpp:223-235 | a recognised key followed only by its colon makes `substr` throw |
| `Config.CharacterAfterColonSkipped` | application/src/main.cpp:223-235 | the character right after the colon is dropped whatever it is |
| `Config.ParseAllAppend` | application/src/main.cpp:216-241 | parsing a concatenation is the concatenation of the parses |
| `Config.ConcatenatedFiles` | application/src/main.cpp:216-241 | the streams and labels of two concatenated files are those of the first followed by those of the second |
| `Config.ConcatenatedWellFormed` | application/src/main.cpp:216-241 | two concatenated files parse without throwing iff both do |
| `Config.UnrecognisedLineIgnored` | application/src/main.cpp:237-240 | a line with another key adds no stream, no label and no failure |
| `Config.OpenStream` | application/src/main.cpp:224-231 | a one-digit path opens camera 0 whatever the digit; any other path opens that file; the stream is named for its number |
| `Config.AddStream` | application/src/main.cpp:219-232 | appends one new, distinct stream numbered one past the others and keeps the earlier ones |
| `Config.InitAll` | application/src/main.cpp:243-246 | every stream is initialised with n zeroed counters, keeps its camera flag, and is at frame 0 with no loop frames and an empty ledger |
| `Config.ClassifyLine` | application/src/main.cpp:218-236 | the loop body's classification of line k is that line's parse |
| `Config.ApplyEntry` | application/src/main.cpp:219-240 | one entry extends the streams and labels as that entry's path or name says, and keeps them distinct |
| `Config.ScanLine` | application/src/main.cpp:216-240 | one turn of the loop fails iff line k throws, and otherwise extends what the earlier lines built by line k's entry |
| `Config.ScanLines` | application/src/main.cpp:216-241 | succeeds iff no line throws; then one fresh, distinct, numbered stream per `video:` line and the `intruder:` values in order |
| `Config.GetInput` | application/src/main.cpp:209-249 | fails iff some line throws; otherwise one stream per `video:` line named "Cam k" in file order, the requested labels are the `intruder:` values in order, every stream initialised with one zeroed counter per label, at frame 0, with no loop frames and an empty ledger |
| `Planar.IndicesInRange` | application/src/main.cpp:577-584 | both layouts put every (pixel, channel) pair inside the buffer, and each index splits back into that pair |
| `Planar.PlanarOfAt` | application/src/main.cpp:577-584 | pixel p's channel c moves from `p * channels + c` to `p + c * channel_size` |
| `Planar.PackedOfAt` | application/src/main.cpp:577-584 | the inverse layout puts it back at `p * channels + c` |
| `Planar.PackedOfPlanar` | application/src/main.cpp:577-584 | packing the planar image gives the frame back |
| `Planar.PlanarOfPacked` | application/src/main.cpp:577-584 | every planar image is the planar image of its packed form |
| `Planar.PlanarIndexInjective` | application/src/main.cpp:582 | distinct (pixel, channel) pairs are written to distinct positions |
| `Planar.PlanarFromPairs` | application/src/main.cpp:577-584 | a buffer holding every pair at its planar position holds the planar image |
| `Planar.WritePixelCopies` | application/src/main.cpp:580-583 | the inner loop puts each written channel of the pixel in place |
| `Planar.WritePixelKeeps` | application/src/main.cpp:580-583 | the inner loop leaves every other pair's planar position alone |
| `Planar.WritePixelKeepsTail` | application/src/main.cpp:580-583 | the inner loop writes nothing past the planar image |
| `Planar.WritePixelsEffect` | application/src/main.cpp:577-584 | after pixels 0..i-1 all their channels are in place and nothing past the image is written |
| `Planar.CopyPixel` | application/src/main.cpp:580-583 | the inner loop writes pixel i's channels and advances `imgIdx` by the channel count |
| `Planar.PackedToPlanar` | application/src/main.cpp:562-585 | a frame of the wrong size aborts with the buffer untouched; otherwise the buffer's first `channel_size * channels` values become the planar image and the rest is unchanged |
| `Rate.Round` | application/src/main.cpp:259 | `round` gives the nearest integer, halves away from zero |
| `Rate.CDivFloor` | application/src/main.cpp:536 | for non-negative operands the C quotient is the floor |
| `Rate.CDivNegation` | application/src/main.cpp:536 | the C quotient is symmetric under negating the dividend, unlike Euclidean division |
| `Rate.ReadsKeepPace` | application/src/main.cpp:535-540 | a stream at least as fast as the pace reads at least one frame per turn, and reads times pace are within one pace below its rate |
| `Rate.NegativePaceReadsNothing` | application/src/main.cpp:536 | a negative pace makes a positive-rate stream read no frame |
| `Rate.GetMinFps` | application/src/main.cpp:253-263 | the pace is at most 240, at most every rounded rate, and equals one of them or 240 |
| `Rate.ReadFrames` | application/src/main.cpp:535-540 | exactly `vfps / minFPS` reads, `loopFrames` grows by that number, and the buffer holds data as the last read left it (or as before, with no read) |
| `Rate.OwnReadsDecide` | application/src/main.cpp:526-545 | with a positive pace at most every rate, each stream's data flag is the outcome of its own last read, never the frame another stream left in the shared buffer |
| `Rate.EndedIsSticky` | application/src/main.cpp:541-545 | an ended flag stays set; a running stream ends exactly when its buffer is empty; once all have ended they stay ended |
| `Rate.MarkStream` | application/src/main.cpp:541-545 | the stream's flag is set when its buffer is empty, no other flag changes, and it skips inference iff its flag is set |
| `Rate.MarkTurn` | application/src/main.cpp:541-545 | the flags after a turn are the `Ended` update of the flags before, and the skip results are those flags |
| `Rate.FirstRunning` | application/src/main.cpp:766 | the index of the first stream still running, or the number of streams |
| `Rate.TurnEnds` | application/src/main.cpp:759-767 | the loop stops iff Esc was pressed or every stream has ended |

## Left out

- Inference Engine loading, network and blob set-up, and the `Infer` call. These are foreign
  calls; the detection tensor and `maxProposalCount` are inputs.
- OpenCV capture, `resize`, drawing, windows, `imshow`, `imwrite` of detections,
  `VideoWriter` and `initVW`.
  - What a read delivers is an input.
  - The resized frame is an `array<int>` of its bytes.
  - `initVW` also lacks a return on success, which is not part of this model.
- File I/O:
  - reading the label and configuration files (their lines are inputs);
  - the log file and standard output copies of the log lines;
  - `saveJSON`.
- `parseEnv`, `parseArgs` and `checkArgs`: command-line and environment handling.
- The clock. The wall-clock time an event carries is an input (`WallTime`), as are the FPS
  and infer-time readings, which are only displayed.
- Rewinding looped videos (main.cpp:747-755). It depends on the capture's floating frame
  count.
- `waitTime` (main.cpp:520) is computed once from the pace and never used, so it is not
  modelled. Its computation `1000 / minFPS / vidCaps.size()` divides by zero when the pace
  is 0 and when the configuration file has no `video:` line (zero streams).
- Rate.GetMinFps: yields 240 for zero streams and 0 when the smallest rounded rate is 0; in
  both cases the source then divides by zero at main.cpp:520, before the main loop starts.
  A negative smallest rounded rate is returned as it is; then no division by zero occurs,
  and every positive-rate stream reads no frame per turn (`Rate.NegativePaceReadsNothing`).
- Rate.TurnEnds: stops cleanly when there are no streams, where the source divides by zero
  at main.cpp:520 before it reaches the loop.
- The batch loops over `mb` (main.cpp:528 and 619) run once, since `conf_batchSize` is 1
  (videocap.hpp:37). The model processes one frame per stream per turn.
- Esc is an input of `Rate.TurnEnds`; `waitKey` is not modelled.
- The `VideoCap` constructors exit the process when the capture cannot be opened. The model
  assumes the open succeeds.
- Stream.VideoCap.FromPath: sets `noLabels` to 0, where the source leaves it uninitialised
  until `init`.
- Stream.VideoCap.FromCamera: the same as `FromPath`: `noLabels` is 0 until `init`.
  The frame width and height these constructors take are only used for drawing, and are left
  out.
- Integer widths. Counts, totals and frame counters are unbounded integers, so 32-bit
  overflow is not modelled. Floating values are `real`: the threshold 0.55 is exact, not the
  nearest `double`.
- Hazards that the source leaves unchecked are preconditions of the model, not replicated:
  - the class id read from a record must index `usedLabels`;
  - a dense position must be below `noLabels`;
  - the pace must be non-zero at the read loop.
- Rate.ReadFrames: the frame buffer shared by all streams is modelled only by whether it
  holds data, threaded from stream to stream by the `held` parameter (`Rate.DataSeen`).
- Rate.MarkTurn: takes each stream's data flag after its reads as input. It models the flag
  updates of a turn apart from the reads and the per-stream frame processing, and does not
  compose them into a single turn method.
- Planar.PackedToPlanar: the frame and the input buffer are distinct `int` arrays (`data !=
  input`). Byte and float element widths are not modelled.
- Config.GetInput: does not restate that the streams are newly allocated. `Config.ScanLines`
  states it.
- Config.GetInput: when a line throws, the source's exception leaves `getInput`. The model
  returns `ok == false` and says nothing about the partial results.
