# TrimSubs, modelled in Dafny

TrimSubs cuts a subtitle track so that it follows the `Trim(a, b)` calls of
an Avisynth script. Only the kept frame ranges stay, and each kept line is
moved so that the ranges follow one another without gaps. This project models
the core of `TrimSubs.py`:

- `read_trims`: find the script line with the Trims and read its calls
  (modules `TrimScan` and `TrimParse`);
- `join_trims`: merge adjacent ranges (`TrimJoin`);
- `frames2time`: turn frame ranges into time spans, each with its shift, at a
  constant rate or from a v2 timecode table (`FrameMapping`);
- `timecode_v1_to_v2`: complete and expand a v1 timecode file (`TimecodeV1`);
- `time_format`: split milliseconds into clock components (`TimeFormat`);
- `sub_subs`: cut a frame-based MicroDVD file (`MicroDvd`);
- `time_subs`: cut a time-based track (`TimeCut`).

Shared pieces:

- `Trims` holds the records: a frame range `(start, end)`, and the `Trim`
  record with its start, end and frame or time shift.
- `Text` holds character classes and decimal numerals.
- `Results` holds `Option` and `Result`.
- `Seqs` holds sequence helpers.

Where the program stops with `exit` or an uncaught exception, the model
returns an error value naming the reason. The exceptions listed under
"## Left out" are the exceptions to this.

The model works on values and parameters:

- A file arrives as its list of lines. Opening, decoding and writing files
  are outside the model.
- The time of a frame at a constant rate is a function parameter. It stands
  in for `pysubs.Time(frame=…, fps=…)`.
- A timecode table is a sequence of integer milliseconds.
- The entries a v1 conversion would print are symbolic, since each is a
  floating point product. An entry names its range and its index within it.

## Model

| member | source | states |
|---|---|---|
| TrimScan.Step | TrimSubs.py:309 | One character of `\s*\(\s*(\d+)\s*,\s*(-?\d+)\s*\)` never accepts a character a call cannot hold. It accepts only on `)` after the second number. Once the first number has begun, its start stays fixed. |
| TrimScan.Run | TrimSubs.py:309 | A call the pattern recognises ends within the searched prefix, and its first number starts inside it. |
| TrimScan.CallAt | TrimSubs.py:309 | A call found at `i` begins with its four-letter name, and its number and end come after that name within the bound. |
| TrimScan.FirstHash | TrimSubs.py:309 | `^[^#]*` reaches the first `#` of the prefix, or its end, and passes no `#`. |
| TrimScan.CallTable | TrimSubs.py:309 | Entry `i` is the call that starts at `i`, if any. |
| TrimScan.LastBelow | TrimSubs.py:320 | The index returned holds a call and lies below the bound. |
| TrimScan.LastBelowIsLast | TrimSubs.py:320 | Nothing between the index found and the bound holds a call. |
| TrimScan.LastCallIn | TrimSubs.py:320 | `re_trim.search(line[:end])` returns a real call of the line. That call starts before the first `#` and ends by `end`. |
| TrimScan.LastCallInIsLast | TrimSubs.py:320 | The greedy `[^#]*` makes the search return the last call before the first `#`: no later call exists. |
| TrimScan.RunBound | TrimSubs.py:320 | Within a smaller bound the automaton finds the same call if it ends by that bound, otherwise none. |
| TrimScan.CallAtBound | TrimSubs.py:320 | A call is found in the shorter prefix exactly when it ends by the shorter bound. |
| TrimScan.RunPrefix | TrimSubs.py:320 | Searching `line[:end]` reads nothing at or after `end`. |
| TrimScan.CallAtPrefix | TrimSubs.py:320 | Whether a call starts at `i` within a bound does not depend on the text after the bound. |
| TrimScan.CallTablePrefix | TrimSubs.py:320 | The call table of a prefix equals the table of the whole line under that bound. |
| TrimScan.LastCallSlice | TrimSubs.py:320 | Searching the string `line[:end]` is the same as searching `line` with bound `end`. |
| TrimScan.RunChars | TrimSubs.py:309 | Every character a recognised call spans after its name is a character such a call may contain. |
| TrimScan.CallChars | TrimSubs.py:309 | Inside a call no `t`/`T` follows its first letter, so no second call starts inside it. |
| TrimScan.CallsDisjoint | TrimSubs.py:309 | Of two calls of a line, the earlier one ends before the later one starts. |
| TrimScan.ScanLine | TrimSubs.py:317-325 | The `while` loop records exactly the calls `CallsFound` lists, in the order the loop finds them. |
| TrimScan.Within | TrimSubs.py:320 | Restricting a table to a bound keeps exactly the calls that end by it. |
| TrimScan.FoundSound | TrimSubs.py:317-325 | Every call the table scan finds is in the table, starts before the first `#` and ends within the bound. |
| TrimScan.FoundOrdered | TrimSubs.py:317-325 | The scan finds calls right to left. Each ends before the previously found one starts. |
| TrimScan.FoundComplete | TrimSubs.py:317-325 | The scan misses no table call that starts before the first `#` and ends within the bound. |
| TrimScan.CallTablePlaced | TrimSubs.py:309 | Each entry of a line's table is a call at that index that ends within the line. |
| TrimScan.CallTableDisjoint | TrimSubs.py:309 | The calls of a line's table do not overlap. |
| TrimScan.CallTableWithin | TrimSubs.py:320 | The table of `line[:end]` is the line's table restricted to calls ending by `end`. |
| TrimScan.CallsFoundIsFound | TrimSubs.py:317-325 | The loop over the string is the scan over the line's table. |
| TrimScan.CallsFoundSound | TrimSubs.py:317-325 | Every call the loop records is a call of the line that starts before its first `#`. |
| TrimScan.CallsFoundOrdered | TrimSubs.py:317-325 | The loop records the calls right to left and without overlap. |
| TrimScan.CallsFoundComplete | TrimSubs.py:317-325 | Every call before the first `#` is recorded. |
| TrimParse.ToRange | TrimSubs.py:335-336 | A positive second number is the last frame. Zero or a negative second number `-k` gives a range that keeps exactly `k` frames. |
| TrimParse.ToRangeExamples | TrimSubs.py:335-336 | `Trim(10,-5)` keeps frames 10..14. `Trim(10,0)` gives `(10, 9)`. `Trim(10,20)` gives `(10, 20)`. |
| TrimParse.RangesOf | TrimSubs.py:335-336 | The comprehension returns one range per recorded call. |
| TrimParse.RangesOfLine | TrimSubs.py:335-336 | The returned ranges are those of the line's calls, left to right. |
| TrimParse.LineCallsSound | TrimSubs.py:317-336 | Each returned call is a call of the line before its first `#`. |
| TrimParse.LineCallsOrdered | TrimSubs.py:317-336 | The returned calls are in left-to-right order without overlap. |
| TrimParse.LineCallsComplete | TrimSubs.py:317-336 | Every call before the first `#` is returned. |
| TrimParse.CandidatesSpec | TrimSubs.py:313-314 | A line number keeps only the slice `lines[n-1:n]`, for positive, too large and negative numbers alike. Zero keeps all lines. |
| TrimParse.Matching | TrimSubs.py:307-316 | Each flag is whether `re_line` matches that line: a call before the first `#`, then the label after a `#` when one is given. |
| TrimParse.FirstTrue | TrimSubs.py:315-316 | The `for` loop stops at the first matching line, and no earlier line matches. Without a match, no line matches. |
| TrimParse.FirstTrueAt | TrimSubs.py:315-316 | A matching line with no match before it is the one chosen. |
| TrimParse.ReadTrims | TrimSubs.py:295-336 | The function returns the ranges of the first matching candidate line. Without one, it fails with the message chosen by label, then line number. |
| TrimJoin.Join | TrimSubs.py:338-351 | The joined list is never longer than the input and is empty only for empty input. It keeps the first start and the last end. |
| TrimJoin.JoinNoAdjacent | TrimSubs.py:338-351 | No two consecutive ranges of the result are adjacent (`next.start - end == 1`). |
| TrimJoin.JoinWithStart | TrimSubs.py:344-345 | Joining commutes with replacing the first start. This is what the `prev` variable carries. |
| TrimJoin.JoinCloseStep | TrimSubs.py:346-348 | A non-adjacent next range closes the open run at the current end. |
| TrimJoin.JoinExtendStep | TrimSubs.py:346 | An adjacent next range extends the open run. |
| TrimJoin.JoinLastStep | TrimSubs.py:349-350 | The `IndexError` at the last range closes the run with the last end. |
| TrimJoin.JoinTrims | TrimSubs.py:338-351 | The loop with its `try`/`except` returns `Join` of its input. |
| TrimJoin.JoinFixpoint | TrimSubs.py:338-351 | Ranges without adjacent pairs come back unchanged. |
| TrimJoin.JoinIdempotent | TrimSubs.py:338-351 | Joining twice is joining once. |
| TrimJoin.CoversCons | TrimSubs.py:338-351 | A frame is covered by a list exactly when the head or the tail covers it. |
| TrimJoin.JoinWellFormed | TrimSubs.py:338-351 | Joining ranges that are not reversed gives ranges that are not reversed. |
| TrimJoin.JoinCovers | TrimSubs.py:338-351 | On ranges that are not reversed, joining keeps exactly the same frames. |
| FrameMapping.CfrTrims | TrimSubs.py:561-567 | One `Trim` per range. |
| FrameMapping.CfrTrimsAt | TrimSubs.py:561-567 | Entry `i` is the `Trim` of range `i`. |
| FrameMapping.MapCfr | TrimSubs.py:561-567 | Range `i` becomes the span from the time of its first frame to the time of the frame after its last. Its frame shift is the one `CfrContiguous` characterises. |
| FrameMapping.CfrContiguous | TrimSubs.py:562-567 | After the shift, a range starts where the ranges before it end, and the next one starts right after it. A first range at frame 0 is not moved. |
| FrameMapping.KeptMonotone | TrimSubs.py:561-567 | The running total of kept frames never decreases. |
| FrameMapping.CfrTiles | TrimSubs.py:561-567 | The shifted ranges tile the output frames: in order and without overlap, and every output frame below the total lies in one of them. |
| FrameMapping.KeptRangeOf | TrimSubs.py:561-567 | Names the range whose shifted image holds a given output frame. |
| FrameMapping.Entries | TrimSubs.py:553-554 | The slice `lines[trim[0]+1 : trim[1]+2]` yields as many entries as it has frames. |
| FrameMapping.EntriesAt | TrimSubs.py:553-554 | Each new entry is its table entry moved back by the gap. |
| FrameMapping.Emit | TrimSubs.py:546-554 | One range adds a `Trim` with time shift `prev_end - start` and advances `prev_end` by the range's duration. It appends the range's entries moved back by the gap. |
| FrameMapping.VfrStep | TrimSubs.py:539-554 | A first frame past the table raises. A missing end entry with fewer than two entries to extrapolate from raises. Otherwise exactly one `Trim` is appended. |
| FrameMapping.VfrRun | TrimSubs.py:539-554 | A run that succeeds adds one `Trim` per range. |
| FrameMapping.MapRange | TrimSubs.py:539-554 | The loop body computes `VfrStep`. |
| FrameMapping.MapVfr | TrimSubs.py:538-554 | The loop from `0.000` computes `VfrRun`. |
| FrameMapping.VfrExtrapolates | TrimSubs.py:541-545 | A range reaching past the table ends at `2*last - second_last`, and that time is appended to the table. |
| FrameMapping.Frames | TrimSubs.py:553-554 | A range keeps the frames `start..end` in order. |
| FrameMapping.TimelineAppend | TrimSubs.py:553-554 | One range's entries extend the new table by its frames, each lasting as long as in the source table. |
| FrameMapping.EntriesLast | TrimSubs.py:551-554 | The last entry a range adds is the new `prev_end`. |
| FrameMapping.StepInTable | TrimSubs.py:540-542 | A range inside the table is mapped without extrapolating. |
| FrameMapping.EmitInTable | TrimSubs.py:546-554 | What a range inside the table adds to the `Trim`s and the entries. |
| FrameMapping.RunInTable | TrimSubs.py:539-554 | One loop iteration over a range inside the table. |
| FrameMapping.VfrTrims | TrimSubs.py:547-550 | One `Trim` per range inside the table. |
| FrameMapping.VfrInTable | TrimSubs.py:539-551 | Over ranges inside the table the branch never fails and never extends the table, and it produces exactly `VfrTrims`. |
| FrameMapping.VfrInTableOtc | TrimSubs.py:552-554 | Over such ranges the new table is exactly `VfrEntries`. |
| FrameMapping.VfrTrimsCons | TrimSubs.py:539-551 | The first range's `Trim` followed by the rest, shifted by its duration. |
| FrameMapping.VfrEntriesCons | TrimSubs.py:552-554 | The first range's entries followed by the rest. |
| FrameMapping.VfrTrimsAt | TrimSubs.py:546-551 | Range `i` spans its frames in the table and starts, once shifted, where the time kept before it ends. |
| FrameMapping.VfrEntriesTimeline | TrimSubs.py:552-554 | The entries continue a timeline with the kept frames, each lasting as long as in the source table. |
| FrameMapping.KeptAndEntriesCons | TrimSubs.py:552-554 | The kept frames and entries of the first range join those of the rest. |
| FrameMapping.VfrTrimsFromStart | TrimSubs.py:538-551 | From `prev_end = 0` the `Trim`s are laid end to end from time 0. |
| FrameMapping.VfrOtcFromStart | TrimSubs.py:538-554 | The new v2 table, starting at `0.000`, gives every kept frame its original duration. |
| FrameMapping.Extended | TrimSubs.py:543-545 | The table with one more entry, `2*last - second_last`: the last frame lasts as long as the one before it. |
| FrameMapping.EntriesExtend | TrimSubs.py:552-553 | Appending to the table leaves the entries before the new one unchanged. |
| FrameMapping.StepExtended | TrimSubs.py:539-554 | A range inside the table or ending at its last frame succeeds both on the table and on the extended table, with the same `Trim`, `prev_end` and entries. When it ends at the last frame, the extrapolated entry is the one the extended table holds. |
| FrameMapping.RunExtended | TrimSubs.py:538-554 | Over such ranges, the loop on the table and the loop on the extended table both succeed, with the same `Trim`s, `prev_end` and new table. |
| FrameMapping.VfrTrimsExtrapolated | TrimSubs.py:538-551 | From `prev_end = 0`, over ranges that may end at the last frame, the `Trim`s are laid end to end from time 0. The last frame lasts as long as the frame before it. |
| FrameMapping.VfrOtcExtrapolated | TrimSubs.py:538-554 | Over the same ranges, the new v2 table gives every kept frame its duration in the extended table. |
| TimeFormat.Split | TrimSubs.py:449-455 | The div/mod cascade gives components in clock range that add back up to the time. |
| TimeFormat.TimeFormatDict | TrimSubs.py:449-460 | The dictionary always adds up to the time itself. It is in clock range for a positive time and negated for any other. |
| TimeFormat.Pad | TrimSubs.py:462 | Zero padding gives digits of at least the field width. |
| TimeFormat.DecimalWidth | TrimSubs.py:462 | A number below 10^w has at most `w` digits. |
| TimeFormat.PadRoundTrip | TrimSubs.py:462 | A padded field of a number below 10^w is exactly `w` digits and reads back as the number. |
| TimeFormat.ClockRoundTrip | TrimSubs.py:449-462 | Below 100 hours the text is exactly `HH:MM:SS.mmm`. Its fields read back as the clock components of the magnitude. |
| TimecodeV1.ParseIntRoundTrip | TrimSubs.py:484-485 | `int` reads back what `str` writes, for any integer. |
| TimecodeV1.SplitJoin | TrimSubs.py:485 | Splitting on commas gives comma-free pieces that join back to the text. |
| TimecodeV1.JoinSplit | TrimSubs.py:485 | Joining comma-free pieces and splitting again gives the pieces back. |
| TimecodeV1.AssumeRate | TrimSubs.py:479-483 | The first line sets the default rate exactly when it has at least two words. |
| TimecodeV1.ParseRangeRoundTrip | TrimSubs.py:484-485 | A line `first,last,fps` reads back as that range. |
| TimecodeV1.Readings | TrimSubs.py:484-485 | Each line after the rate line is read on its own, in order. |
| TimecodeV1.Collect | TrimSubs.py:484-485 | Collecting the readings succeeds with one range per line. |
| TimecodeV1.CollectAt | TrimSubs.py:484-485 | The k-th range collected is the k-th reading. |
| TimecodeV1.CollectErr | TrimSubs.py:484-485 | A failure names the first reading that failed; all earlier readings succeeded. |
| TimecodeV1.ParseRanges | TrimSubs.py:484-485 | Reading succeeds with one range per line. |
| TimecodeV1.ParseRangesAt | TrimSubs.py:484-485 | Each range read is the reading of its own line. |
| TimecodeV1.ParseRangesErr | TrimSubs.py:484-485 | A failure names the first line that does not read; all earlier lines read. |
| TimecodeV1.FillRanges | TrimSubs.py:486-495 | The filling loop, including its `IndexError` exit, builds exactly `Filled`. |
| TimecodeV1.BeforeIff | TrimSubs.py:486-487 | A default-rate range leads exactly when `start` is before the first range, and it covers `start..first-1`. |
| TimecodeV1.BetweenIff | TrimSubs.py:489-492 | Each range is copied. A default-rate filler follows it exactly when frames lie between it and the next range. |
| TimecodeV1.BodyPrefix | TrimSubs.py:489-492 | The list built so far only grows. |
| TimecodeV1.AfterIff | TrimSubs.py:493-495 | A trailing default-rate range exists exactly when `end` is past the last range. |
| TimecodeV1.ContiguousJoin | TrimSubs.py:486-495 | Two contiguous lists that meet end to start form a contiguous list. |
| TimecodeV1.BodyContiguous | TrimSubs.py:489-492 | For ordered ranges, copies plus fillers leave no frame gap. |
| TimecodeV1.FilledContiguous | TrimSubs.py:486-495 | For ordered ranges, `all_inters` is gap-free from `min(start, first)` to `max(end, last)`. |
| TimecodeV1.FilledNonEmpty | TrimSubs.py:486-495 | Fillers never have a negative frame count. |
| TimecodeV1.BodyNonEmpty | TrimSubs.py:489-492 | The same for the copied part. |
| TimecodeV1.Ticks | TrimSubs.py:501-502 | One entry per frame of a range. |
| TimecodeV1.TicksAt | TrimSubs.py:501-502 | Entry `i` is the time of frame `i + 1` of the range. |
| TimecodeV1.ToV2 | TrimSubs.py:498-503 | The emitting loop computes `Emit`, including its failure on `v2[-1]`. |
| TimecodeV1.EmitErrStays | TrimSubs.py:498-503 | Once the conversion has failed, later ranges do not change the result. |
| TimecodeV1.EmitCount | TrimSubs.py:498-503 | Emitting fails exactly when a nonzero offset meets a first range without frames. Otherwise there is one entry per frame, plus `0.000` for a zero offset. |
| TimecodeV1.EmitAt | TrimSubs.py:498-503 | Frame `i` of range `k` has its entry after those of the earlier ranges. |
| TimecodeV1.SumWidthSpan | TrimSubs.py:498-503 | For a gap-free list, the entry count is the frame span. |
| TimecodeV1.TimecodeV1ToV2 | TrimSubs.py:464-504 | The whole conversion computes `V1ToV2`. |
| TimecodeV1.V1ToV2Count | TrimSubs.py:464-504 | For readable, ordered ranges and offset 0 the conversion succeeds. It writes `0.000` plus one entry per frame from `min(start, first)` to `max(end, last)`. |
| MicroDvd.ParseTagDigits | TrimSubs.py:384 | A line matched by `^{(\d+)}{(\d+)}` yields two non-empty digit strings. |
| MicroDvd.ParseTagSound | TrimSubs.py:394 | A matched line is exactly `{first}{second}` followed by the rest. |
| MicroDvd.ScanFirstSound | TrimSubs.py:384 | The same, for the scan of the first number. |
| MicroDvd.ScanSecondSound | TrimSubs.py:384 | The same, for the scan of the second number. |
| MicroDvd.TagLineOf | TrimSubs.py:384 | A line with braces at those places is that tag line. |
| MicroDvd.ScanFirstOver | TrimSubs.py:384 | The first scan skips a run of digits without changing its result. |
| MicroDvd.ScanSecondOver | TrimSubs.py:384 | The second scan skips a run of digits without changing its result. |
| MicroDvd.TagRoundTrip | TrimSubs.py:404 | Writing a tag and matching it again gives the tag back. |
| MicroDvd.WithNewline | TrimSubs.py:406-407 | Only the last line changes; it ends with a newline afterwards and is unchanged if it already did. |
| MicroDvd.PrevEndStep | TrimSubs.py:391-392 | The loop's `offset` is that range's `Offset`, and `prev_end` after it is the next `PrevEnd`. |
| MicroDvd.OffsetIsFrameShift | TrimSubs.py:389-392 | The MicroDVD `offset` is minus the constant-rate frame shift of `frames2time`. A range's first and last frames land on the output frames kept before it. |
| MicroDvd.FirstUnparsable | TrimSubs.py:394 | The first line without a tag lies within the lines scanned. |
| MicroDvd.FirstUnparsableParses | TrimSubs.py:394 | All lines parse exactly when no first failure exists. The lines before the reported one parse, and the reported one does not. |
| MicroDvd.CutLineOf | TrimSubs.py:397-405 | The line written is the tag line with the clipped, shifted numbers. |
| MicroDvd.CutSpan | TrimSubs.py:393-405 | A range writes at most one line per input line. |
| MicroDvd.CutSpanStep | TrimSubs.py:393-405 | One more tagged line extends the lines written by its cut, or not at all. |
| MicroDvd.AfterRangesStep | TrimSubs.py:390-407 | One more range appends its lines. It fails on `new_lines[-1]` when nothing has been written, and otherwise ends the output with a newline. |
| MicroDvd.AfterRangesErr | TrimSubs.py:390-407 | Once failed, later ranges do not change the result. |
| MicroDvd.CutSubs | TrimSubs.py:384-407 | The method computes `SubSubs`: no lines, an untagged first line, an unreadable body line, nothing written, or the new lines. |
| MicroDvd.CutLines | TrimSubs.py:389-407 | The loop over the ranges computes `CutBody`. |
| MicroDvd.NextRange | TrimSubs.py:391-407 | One turn of the range loop either extends the output to the next `AfterRanges` or stops with the whole cut's error. |
| MicroDvd.AddNewline | TrimSubs.py:406-407 | The newline fix computes `WithNewline`. |
| MicroDvd.CutRange | TrimSubs.py:393-405 | The inner loop fails exactly when a line has no tag, naming the first such line. Otherwise it writes `CutSpan`. |
| MicroDvd.CutTagged | TrimSubs.py:397-405 | A tagged line is written clipped and shifted exactly when it overlaps the range, and dropped otherwise. |
| MicroDvd.FirstUnparsableAt | TrimSubs.py:394 | An untagged line after tagged ones is the first failure. |
| MicroDvd.CutLineFrames | TrimSubs.py:397-405 | A kept line of a range that keeps frames is written with its text unchanged. Its numbers are its clipped frames shifted, within the output frames of that range. |
| MicroDvd.CutSpanFrames | TrimSubs.py:393-405 | Every line a range writes carries frame numbers inside that range's output frames. |
| MicroDvd.UpToNewlineStep | TrimSubs.py:406-407 | Appending and fixing the last newline keeps each line equal to the unfixed one up to an added newline. |
| MicroDvd.FixedWritten | TrimSubs.py:390-407 | The corrected output is the header and every range's lines, each up to an added newline. After a range it ends with a newline. |
| MicroDvd.FixedEndsWithNewline | TrimSubs.py:406-407 | After a range the corrected output, unless empty, ends with a newline. |
| MicroDvd.AfterRangesFixed | TrimSubs.py:390-407 | The program as written fails exactly when the header and the first range's lines are both empty, and the failure is `NothingWritten`. Otherwise it agrees with the corrected output and writes something. |
| MicroDvd.WrittenHeader | TrimSubs.py:386-388 | The output begins with the header line. |
| MicroDvd.FirstUnparsableShift | TrimSubs.py:386-388 | Dropping a tagged first line moves the first failure down by one. |
| MicroDvd.Skip | TrimSubs.py:386-388 | The first line is dropped from the body exactly when its tag is `{1}{1}`. |
| MicroDvd.SubSubsErrors | TrimSubs.py:384-407 | No lines fail on `lines[0]`. An untagged first line fails as line 0. With no ranges only the header is written. |
| MicroDvd.SubSubsUnparsable | TrimSubs.py:393-394 | An untagged line fails with its own index in the file. |
| MicroDvd.SubSubsTaggedUnparsable | TrimSubs.py:386-394 | After a tagged first line, an untagged line fails with its index in the file. |
| MicroDvd.SubSubsUntagged | TrimSubs.py:386 | An untagged first line fails as line 0, whatever the ranges. |
| MicroDvd.CutBodyUnparsable | TrimSubs.py:393-394 | With a range, an untagged body line stops the cut, reported at its index in the file. |
| MicroDvd.SubSubsBody | TrimSubs.py:386-388 | After the header test the body is the rest of the lines. |
| MicroDvd.FirstUnparsableBody | TrimSubs.py:386-388 | A failure in the body is reported at its index in the whole file. |
| MicroDvd.SubSubsFixed | TrimSubs.py:384-407 | The corrected cut never fails for lack of output. |
| MicroDvd.SubSubsFixedAgrees | TrimSubs.py:384-407 | The corrected cut agrees with the program wherever the program does not fail on `new_lines[-1]`, and succeeds where it does. |
| MicroDvd.SubSubsFixedOutput | TrimSubs.py:384-407 | The output is the header then each range's cut lines, up to newlines. It ends with a newline, and a `{1}{1}` header comes first. |
| MicroDvd.CutSpanOne | TrimSubs.py:393-405 | A single line is written, cut, exactly when it overlaps the range. |
| MicroDvd.ExampleTag | TrimSubs.py:384 | `{350}{360}hi` is read as frames 350 and 360. |
| MicroDvd.NothingWrittenExample | TrimSubs.py:406 | The input in Findings fails. |
| MicroDvd.ExampleFrames | TrimSubs.py:395-396 | The example's numerals read as frames 350 and 360. |
| MicroDvd.ExampleNumerals | TrimSubs.py:404 | Frames 151 and 161 are written as `{151}{161}`. |
| MicroDvd.ExampleCut | TrimSubs.py:397-405 | Range (300, 400) with offset 199 writes `{151}{161}hi`. |
| MicroDvd.NothingWrittenFixed | TrimSubs.py:389-407 | The corrected cut writes `{151}{161}hi` for the input in Findings. |
| TimeCut.Cut | TrimSubs.py:585-594 | A copy lies in the moved span and keeps its text. Its start, less the shift, is the later of the event's start and the span's start. Its end, less the shift, is the earlier of the two ends. |
| TimeCut.CutSpan | TrimSubs.py:584-595 | A span makes at most one copy per event. |
| TimeCut.TimeSubs | TrimSubs.py:576-596 | The nested loop computes `CutAll`. |
| TimeCut.CutSpanMembers | TrimSubs.py:584-595 | The copies of a span are exactly the cuts of the events that overlap it. |
| TimeCut.Overlapping | TrimSubs.py:585 | At most all events overlap. |
| TimeCut.CutSpanCount | TrimSubs.py:584-595 | There is one copy per overlapping event, no more and no fewer. |
| TimeCut.CutSpanOrder | TrimSubs.py:584-595 | Within a span, copies keep the input order: the copy of event `j` sits at the index equal to the number of overlapping events before it. |
| TimeCut.CutSpanBounds | TrimSubs.py:587-594 | Every copy lies inside its span once moved. |
| TimeCut.CutAllGroups | TrimSubs.py:583-595 | The output is grouped span by span. An event overlapping two spans appears once in each group. |
| TimeCut.CutAllPrefix | TrimSubs.py:583-595 | Output only grows from span to span. |
| Text.DecimalRoundTrip | TrimSubs.py:335 | `int(str(n)) == n` for numerals. |
| Text.LeadingZeros | TrimSubs.py:335 | Leading zeros do not change a numeral's value, as `int` reads it. |

## Left out

- Command line handling, file discovery, opening and writing files, byte order marks and encodings: each file is its list of lines.
- `resync` and `Trim.__repr__`: not part of this model.
- Floating point. The `{:.3f}` formatting, `float()` of a rate and `round()` are not modelled. Table entries are integer milliseconds, and v1 entries are symbolic.
- TimecodeV1.ParseRange: accepts any rate text. The `ValueError` that `float()` raises on a non-numeric rate is not modelled.
- TimecodeV1.AssumeRate: accepts any second word. The `ValueError` that `float()` raises on a non-numeric word is not modelled.
- TimecodeV1.ToV2: does not model the floating `offset` carried from range to range. Only whether the caller's offset is zero matters (the `0.000` entry and the `v2[-1]` failure).
- TimecodeV1.ToV2: a zero rate is not modelled. On it, `1000.0 / inter[2]` raises `ZeroDivisionError`, but the model treats rates as symbols and returns a table.
- TimecodeV1.TimecodeV1ToV2: `end` is an integer parameter. The default `end=None`, which makes `end > inters[-1][1]` raise a `TypeError`, is not modelled.
- The v1 branch of `frames2time` is not modelled. That covers reading the timecode header, the `Invalid timecode file` exit, and feeding a converted v1 table into the timecode mapping. `MapVfr` takes the v2 table as integers.
- FrameMapping.VfrTrimsExtrapolated: does not cover a run containing a range whose frame after last is beyond the extrapolated entry. For those runs, only the one-range facts of `VfrStep` and `VfrExtrapolates` are stated.
- FrameMapping.VfrOtcExtrapolated: has the same restriction as `VfrTrimsExtrapolated`.
- FrameMapping.MapVfr: the new v2 table is always computed, whether or not `otc` is given. Writing it is out of scope.
- FrameMapping.MapCfr: the time of a frame is a parameter. The file of `ms * i` entries that the constant-rate branch writes for `otc` is not modelled (floating point).
- Trims.Shift: a time shift holds its millisecond count rather than the `time_format` dictionary. `TimeFormat.TimeFormatDict` proves that the dictionary adds up to that count.
- TimeCut.TimeSubs: the subtitle events are values. `pysubs` (copying the file info, styles and fonts, and `shift`) is outside the model. The frame shift's conversion to milliseconds is a parameter, and the branch on `vfr` follows the kind of shift each `Trim` carries.
- Text.IsDigit: character classes, `\b`, `IGNORECASE` folding and `int()` accept only ASCII here. Python's Unicode digits and underscores in numerals are not modelled.
- Text.IsSpace: `\s` and `str.strip()` accept the ASCII white space Python counts: space, `\t` to `\r`, and `\x1c` to `\x1f`. Non-ASCII white space such as `\x85` and `\xa0` is not modelled.
- TrimParse.LineMatches: the label is matched as literal text, not as the regular expression the program builds from it.

## Findings

| source | as written | input that shows it | evidently intended | confidence | as-written member | corrected member |
|---|---|---|---|---|---|---|
| TrimSubs.py:406-407 | After each range, `new_lines[-1]` is read even when nothing has been written yet. This happens with no `{1}{1}` header and a first range that keeps no line, and it raises `IndexError`. | lines `["{350}{360}hi\n"]`, ranges `(100, 200), (300, 400)` | Skip the newline fix while the output is empty and go on cutting, writing `["{151}{161}hi\n"]` | not executed | MicroDvd.NothingWrittenExample | MicroDvd.SubSubsFixed |
