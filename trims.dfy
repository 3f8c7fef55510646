/** The values handed from one stage of the pipeline to the next. */
module Trims {

  /**
   * A `(start, end)` tuple of source frame numbers, both inclusive, as
   * produced from one `Trim(a, b)` call. Nothing guarantees `end >= start`:
   * `Trim(10, 0)` yields `(10, 9)`.
   */
  datatype FrameRange = FrameRange(start: nat, end: int)

  /**
   * The offset a `Trim` carries: `frame_shift`, a frame count (constant
   * rate), or `time_shift` (timecode table). The program stores the time
   * shift as the `time_format` dictionary of a millisecond count; the model
   * stores that count, which is what the dictionary adds up to
   * (`TimeFormat.TimeFormatDict`). Exactly one of the two is set on every
   * `Trim` the program builds.
   */
  datatype Shift = FrameShift(frames: int) | TimeShift(time: int)

  /**
   * The `Trim` record: the kept source span `[start, end)` in time units
   * and the shift that moves subtitle lines inside it onto the output
   * timeline. It is built once and only read afterwards.
   */
  datatype Trim = Trim(start: int, end: int, shift: Shift)

  /** How many frames a range keeps: `end + 1 - start` (negative when `end < start - 1`). */
  function Count(r: FrameRange): int {
    r.end + 1 - r.start
  }

  /** Frames kept by the first `i` ranges. */
  function KeptBefore(ts: seq<FrameRange>, i: nat): int
    requires i <= |ts|
  {
    if i == 0 then 0 else KeptBefore(ts, i - 1) + Count(ts[i - 1])
  }
}
