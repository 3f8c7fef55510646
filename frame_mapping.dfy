/**
 * `frames2time`: frame ranges turned into `Trim` records on the source
 * timeline, each carrying the shift that moves what it keeps onto the
 * output timeline, where the kept ranges follow one another without gaps.
 */
module FrameMapping {
  import opened Results
  import opened Seqs
  import opened Trims
  import opened TimeFormat

  // ---------------------------------------------------------------------
  // Constant frame rate
  // ---------------------------------------------------------------------

  /**
   * The frame shift of the `i`-th range: minus its distance from the end of
   * what the earlier ranges keep.
   */
  function CfrShift(ts: seq<FrameRange>, i: nat): int
    requires i < |ts|
  {
    KeptBefore(ts, i) - ts[i].start
  }

  /** The `Trim` the constant rate branch makes of range `i`. */
  function CfrTrim(ts: seq<FrameRange>, clock: int -> int, i: nat): Trim
    requires i < |ts|
  {
    Trim(clock(ts[i].start), clock(ts[i].end + 1), FrameShift(CfrShift(ts, i)))
  }

  /** The `Trim`s of the first `n` ranges. */
  function CfrTrims(ts: seq<FrameRange>, clock: int -> int, n: nat): (r: seq<Trim>)
    requires n <= |ts|
    ensures |r| == n
  {
    if n == 0 then [] else CfrTrims(ts, clock, n - 1) + [CfrTrim(ts, clock, n - 1)]
  }

  lemma {:induction false} CfrTrimsAt(ts: seq<FrameRange>, clock: int -> int, n: nat, i: nat)
    requires i < n <= |ts|
    ensures CfrTrims(ts, clock, n)[i] == CfrTrim(ts, clock, i)
    decreases n
  {
    if i < n - 1 {
      CfrTrimsAt(ts, clock, n - 1, i);
    }
  }

  /**
   * The constant rate branch. `clock(f)` is the time at which frame `f`
   * begins (`pysubs.Time(frame=f, fps=fps)`); it is a parameter here.
   * Every range becomes the span from its first frame to the frame after
   * its last one, with the frames kept so far as its output start.
   */
  method MapCfr(trims: seq<FrameRange>, clock: int -> int) returns (trimsTime: seq<Trim>)
    ensures |trimsTime| == |trims|
    ensures forall i :: 0 <= i < |trims| ==>
      trimsTime[i] == Trim(clock(trims[i].start), clock(trims[i].end + 1), FrameShift(CfrShift(trims, i)))
  {
    trimsTime := [];
    var prevEnd := 0;
    for i := 0 to |trims|
      invariant prevEnd == KeptBefore(trims, i)
      invariant trimsTime == CfrTrims(trims, clock, i)
    {
      var trim := trims[i];
      var gap := trim.start - prevEnd;
      trimsTime := trimsTime + [Trim(clock(trim.start), clock(trim.end + 1), FrameShift(-gap))];
      prevEnd := trim.end + 1 - gap;
    }
    forall i | 0 <= i < |trims|
      ensures trimsTime[i] == Trim(clock(trims[i].start), clock(trims[i].end + 1), FrameShift(CfrShift(trims, i)))
    {
      CfrTrimsAt(trims, clock, |trims|, i);
    }
  }

  /** No range keeps a negative number of frames. */
  predicate Counted(ts: seq<FrameRange>) {
    forall i :: 0 <= i < |ts| ==> Count(ts[i]) >= 0
  }

  /**
   * A shifted range starts where the previous one ends: the first and the
   * one-past-last frame of range `i` land on `KeptBefore(ts, i)` and
   * `KeptBefore(ts, i + 1)`, and a first range starting at frame 0 is not
   * moved.
   */
  lemma CfrContiguous(ts: seq<FrameRange>, i: nat)
    requires i < |ts|
    ensures ts[i].start + CfrShift(ts, i) == KeptBefore(ts, i)
    ensures ts[i].end + 1 + CfrShift(ts, i) == KeptBefore(ts, i + 1)
    ensures i == 0 && ts[0].start == 0 ==> CfrShift(ts, 0) == 0
  {
  }

  lemma {:induction false} KeptMonotone(ts: seq<FrameRange>, i: nat, j: nat)
    requires Counted(ts) && i <= j <= |ts|
    ensures KeptBefore(ts, i) <= KeptBefore(ts, j)
    decreases j
  {
    if i < j {
      KeptMonotone(ts, i, j - 1);
    }
  }

  /**
   * The shifted ranges tile `[0, total)`: they come in order without
   * overlapping, and every output frame below the total lies in one of them.
   */
  lemma {:induction false} CfrTiles(ts: seq<FrameRange>, g: int)
    requires Counted(ts) && 0 <= g < KeptBefore(ts, |ts|)
    ensures forall i, j :: 0 <= i <= j <= |ts| ==> KeptBefore(ts, i) <= KeptBefore(ts, j)
    ensures exists i :: 0 <= i < |ts| && KeptBefore(ts, i) <= g < KeptBefore(ts, i + 1)
  {
    forall i, j | 0 <= i <= j <= |ts| ensures KeptBefore(ts, i) <= KeptBefore(ts, j) {
      KeptMonotone(ts, i, j);
    }
    var i := KeptRangeOf(ts, |ts|, g);
  }

  /** The range whose image holds output frame `g`, among the first `n`. */
  lemma {:induction false} KeptRangeOf(ts: seq<FrameRange>, n: nat, g: int) returns (i: nat)
    requires n <= |ts| && 0 <= g < KeptBefore(ts, n)
    ensures i < n && KeptBefore(ts, i) <= g < KeptBefore(ts, i + 1)
  {
    if g < KeptBefore(ts, n - 1) {
      i := KeptRangeOf(ts, n - 1, g);
    } else {
      i := n - 1;
    }
  }

  // ---------------------------------------------------------------------
  // Timecode table
  // ---------------------------------------------------------------------

  /**
   * Why the timecode branch stops with an uncaught exception: a first frame
   * past the table, or a table too short to extrapolate from.
   */
  datatype MapError = FrameOutOfRange(frame: nat) | NoFrameDuration

  /**
   * What the timecode branch carries from one range to the next: the table
   * (it grows by extrapolation), `prev_end`, the `Trim`s so far and the
   * timestamps of the new table so far (`new_lines` without its header).
   */
  datatype VfrState = VfrState(table: seq<int>, prevEnd: int, trimsTime: seq<Trim>, otc: seq<int>)

  /** Before the first range: the new table holds `0.000` alone. */
  function VfrStart(table: seq<int>): VfrState {
    VfrState(table, 0, [], [0])
  }

  /** `[x - gap for x in tc[lo:hi]]` for bounds already normalised against `tc`. */
  function Entries(tc: seq<int>, lo: nat, hi: nat, gap: int): (r: seq<int>)
    requires hi <= |tc|
    ensures |r| == if lo < hi then hi - lo else 0
    decreases hi - lo
  {
    if lo < hi then [tc[lo] - gap] + Entries(tc, lo + 1, hi, gap) else []
  }

  /** Entry `k` is the table entry of frame `lo + k` moved back by `gap`. */
  lemma {:induction false} EntriesAt(tc: seq<int>, lo: nat, hi: nat, gap: int, k: nat)
    requires hi <= |tc| && lo + k < hi
    ensures Entries(tc, lo, hi, gap)[k] + gap == tc[lo + k]
    decreases k
  {
    if k > 0 {
      EntriesAt(tc, lo + 1, hi, gap, k - 1);
    }
  }

  /**
   * One range once its end time is known and the table is final for this
   * step: the span, the time shift `-gap`, the new `prev_end` and the
   * entries of frames `start + 1 .. end + 1` moved back by the gap.
   */
  function Emit(st: VfrState, t: FrameRange, table: seq<int>, startTime: int, endTime: int): (r: VfrState)
    ensures r.table == table
    ensures r.trimsTime == st.trimsTime + [Trim(startTime, endTime, TimeShift(st.prevEnd - startTime))]
    ensures r.prevEnd - st.prevEnd == endTime - startTime
    ensures r.otc == st.otc + Entries(table, PyIndex(t.start + 1, |table|), PyIndex(t.end + 2, |table|), startTime - st.prevEnd)
  {
    var gap := startTime - st.prevEnd;
    VfrState(table, endTime - gap, st.trimsTime + [Trim(startTime, endTime, TimeShift(-gap))],
             st.otc + Entries(table, PyIndex(t.start + 1, |table|), PyIndex(t.end + 2, |table|), gap))
  }

  /**
   * One range of the timecode branch. The end time is the entry after the
   * last frame; when there is none it is extrapolated from the last two
   * entries and appended to the table.
   */
  function VfrStep(st: VfrState, t: FrameRange): (r: Result<VfrState, MapError>)
    ensures r == Err(FrameOutOfRange(t.start)) <==> t.start >= |st.table|
    ensures r == Err(NoFrameDuration) <==>
      t.start < |st.table| && PyGet(st.table, t.end + 1).None? && |st.table| < 2
    ensures r.Ok? ==> |r.value.trimsTime| == |st.trimsTime| + 1 && r.value.trimsTime[..|st.trimsTime|] == st.trimsTime
  {
    if t.start >= |st.table| then Err(FrameOutOfRange(t.start))
    else match PyGet(st.table, t.end + 1) {
      case Some(endTime) => Ok(Emit(st, t, st.table, st.table[t.start], endTime))
      case None =>
        if |st.table| < 2 then Err(NoFrameDuration)
        else
          var endTime := 2 * st.table[|st.table| - 1] - st.table[|st.table| - 2];
          Ok(Emit(st, t, st.table + [endTime], st.table[t.start], endTime))
    }
  }

  /** The timecode branch over the ranges `ts`, from state `st`. */
  function VfrRun(st: VfrState, ts: seq<FrameRange>): (r: Result<VfrState, MapError>)
    ensures r.Ok? ==> |r.value.trimsTime| == |st.trimsTime| + |ts|
    decreases |ts|
  {
    if ts == [] then Ok(st)
    else match VfrStep(st, ts[0]) {
      case Err(e) => Err(e)
      case Ok(st') => VfrRun(st', ts[1..])
    }
  }

  /**
   * The body of the timecode loop for one range: the state after it, or
   * the exception it raises.
   */
  method MapRange(st: VfrState, trim: FrameRange) returns (r: Result<VfrState, MapError>)
    ensures r == VfrStep(st, trim)
  {
    var lines := st.table;
    if trim.start >= |lines| {
      return Err(FrameOutOfRange(trim.start));
    }
    var startTime := lines[trim.start];
    var endTime: int;
    var next := PyGet(lines, trim.end + 1);
    if next.Some? {
      endTime := next.value;
    } else {
      if |lines| < 2 {
        return Err(NoFrameDuration);
      }
      endTime := 2 * lines[|lines| - 1] - lines[|lines| - 2];
      lines := lines + [endTime];
    }
    var gap := startTime - st.prevEnd;
    var trimsTime := st.trimsTime + [Trim(startTime, endTime, TimeShift(-gap))];
    var prevEnd := endTime - gap;
    var newLines := st.otc + Entries(lines, PyIndex(trim.start + 1, |lines|), PyIndex(trim.end + 2, |lines|), gap);
    return Ok(VfrState(lines, prevEnd, trimsTime, newLines));
  }

  /**
   * The timecode branch over a table of timestamps (in milliseconds),
   * returning the `Trim`s and the new table it would write.
   */
  method MapVfr(trims: seq<FrameRange>, table: seq<int>) returns (r: Result<VfrState, MapError>)
    ensures r == VfrRun(VfrStart(table), trims)
  {
    var st := VfrStart(table);
    var i := 0;
    while i < |trims|
      invariant i <= |trims|
      invariant VfrRun(st, trims[i..]) == VfrRun(VfrStart(table), trims)
    {
      assert trims[i..][0] == trims[i] && trims[i..][1..] == trims[i + 1..];
      var next := MapRange(st, trims[i]);
      if next.Err? {
        return Err(next.error);
      }
      st := next.value;
      i := i + 1;
    }
    assert trims[i..] == [];
    return Ok(st);
  }

  /**
   * A range reaching past the table: its end time is the last entry plus
   * the duration of the last frame in the table, and that time is appended,
   * whatever the range's last frame is.
   */
  lemma VfrExtrapolates(st: VfrState, t: FrameRange)
    requires t.start < |st.table| && |st.table| >= 2 && t.end + 1 >= |st.table|
    ensures var n := |st.table|;
      var e := st.table[n - 1] + (st.table[n - 1] - st.table[n - 2]);
      VfrStep(st, t).Ok? && VfrStep(st, t).value.table == st.table + [e]
      && VfrStep(st, t).value.trimsTime[|st.trimsTime|].end == e
  {
  }

  /** Duration of frame `f` in table `tc`. */
  function FrameDur(tc: seq<int>, f: nat): int
    requires f + 1 < |tc|
  {
    tc[f + 1] - tc[f]
  }

  /** The frames a range keeps, in order. */
  function Frames(t: FrameRange): (r: seq<nat>)
    requires t.start <= t.end + 1
    ensures |r| == Count(t) && forall k :: 0 <= k < |r| ==> r[k] == t.start + k
  {
    seq(t.end + 1 - t.start, k requires 0 <= k < t.end + 1 - t.start => t.start + k)
  }

  /** Every range is well formed and its frame after last is in the table. */
  predicate InTable(tc: seq<int>, ts: seq<FrameRange>) {
    forall i :: 0 <= i < |ts| ==> ts[i].start <= ts[i].end + 1 && ts[i].end + 1 < |tc|
  }

  /** The kept frames of all ranges, in order. */
  function KeptFrames(tc: seq<int>, ts: seq<FrameRange>): (r: seq<nat>)
    requires InTable(tc, ts)
    decreases |ts|
  {
    if ts == [] then [] else Frames(ts[0]) + KeptFrames(tc, ts[1..])
  }

  /**
   * A timeline for the frames `fs`: it starts at 0 and every step lasts as
   * long as the corresponding frame lasts in `tc`.
   */
  predicate Timeline(tc: seq<int>, fs: seq<nat>, out: seq<int>) {
    |out| == |fs| + 1 && out[0] == 0
    && forall k {:trigger fs[k]} :: 0 <= k < |fs| ==> fs[k] + 1 < |tc| && out[k + 1] - out[k] == FrameDur(tc, fs[k])
  }

  /** Time kept by the first `i` ranges. */
  function KeptTime(tc: seq<int>, ts: seq<FrameRange>, i: nat): int
    requires InTable(tc, ts) && i <= |ts|
    decreases i
  {
    if i == 0 then 0 else RangeDur(tc, ts[0]) + KeptTime(tc, ts[1..], i - 1)
  }

  /** How long a range lasts in `tc`: from its first frame to the frame after its last. */
  function RangeDur(tc: seq<int>, t: FrameRange): int
    requires 0 <= t.end + 1 < |tc| && t.start < |tc|
  {
    tc[t.end + 1] - tc[t.start]
  }

  /** Appending one range's shifted entries extends the timeline by its frames. */
  lemma TimelineAppend(tc: seq<int>, fs: seq<nat>, out: seq<int>, t: FrameRange, gap: int)
    requires t.start <= t.end + 1 && t.end + 1 < |tc|
    requires Timeline(tc, fs, out) && out[|out| - 1] == tc[t.start] - gap
    ensures Timeline(tc, fs + Frames(t), out + Entries(tc, t.start + 1, t.end + 2, gap))
  {
    var block := Entries(tc, t.start + 1, t.end + 2, gap);
    var fs' := fs + Frames(t);
    var out' := out + block;
    forall k | 0 <= k < |fs'| ensures out'[k + 1] - out'[k] == FrameDur(tc, fs'[k]) {
      if k >= |fs| {
        var j := k - |fs|;
        assert fs'[k] == t.start + j;
        EntriesAt(tc, t.start + 1, t.end + 2, gap, j);
        assert out'[k + 1] == tc[t.start + j + 1] - gap;
        if j > 0 {
          EntriesAt(tc, t.start + 1, t.end + 2, gap, j - 1);
        }
      }
    }

  }

  /** The last entry a range adds is the time after its last frame, moved back by `gap`. */
  lemma EntriesLast(tc: seq<int>, out: seq<int>, t: FrameRange, gap: int)
    requires t.start <= t.end + 1 && t.end + 1 < |tc|
    requires out != [] && out[|out| - 1] == tc[t.start] - gap
    ensures var out' := out + Entries(tc, t.start + 1, t.end + 2, gap); out'[|out'| - 1] == tc[t.end + 1] - gap
  {
    var block := Entries(tc, t.start + 1, t.end + 2, gap);
    if t.start <= t.end {
      EntriesAt(tc, t.start + 1, t.end + 2, gap, t.end - t.start);
      assert (out + block)[|out + block| - 1] == block[|block| - 1];
    } else {
      assert block == [] && out + block == out;
    }
  }

  /** A range inside the table is mapped without extrapolating. */
  lemma StepInTable(st: VfrState, t: FrameRange)
    requires t.start <= t.end + 1 < |st.table|
    ensures VfrStep(st, t) == Ok(Emit(st, t, st.table, st.table[t.start], st.table[t.end + 1]))
  {
  }

  /** What a range inside the table adds to the state. */
  lemma EmitInTable(st: VfrState, t: FrameRange)
    requires t.start <= t.end + 1 < |st.table|
    ensures var tc := st.table;
      var st' := Emit(st, t, tc, tc[t.start], tc[t.end + 1]);
      var gap := tc[t.start] - st.prevEnd;
      st'.table == tc && st'.prevEnd == st.prevEnd + RangeDur(tc, t)
      && st'.trimsTime == st.trimsTime + [Trim(tc[t.start], tc[t.end + 1], TimeShift(-gap))]
      && st'.otc == st.otc + Entries(tc, t.start + 1, t.end + 2, gap)
  {
  }

  /** One step of the run over ranges whose first lies inside the table. */
  lemma RunInTable(st: VfrState, ts: seq<FrameRange>) returns (st': VfrState)
    requires ts != [] && ts[0].start <= ts[0].end + 1 < |st.table|
    ensures VfrRun(st, ts) == VfrRun(st', ts[1..])
    ensures var tc := st.table; var t := ts[0]; var gap := tc[t.start] - st.prevEnd;
      st'.table == tc && st'.prevEnd == st.prevEnd + RangeDur(tc, t)
      && st'.trimsTime == st.trimsTime + [Trim(tc[t.start], tc[t.end + 1], TimeShift(-gap))]
      && st'.otc == st.otc + Entries(tc, t.start + 1, t.end + 2, gap)
  {
    StepInTable(st, ts[0]);
    EmitInTable(st, ts[0]);
    st' := Emit(st, ts[0], st.table, st.table[ts[0].start], st.table[ts[0].end + 1]);
  }

  /**
   * The `Trim`s of ranges inside the table `tc` when `base` is the time
   * already kept: each spans its frames in `tc` and is shifted so that it
   * starts where the previous one ends.
   */
  function VfrTrims(tc: seq<int>, ts: seq<FrameRange>, base: int): (r: seq<Trim>)
    requires InTable(tc, ts)
    ensures |r| == |ts|
    decreases |ts|
  {
    if ts == [] then []
    else
      var t := ts[0];
      [Trim(tc[t.start], tc[t.end + 1], TimeShift(base - tc[t.start]))]
      + VfrTrims(tc, ts[1..], base + RangeDur(tc, t))
  }

  /** The new table entries of ranges inside `tc` when `base` is the time already kept. */
  function VfrEntries(tc: seq<int>, ts: seq<FrameRange>, base: int): seq<int>
    requires InTable(tc, ts)
    decreases |ts|
  {
    if ts == [] then []
    else
      var t := ts[0];
      Entries(tc, t.start + 1, t.end + 2, tc[t.start] - base) + VfrEntries(tc, ts[1..], base + RangeDur(tc, t))
  }

  /**
   * Over ranges inside the table the timecode branch never extrapolates and
   * never fails, and it produces exactly `VfrTrims` and `VfrEntries`.
   */
  lemma {:induction false} VfrInTable(st: VfrState, ts: seq<FrameRange>)
    requires InTable(st.table, ts)
    ensures VfrRun(st, ts).Ok?
    ensures VfrRun(st, ts).value.table == st.table
    ensures VfrRun(st, ts).value.trimsTime == st.trimsTime + VfrTrims(st.table, ts, st.prevEnd)
    decreases |ts|
  {
    var tc := st.table;
    if ts != [] {
      var t := ts[0];
      var gap := tc[t.start] - st.prevEnd;
      var base' := st.prevEnd + RangeDur(tc, t);
      var st' := RunInTable(st, ts);
      VfrInTable(st', ts[1..]);
      VfrTrimsCons(tc, ts, st.prevEnd);
      var x := [Trim(tc[t.start], tc[t.end + 1], TimeShift(-gap))];
      var rest := VfrTrims(tc, ts[1..], base');
      assert VfrTrims(tc, ts, st.prevEnd) == x + rest;
      AppendAssoc(st.trimsTime, x, rest);
      assert VfrRun(st', ts[1..]).value.trimsTime == (st.trimsTime + x) + rest;
    }
  }

  lemma {:induction false} VfrInTableOtc(st: VfrState, ts: seq<FrameRange>)
    requires InTable(st.table, ts)
    ensures VfrRun(st, ts).Ok?
    ensures VfrRun(st, ts).value.otc == st.otc + VfrEntries(st.table, ts, st.prevEnd)
    decreases |ts|
  {
    VfrInTable(st, ts);
    var tc := st.table;
    if ts != [] {
      var t := ts[0];
      var gap := tc[t.start] - st.prevEnd;
      var base' := st.prevEnd + RangeDur(tc, t);
      var st' := RunInTable(st, ts);
      VfrInTableOtc(st', ts[1..]);
      VfrEntriesCons(tc, ts, st.prevEnd);
      AppendAssoc(st.otc, Entries(tc, t.start + 1, t.end + 2, gap), VfrEntries(tc, ts[1..], base'));
    }
  }

  lemma VfrTrimsCons(tc: seq<int>, ts: seq<FrameRange>, base: int)
    requires InTable(tc, ts) && ts != []
    ensures VfrTrims(tc, ts, base) ==
      [Trim(tc[ts[0].start], tc[ts[0].end + 1], TimeShift(base - tc[ts[0].start]))]
      + VfrTrims(tc, ts[1..], base + RangeDur(tc, ts[0]))
  {
  }

  lemma VfrEntriesCons(tc: seq<int>, ts: seq<FrameRange>, base: int)
    requires InTable(tc, ts) && ts != []
    ensures VfrEntries(tc, ts, base) ==
      Entries(tc, ts[0].start + 1, ts[0].end + 2, tc[ts[0].start] - base) + VfrEntries(tc, ts[1..], base + RangeDur(tc, ts[0]))
  {
  }

  /**
   * Range `i` becomes the span from the entry of its first frame to the
   * entry after its last, shifted onto the time kept before it.
   */
  lemma {:induction false} VfrTrimsAt(tc: seq<int>, ts: seq<FrameRange>, base: int, i: nat)
    requires InTable(tc, ts) && i < |ts|
    ensures VfrTrims(tc, ts, base)[i] ==
      Trim(tc[ts[i].start], tc[ts[i].end + 1], TimeShift(base + KeptTime(tc, ts, i) - tc[ts[i].start]))
    decreases i
  {
    if i > 0 {
      VfrTrimsAt(tc, ts[1..], base + RangeDur(tc, ts[0]), i - 1);
      assert ts[1..][i - 1] == ts[i];
    }
  }

  /**
   * The entries continue a timeline of the frames `fs` with the kept
   * frames, each lasting as long as in `tc`.
   */
  lemma {:induction false} VfrEntriesTimeline(tc: seq<int>, ts: seq<FrameRange>, fs: seq<nat>, out: seq<int>)
    requires InTable(tc, ts)
    requires Timeline(tc, fs, out)
    ensures Timeline(tc, fs + KeptFrames(tc, ts), out + VfrEntries(tc, ts, out[|out| - 1]))
    decreases |ts|
  {
    if ts != [] {
      var t := ts[0];
      var base := out[|out| - 1];
      var gap := tc[t.start] - base;
      var e := Entries(tc, t.start + 1, t.end + 2, gap);
      var f := Frames(t);
      var out' := out + e;
      TimelineAppend(tc, fs, out, t, gap);
      EntriesLast(tc, out, t, gap);
      var base' := base + RangeDur(tc, t);
      assert out'[|out'| - 1] == base';
      VfrEntriesTimeline(tc, ts[1..], fs + f, out');
      KeptAndEntriesCons(tc, ts, fs, out);
      var fs2 := (fs + f) + KeptFrames(tc, ts[1..]);
      var out2 := out' + VfrEntries(tc, ts[1..], base');
      assert Timeline(tc, fs2, out2);
      assert fs2 == fs + KeptFrames(tc, ts);
      assert out2 == out + VfrEntries(tc, ts, base);
    }
  }

  /** How the frames and entries of the first range join those of the rest. */
  lemma KeptAndEntriesCons(tc: seq<int>, ts: seq<FrameRange>, fs: seq<nat>, out: seq<int>)
    requires InTable(tc, ts) && ts != [] && out != []
    ensures var t := ts[0]; var base := out[|out| - 1];
      && (fs + Frames(t)) + KeptFrames(tc, ts[1..]) == fs + KeptFrames(tc, ts)
      && (out + Entries(tc, t.start + 1, t.end + 2, tc[t.start] - base)) + VfrEntries(tc, ts[1..], base + RangeDur(tc, t))
         == out + VfrEntries(tc, ts, base)
  {
    var t := ts[0];
    var base := out[|out| - 1];
    VfrEntriesCons(tc, ts, base);
    AppendAssoc(fs, Frames(t), KeptFrames(tc, ts[1..]));
    AppendAssoc(out, Entries(tc, t.start + 1, t.end + 2, tc[t.start] - base), VfrEntries(tc, ts[1..], base + RangeDur(tc, t)));
  }

  /**
   * The timecode branch from the start, over ranges inside the table: the
   * `Trim`s are laid end to end from time 0.
   */
  lemma VfrTrimsFromStart(tc: seq<int>, ts: seq<FrameRange>)
    requires InTable(tc, ts)
    ensures VfrRun(VfrStart(tc), ts).Ok?
    ensures forall i :: 0 <= i < |ts| ==>
      (VfrRun(VfrStart(tc), ts).value.trimsTime[i] ==
       Trim(tc[ts[i].start], tc[ts[i].end + 1], TimeShift(KeptTime(tc, ts, i) - tc[ts[i].start])))
  {
    VfrInTable(VfrStart(tc), ts);
    forall i | 0 <= i < |ts|
      ensures VfrTrims(tc, ts, 0)[i] ==
        Trim(tc[ts[i].start], tc[ts[i].end + 1], TimeShift(KeptTime(tc, ts, i) - tc[ts[i].start]))
    {
      VfrTrimsAt(tc, ts, 0, i);
    }
  }

  /**
   * From the start, over ranges inside the table, the new table is the
   * timeline of the kept frames: every kept frame lasts as long as it did.
   */
  lemma VfrOtcFromStart(tc: seq<int>, ts: seq<FrameRange>)
    requires InTable(tc, ts)
    ensures VfrRun(VfrStart(tc), ts).Ok?
    ensures Timeline(tc, KeptFrames(tc, ts), VfrRun(VfrStart(tc), ts).value.otc)
  {
    VfrInTableOtc(VfrStart(tc), ts);
    VfrEntriesTimeline(tc, ts, [], [0]);
    assert [] + KeptFrames(tc, ts) == KeptFrames(tc, ts);
  }
  /**
   * The table with an entry appended for the end of its last frame,
   * extrapolated from the duration of the frame before it.
   */
  function Extended(tc: seq<int>): (r: seq<int>)
    requires |tc| >= 2
    ensures |r| == |tc| + 1 && r[..|tc|] == tc
    ensures r[|tc|] - tc[|tc| - 1] == tc[|tc| - 1] - tc[|tc| - 2]
  {
    tc + [2 * tc[|tc| - 1] - tc[|tc| - 2]]
  }

  /**
   * Every range is well formed and starts in the table, and its frame after
   * last is in the table or is the one extrapolated from it.
   */
  predicate InFrames(tc: seq<int>, ts: seq<FrameRange>) {
    forall i :: 0 <= i < |ts| ==> ts[i].start < |tc| && ts[i].start <= ts[i].end + 1 <= |tc|
  }

  /**
   * Two states of the timecode loop that agree on everything but the table,
   * where the second already holds the extrapolated entry.
   */
  predicate SameRun(tc: seq<int>, a: VfrState, b: VfrState)
    requires |tc| >= 2
  {
    b.table == Extended(tc) && (a.table == tc || a.table == b.table)
    && a.prevEnd == b.prevEnd && a.trimsTime == b.trimsTime && a.otc == b.otc
  }

  /** An appended entry does not change the entries before it. */
  lemma {:induction false} EntriesExtend(tc: seq<int>, x: int, lo: nat, hi: nat, gap: int)
    requires hi <= |tc|
    ensures Entries(tc + [x], lo, hi, gap) == Entries(tc, lo, hi, gap)
    decreases hi - lo
  {
    if lo < hi {
      EntriesExtend(tc, x, lo + 1, hi, gap);
    }
  }

  /**
   * One range over the table and over the extended table: both succeed
   * and agree; a range ending at the last frame extrapolates exactly the
   * entry the extended table holds.
   */
  lemma StepExtended(tc: seq<int>, a: VfrState, b: VfrState, t: FrameRange)
    requires |tc| >= 2 && SameRun(tc, a, b)
    requires t.start < |tc| && t.start <= t.end + 1 <= |tc|
    ensures VfrStep(a, t).Ok? && VfrStep(b, t).Ok?
    ensures SameRun(tc, VfrStep(a, t).value, VfrStep(b, t).value)
  {
    var e := Extended(tc);
    if a.table == b.table {
      assert a == b;
    } else if t.end + 1 < |tc| {
      assert e == tc + [e[|tc|]];
      EntriesExtend(tc, e[|tc|], t.start + 1, t.end + 2, tc[t.start] - a.prevEnd);
    } else {
      assert PyGet(e, t.end + 1) == Some(e[|tc|]);
    }
  }

  /**
   * The timecode branch over ranges in the table's frames gives the same
   * `Trim`s, `prev_end` and new table as over the extended table.
   */
  lemma {:induction false} RunExtended(tc: seq<int>, a: VfrState, b: VfrState, ts: seq<FrameRange>)
    requires |tc| >= 2 && SameRun(tc, a, b) && InFrames(tc, ts)
    ensures VfrRun(a, ts).Ok? && VfrRun(b, ts).Ok?
    ensures SameRun(tc, VfrRun(a, ts).value, VfrRun(b, ts).value)
    decreases |ts|
  {
    if ts != [] {
      StepExtended(tc, a, b, ts[0]);
      assert forall i :: 0 <= i < |ts| - 1 ==> ts[1..][i] == ts[i + 1];
      RunExtended(tc, VfrStep(a, ts[0]).value, VfrStep(b, ts[0]).value, ts[1..]);
    }
  }

  /**
   * From the start, over ranges that may end at the table's last frame:
   * the `Trim`s are laid end to end from time 0, the last frame lasting as
   * long as the frame before it.
   */
  lemma VfrTrimsExtrapolated(tc: seq<int>, ts: seq<FrameRange>)
    requires |tc| >= 2 && InFrames(tc, ts)
    ensures InTable(Extended(tc), ts) && VfrRun(VfrStart(tc), ts).Ok?
    ensures var e := Extended(tc);
      forall i :: 0 <= i < |ts| ==>
        (VfrRun(VfrStart(tc), ts).value.trimsTime[i] ==
         Trim(e[ts[i].start], e[ts[i].end + 1], TimeShift(KeptTime(e, ts, i) - e[ts[i].start])))
  {
    RunExtended(tc, VfrStart(tc), VfrStart(Extended(tc)), ts);
    VfrTrimsFromStart(Extended(tc), ts);
  }

  /**
   * From the start, over the same ranges, the new table is the timeline of
   * the kept frames in the extended table.
   */
  lemma VfrOtcExtrapolated(tc: seq<int>, ts: seq<FrameRange>)
    requires |tc| >= 2 && InFrames(tc, ts)
    ensures InTable(Extended(tc), ts) && VfrRun(VfrStart(tc), ts).Ok?
    ensures Timeline(Extended(tc), KeptFrames(Extended(tc), ts), VfrRun(VfrStart(tc), ts).value.otc)
  {
    RunExtended(tc, VfrStart(tc), VfrStart(Extended(tc)), ts);
    VfrOtcFromStart(Extended(tc), ts);
  }
}
