/**
 * `time_subs`: cutting a time-based subtitle track. Every event that
 * overlaps a kept span is copied once per such span, clipped to the span
 * and moved by the span's shift; the copies come out span by span, in
 * input order within a span.
 */
module TimeCut {
  import opened Trims

  /** A subtitle event: its start and end in milliseconds and everything else it carries. */
  datatype Event = Event(start: int, end: int, text: string)

  /**
   * The shift of a span in milliseconds. A time shift is already in
   * milliseconds; a frame shift is converted at the constant rate by
   * `frameMs` (what `line.shift(frame=…, fps=…)` does inside pysubs).
   */
  function Delta(s: Shift, frameMs: int -> int): int {
    match s
    case FrameShift(f) => frameMs(f)
    case TimeShift(ms) => ms
  }

  /** The strict overlap test: an event that only touches a boundary is dropped. */
  predicate Overlaps(e: Event, t: Trim) {
    e.end > t.start && e.start < t.end
  }

  /** The copy of `e` clipped to `[t.start, t.end]` and moved by `d`. */
  function Cut(e: Event, t: Trim, d: int): (r: Event)
    requires Overlaps(e, t)
    ensures t.start + d <= r.start && r.end <= t.end + d
    ensures t.start < t.end ==> r.start < t.end + d && r.end > t.start + d
    ensures r.text == e.text
    ensures e.start >= t.start ==> r.start == e.start + d
    ensures e.end <= t.end ==> r.end == e.end + d
    ensures r.start - d == (if e.start < t.start then t.start else e.start)
    ensures r.end - d == (if e.end > t.end then t.end else e.end)
  {
    var s := if e.start < t.start then t.start else e.start;
    var en := if e.end > t.end then t.end else e.end;
    Event(s + d, en + d, e.text)
  }

  /** The copies span `t` makes of the first `n` events. */
  function CutSpan(es: seq<Event>, t: Trim, d: int, n: nat): (r: seq<Event>)
    requires n <= |es|
    ensures |r| <= n
  {
    if n == 0 then []
    else if Overlaps(es[n - 1], t) then CutSpan(es, t, d, n - 1) + [Cut(es[n - 1], t, d)]
    else CutSpan(es, t, d, n - 1)
  }

  /** The output of the first `n` spans. */
  function CutAll(ts: seq<Trim>, es: seq<Event>, frameMs: int -> int, n: nat): seq<Event>
    requires n <= |ts|
  {
    if n == 0 then []
    else CutAll(ts, es, frameMs, n - 1) + CutSpan(es, ts[n - 1], Delta(ts[n - 1].shift, frameMs), |es|)
  }

  /**
   * The cutting loop: for every span, every event in order, kept, clipped
   * and shifted as above. The events themselves are values and are left
   * as they were.
   */
  method TimeSubs(trims: seq<Trim>, events: seq<Event>, frameMs: int -> int) returns (newEvents: seq<Event>)
    ensures newEvents == CutAll(trims, events, frameMs, |trims|)
  {
    newEvents := [];
    for i := 0 to |trims|
      invariant newEvents == CutAll(trims, events, frameMs, i)
    {
      var trim := trims[i];
      var d := Delta(trim.shift, frameMs);
      ghost var before := newEvents;
      for j := 0 to |events|
        invariant newEvents == before + CutSpan(events, trim, d, j)
      {
        var line := events[j];
        if line.end > trim.start && line.start < trim.end {
          var start := line.start;
          var end := line.end;
          if start < trim.start {
            start := trim.start;
          }
          if end > trim.end {
            end := trim.end;
          }
          newEvents := newEvents + [Event(start + d, end + d, line.text)];
        }
      }
    }
  }

  /** A span's copies are exactly the cuts of the events that overlap it. */
  lemma {:induction false} CutSpanMembers(es: seq<Event>, t: Trim, d: int, n: nat, x: Event)
    requires n <= |es|
    ensures x in CutSpan(es, t, d, n) <==> exists j :: 0 <= j < n && Overlaps(es[j], t) && x == Cut(es[j], t, d)
  {
    if n > 0 {
      CutSpanMembers(es, t, d, n - 1, x);
    }
  }

  /** How many events overlap span `t` among the first `n`. */
  function Overlapping(es: seq<Event>, t: Trim, n: nat): (c: nat)
    requires n <= |es|
    ensures c <= n
  {
    if n == 0 then 0 else Overlapping(es, t, n - 1) + (if Overlaps(es[n - 1], t) then 1 else 0)
  }

  /** One copy per overlapping event, no more and no fewer. */
  lemma {:induction false} CutSpanCount(es: seq<Event>, t: Trim, d: int, n: nat)
    requires n <= |es|
    ensures |CutSpan(es, t, d, n)| == Overlapping(es, t, n)
  {
    if n > 0 {
      CutSpanCount(es, t, d, n - 1);
    }
  }

  /**
   * Within a span the copies keep the input order: the copy of the `j`-th
   * event comes after the copies of the overlapping events before it.
   */
  lemma {:induction false} CutSpanOrder(es: seq<Event>, t: Trim, d: int, n: nat, j: nat)
    requires j < n <= |es| && Overlaps(es[j], t)
    ensures Overlapping(es, t, j) < |CutSpan(es, t, d, n)|
    ensures CutSpan(es, t, d, n)[Overlapping(es, t, j)] == Cut(es[j], t, d)
  {
    if j == n - 1 {
      CutSpanCount(es, t, d, n - 1);
    } else {
      CutSpanOrder(es, t, d, n - 1, j);
    }
  }

  /** Every copy of a span lies inside the span once moved. */
  lemma {:induction false} CutSpanBounds(es: seq<Event>, t: Trim, d: int, n: nat)
    requires n <= |es|
    ensures forall k :: 0 <= k < |CutSpan(es, t, d, n)| ==>
      t.start + d <= CutSpan(es, t, d, n)[k].start && CutSpan(es, t, d, n)[k].end <= t.end + d
  {
    if n > 0 {
      CutSpanBounds(es, t, d, n - 1);
    }
  }

  /**
   * The output is the copies of span 0, then those of span 1, and so on:
   * an event that overlaps two spans is copied twice, once in each group.
   */
  lemma {:induction false} CutAllGroups(ts: seq<Trim>, es: seq<Event>, frameMs: int -> int, i: nat)
    requires i < |ts|
    ensures |CutAll(ts, es, frameMs, i + 1)| <= |CutAll(ts, es, frameMs, |ts|)|
    ensures CutAll(ts, es, frameMs, |ts|)[|CutAll(ts, es, frameMs, i)|..|CutAll(ts, es, frameMs, i + 1)|]
         == CutSpan(es, ts[i], Delta(ts[i].shift, frameMs), |es|)
  {
    CutAllPrefix(ts, es, frameMs, i + 1, |ts|);
    var all := CutAll(ts, es, frameMs, |ts|);
    var pre := CutAll(ts, es, frameMs, i);
    var span := CutSpan(es, ts[i], Delta(ts[i].shift, frameMs), |es|);
    assert CutAll(ts, es, frameMs, i + 1) == pre + span;
    assert all[..|pre| + |span|] == pre + span;
  }

  /** The output of the first `m` spans begins with the output of the first `n`. */
  lemma {:induction false} CutAllPrefix(ts: seq<Trim>, es: seq<Event>, frameMs: int -> int, n: nat, m: nat)
    requires n <= m <= |ts|
    ensures CutAll(ts, es, frameMs, n) <= CutAll(ts, es, frameMs, m)
    decreases m
  {
    if n < m {
      CutAllPrefix(ts, es, frameMs, n, m - 1);
    }
  }
}
