/** `join_trims`: merge ranges where one starts on the frame after the previous one ends. */
module TrimJoin {
  import opened Trims
  import opened Seqs

  predicate Adjacent(a: FrameRange, b: FrameRange) {
    b.start - a.end == 1
  }

  /** No two consecutive ranges are adjacent. */
  predicate NoAdjacent(ts: seq<FrameRange>) {
    forall i :: 0 <= i < |ts| - 1 ==> !Adjacent(ts[i], ts[i + 1])
  }

  /** No range is reversed by more than one frame: `end >= start - 1` (an empty range is allowed). */
  predicate WellFormed(ts: seq<FrameRange>) {
    forall i :: 0 <= i < |ts| ==> ts[i].end >= ts[i].start - 1
  }

  predicate Covers(ts: seq<FrameRange>, f: int) {
    exists i :: 0 <= i < |ts| && ts[i].start <= f <= ts[i].end
  }

  /** The sequence with the first range's start replaced by `p`. */
  function WithStart(ts: seq<FrameRange>, p: nat): (r: seq<FrameRange>)
    requires |ts| > 0
  {
    [FrameRange(p, ts[0].end)] + ts[1..]
  }

  /**
   * Maximal runs of adjacent ranges collapsed into one range each. The
   * result keeps the first start and the last end and is never longer
   * than its input.
   */
  function Join(ts: seq<FrameRange>): (r: seq<FrameRange>)
    ensures |r| <= |ts|
    ensures |ts| > 0 <==> |r| > 0
    ensures |ts| > 0 ==> r[0].start == ts[0].start && r[|r| - 1].end == ts[|ts| - 1].end
  {
    if |ts| <= 1 then ts
    else
      var rest := Join(ts[1..]);
      if Adjacent(ts[0], ts[1]) then [FrameRange(ts[0].start, rest[0].end)] + rest[1..]
      else [ts[0]] + rest
  }

  /** No two consecutive ranges of a joined sequence are adjacent. */
  lemma {:induction false} JoinNoAdjacent(ts: seq<FrameRange>)
    ensures NoAdjacent(Join(ts))
  {
    if |ts| > 1 {
      JoinNoAdjacent(ts[1..]);
      var rest := Join(ts[1..]);
      var r := Join(ts);
      if Adjacent(ts[0], ts[1]) {
        assert r[1..] == rest[1..];
        forall i | 0 <= i < |r| - 1 ensures !Adjacent(r[i], r[i + 1]) {
          if i > 0 {
            assert r[i] == rest[i] && r[i + 1] == rest[i + 1];
          }
        }
      } else {
        assert r[1..] == rest;
        forall i | 0 <= i < |r| - 1 ensures !Adjacent(r[i], r[i + 1]) {
          if i > 0 {
            assert r[i] == rest[i - 1] && r[i + 1] == rest[i];
          }
        }
      }
    }
  }

  /** Joining commutes with replacing the first start. */
  lemma {:induction false} JoinWithStart(ts: seq<FrameRange>, p: nat)
    requires |ts| > 0
    ensures Join(WithStart(ts, p)) == WithStart(Join(ts), p)
  {
    var w := WithStart(ts, p);
    if |ts| > 1 {
      assert w[1..] == ts[1..] && w[1] == ts[1] && w[0] == FrameRange(p, ts[0].end);
      var rest := Join(ts[1..]);
      if Adjacent(ts[0], ts[1]) {
        assert Join(w) == [FrameRange(p, rest[0].end)] + rest[1..];
        assert Join(ts) == [FrameRange(ts[0].start, rest[0].end)] + rest[1..];
      } else {
        assert Join(w) == [w[0]] + rest;
        assert Join(ts) == [ts[0]] + rest;
      }
    }
  }

  /** The open run, starting at `p`, closes at the end of the current range. */
  lemma JoinCloseStep(ts: seq<FrameRange>, i: nat, done: seq<FrameRange>, p: nat)
    requires i + 1 < |ts| && !Adjacent(ts[i], ts[i + 1])
    requires done + Join(WithStart(ts[i..], p)) == Join(ts)
    ensures (done + [FrameRange(p, ts[i].end)]) + Join(WithStart(ts[i + 1..], ts[i + 1].start)) == Join(ts)
  {
    var u := ts[i..];
    assert u[1..] == ts[i + 1..];
    JoinClose(u, p);
    assert WithStart(ts[i + 1..], ts[i + 1].start) == ts[i + 1..];
    AppendAssoc(done, [FrameRange(p, ts[i].end)], Join(ts[i + 1..]));
  }

  /** A run that is not adjacent to the next range is a range of its own. */
  lemma JoinClose(u: seq<FrameRange>, p: nat)
    requires |u| > 1 && !Adjacent(u[0], u[1])
    ensures Join(WithStart(u, p)) == [FrameRange(p, u[0].end)] + Join(u[1..])
  {
    var w := WithStart(u, p);
    assert w[1..] == u[1..] && w[1] == u[1];
  }

  /** The open run, starting at `p`, absorbs the next range. */
  lemma JoinExtendStep(ts: seq<FrameRange>, i: nat, done: seq<FrameRange>, p: nat)
    requires i + 1 < |ts| && Adjacent(ts[i], ts[i + 1])
    requires done + Join(WithStart(ts[i..], p)) == Join(ts)
    ensures done + Join(WithStart(ts[i + 1..], p)) == Join(ts)
  {
    var u := ts[i..];
    assert u[1..] == ts[i + 1..];
    JoinWithStart(u, p);
    JoinWithStart(u[1..], p);
    var rest := Join(u[1..]);
    assert Join(u) == [FrameRange(u[0].start, rest[0].end)] + rest[1..];
  }

  /** The last range closes the open run with its own end. */
  lemma JoinLastStep(ts: seq<FrameRange>, done: seq<FrameRange>, p: nat)
    requires |ts| > 0
    requires done + Join(WithStart(ts[|ts| - 1..], p)) == Join(ts)
    ensures done + [FrameRange(p, ts[|ts| - 1].end)] == Join(ts)
  {
    assert WithStart(ts[|ts| - 1..], p) == [FrameRange(p, ts[|ts| - 1].end)];
  }

  /**
   * The loop of `join_trims`: `prev` is the start of the run being built
   * (-1 when none is open); reaching the last range, where the source's
   * `trims[i+1]` raises IndexError, closes the run with the last end.
   */
  method JoinTrims(trims: seq<FrameRange>) returns (newTrims: seq<FrameRange>)
    ensures newTrims == Join(trims)
  {
    newTrims := [];
    var prev: int := -1;
    var i := 0;
    if trims != [] {
      assert WithStart(trims[0..], trims[0].start) == trims;
    }
    while i < |trims|
      invariant i < |trims| || trims == []
      invariant prev >= -1
      invariant trims == [] ==> newTrims == []
      invariant i < |trims| ==>
        newTrims + Join(WithStart(trims[i..], if prev == -1 then trims[i].start else prev)) == Join(trims)
    {
      var trim := trims[i];
      if prev == -1 {
        prev := trim.start;
      }
      if i + 1 == |trims| {
        JoinLastStep(trims, newTrims, prev);
        newTrims := newTrims + [FrameRange(prev, trims[|trims| - 1].end)];
        break;
      }
      if trims[i + 1].start - trim.end != 1 {
        JoinCloseStep(trims, i, newTrims, prev);
        newTrims := newTrims + [FrameRange(prev, trim.end)];
        prev := -1;
      } else {
        JoinExtendStep(trims, i, newTrims, prev);
      }
      i := i + 1;
    }
  }

  /** A sequence without adjacent ranges is left as it is. */
  lemma {:induction false} JoinFixpoint(ts: seq<FrameRange>)
    requires NoAdjacent(ts)
    ensures Join(ts) == ts
  {
    if |ts| > 1 {
      assert !Adjacent(ts[0], ts[1]);
      JoinFixpoint(ts[1..]);
      assert [ts[0]] + ts[1..] == ts;
    }
  }

  /** Joining twice is joining once. */
  lemma JoinIdempotent(ts: seq<FrameRange>)
    ensures Join(Join(ts)) == Join(ts)
  {
    JoinNoAdjacent(ts);
    JoinFixpoint(Join(ts));
  }

  lemma CoversCons(x: FrameRange, rest: seq<FrameRange>, f: int)
    ensures Covers([x] + rest, f) <==> (x.start <= f <= x.end || Covers(rest, f))
  {
    var s := [x] + rest;
    if Covers(rest, f) {
      var j :| 0 <= j < |rest| && rest[j].start <= f <= rest[j].end;
      assert s[j + 1] == rest[j];
    }
    if Covers(s, f) && !(x.start <= f <= x.end) {
      var j :| 0 <= j < |s| && s[j].start <= f <= s[j].end;
      assert rest[j - 1] == s[j];
    }
  }

  /** Two adjacent ranges that are not reversed cover what their merge covers. */
  lemma CoversMerge(a: FrameRange, b: FrameRange, tail: seq<FrameRange>, f: int)
    requires Adjacent(a, b) && a.end >= a.start - 1 && b.end >= b.start - 1
    ensures Covers([FrameRange(a.start, b.end)] + tail, f) <==> Covers([a] + ([b] + tail), f)
  {
    CoversCons(FrameRange(a.start, b.end), tail, f);
    CoversCons(a, [b] + tail, f);
    CoversCons(b, tail, f);
  }

  /** Joining ranges that are not reversed gives ranges that are not reversed. */
  lemma {:induction false} JoinWellFormed(ts: seq<FrameRange>)
    requires WellFormed(ts)
    ensures WellFormed(Join(ts))
  {
    if |ts| > 1 {
      JoinWellFormed(ts[1..]);
      var rest := Join(ts[1..]);
      var r := Join(ts);
      if Adjacent(ts[0], ts[1]) {
        assert rest[0].end >= rest[0].start - 1;
        assert r[1..] == rest[1..];
        forall i | 0 <= i < |r| ensures r[i].end >= r[i].start - 1 {
          if i > 0 {
            assert r[i] == rest[i];
          }
        }
      } else {
        assert r[1..] == rest;
        forall i | 0 <= i < |r| ensures r[i].end >= r[i].start - 1 {
          if i > 0 {
            assert r[i] == rest[i - 1];
          }
        }
      }
    }
  }

  /** On ranges that are not reversed, joining keeps exactly the same frames. */
  lemma {:induction false} JoinCovers(ts: seq<FrameRange>, f: int)
    requires WellFormed(ts)
    ensures Covers(Join(ts), f) <==> Covers(ts, f)
  {
    if |ts| > 1 {
      var rest := Join(ts[1..]);
      JoinCovers(ts[1..], f);
      JoinWellFormed(ts[1..]);
      assert ts == [ts[0]] + ts[1..];
      CoversCons(ts[0], ts[1..], f);
      if Adjacent(ts[0], ts[1]) {
        assert rest[0].end >= rest[0].start - 1;
        assert Join(ts) == [FrameRange(ts[0].start, rest[0].end)] + rest[1..];
        assert rest == [rest[0]] + rest[1..];
        CoversMerge(ts[0], rest[0], rest[1..], f);
        CoversCons(ts[0], rest, f);
      } else {
        assert Join(ts) == [ts[0]] + rest;
        CoversCons(ts[0], rest, f);
      }
    }
  }
}
