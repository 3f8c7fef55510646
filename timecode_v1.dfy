/**
 * `timecode_v1_to_v2`: a v1 timecode file (an optional `Assume <fps>` line,
 * then `first,last,fps` range lines) turned into a v2 table with one entry
 * per frame. The declared ranges are completed with ranges at the default
 * rate before, between and after them; then every frame of every range
 * gets an entry. Entry values are floating point (`1000 / fps` per frame)
 * and are left symbolic: an entry names its range and its place in it.
 */
module TimecodeV1 {
  import opened Results
  import opened Text

  /** A frame rate as written: the default of the conversion, or the text of a field. */
  datatype Rate = DefaultRate | RateText(text: string)

  /** `[first, last, fps]`: frames `first..last`, both inclusive, at rate `fps`. */
  datatype Interval = Interval(first: int, last: int, rate: Rate)

  /** A v2 entry: the opening `0.000`, or the time of frame `i` (from 1) of range `range` of the filled list. */
  datatype Entry = Origin | Tick(range: nat, i: nat)

  /** Why the conversion stops with an uncaught exception. */
  datatype V1Error =
    | BadRange(line: nat) // a range line `int` or an index rejects (index into the lines)
    | NoRanges            // `inters[0]` with no range line
    | NoEntries           // `v2[-1]` while no entry has been written

  // ---------------------------------------------------------------------
  // Text
  // ---------------------------------------------------------------------

  /** White space removed at the start. */
  function StripStart(s: string): (r: string)
    ensures |r| <= |s|
    ensures r != [] ==> !IsSpace(r[0])
  {
    if |s| > 0 && IsSpace(s[0]) then StripStart(s[1..]) else s
  }

  /** White space removed at the end. */
  function StripEnd(s: string): string {
    if |s| > 0 && IsSpace(s[|s| - 1]) then StripEnd(s[..|s| - 1]) else s
  }

  /** `str.strip()` */
  function Strip(s: string): string {
    StripEnd(StripStart(s))
  }

  /** A string with no white space at either end is its own strip. */
  lemma StripNothing(s: string)
    requires s != [] ==> !IsSpace(s[0]) && !IsSpace(s[|s| - 1])
    ensures Strip(s) == s
  {
  }

  /** `int(s)`: surrounding white space, an optional sign, then decimal digits. */
  function ParseInt(s: string): Option<int> {
    var t := Strip(s);
    if |t| > 0 && (t[0] == '-' || t[0] == '+') then
      if |t| > 1 && AllDigits(t[1..]) then Some(if t[0] == '-' then -(DigitsValue(t[1..]) as int) else DigitsValue(t[1..]))
      else None
    else if |t| > 0 && AllDigits(t) then Some(DigitsValue(t))
    else None
  }

  /** `int` reads back what `str` writes. */
  lemma ParseIntRoundTrip(n: int)
    ensures ParseInt(IntToString(n)) == Some(n)
  {
    if n < 0 {
      ParseIntMinus(IntToString(n), -n);
    } else {
      ParseIntDigits(IntToString(n), n);
    }
  }

  /** A numeral without a sign reads as its value. */
  lemma ParseIntDigits(s: string, n: nat)
    requires s == Decimal(n)
    ensures ParseInt(s) == Some(n)
  {
    DecimalRoundTrip(n);
    StripNothing(s);
  }

  /** A minus sign and a numeral read as the value negated. */
  lemma ParseIntMinus(s: string, n: nat)
    requires s == "-" + Decimal(n)
    ensures ParseInt(s) == Some(-(n as int))
  {
    DecimalRoundTrip(n);
    assert s[1..] == Decimal(n);
    StripNothing(s);
  }

  /** `s.split(',')` */
  function SplitComma(s: string): (r: seq<string>)
    ensures |r| >= 1
  {
    if |s| == 0 then [""]
    else
      var rest := SplitComma(s[1..]);
      if s[0] == ',' then [""] + rest else [[s[0]] + rest[0]] + rest[1..]
  }

  /** `','.join(parts)` */
  function JoinComma(parts: seq<string>): string
    requires |parts| >= 1
  {
    if |parts| == 1 then parts[0] else parts[0] + "," + JoinComma(parts[1..])
  }

  predicate NoComma(parts: seq<string>) {
    forall k :: 0 <= k < |parts| ==> ',' !in parts[k]
  }

  /** Splitting loses nothing: the pieces joined with commas give the string back. */
  lemma {:induction false} SplitJoin(s: string)
    ensures NoComma(SplitComma(s))
    ensures JoinComma(SplitComma(s)) == s
  {
    if |s| > 0 {
      SplitJoin(s[1..]);
      var rest := SplitComma(s[1..]);
      if s[0] == ',' {
        assert ([""] + rest)[1..] == rest;
      } else {
        var r := [[s[0]] + rest[0]] + rest[1..];
        assert r[1..] == rest[1..];
        forall k | 0 <= k < |r| ensures ',' !in r[k] {
          if k > 0 {
            assert r[k] == rest[k];
          }
        }
        if |rest| > 1 {
          assert rest == [rest[0]] + rest[1..];
          assert JoinComma(rest) == rest[0] + "," + JoinComma(rest[1..]);
        }
        assert s == [s[0]] + s[1..];
      }
    }
  }

  /** Joining pieces without commas and splitting again gives the pieces back. */
  lemma {:induction false} JoinSplit(parts: seq<string>)
    requires |parts| >= 1 && NoComma(parts)
    ensures SplitComma(JoinComma(parts)) == parts
    decreases |parts|, |parts[0]|
  {
    var p := parts[0];
    if |p| > 0 {
      var q := [p[1..]] + parts[1..];
      assert q[1..] == parts[1..];
      forall k | 0 <= k < |q| ensures ',' !in q[k] {
        if k == 0 {
          assert forall c :: c in p[1..] ==> c in p;
        } else {
          assert q[k] == parts[k];
        }
      }
      JoinSplit(q);
      assert p[0] != ',' by {
        assert p[0] in p;
      }
      assert JoinComma(parts)[1..] == JoinComma(q);
      assert p == [p[0]] + p[1..];
      assert [[p[0]] + p[1..]] + parts[1..] == parts;
    } else if |parts| > 1 {
      var rest := parts[1..];
      forall k | 0 <= k < |rest| ensures ',' !in rest[k] {
        assert rest[k] == parts[k + 1];
      }
      JoinSplit(rest);
      assert JoinComma(parts)[1..] == JoinComma(rest);
      assert [""] + rest == parts;
    }
  }

  /** The length of the run of non-space characters `s` starts with. */
  function WordEnd(s: string): (n: nat)
    ensures n <= |s|
    ensures |s| > 0 && !IsSpace(s[0]) ==> n >= 1
  {
    if |s| > 0 && !IsSpace(s[0]) then 1 + WordEnd(s[1..]) else 0
  }

  /** `s.split()`: the runs of non-space characters. */
  function Words(s: string): (r: seq<string>)
    decreases |s|
  {
    var t := StripStart(s);
    if t == [] then [] else [t[..WordEnd(t)]] + Words(t[WordEnd(t)..])
  }

  // ---------------------------------------------------------------------
  // Reading the file
  // ---------------------------------------------------------------------

  /**
   * The assume line: a first line of at least two words. Any such line is
   * taken for it, and its second word is the default rate; otherwise (the
   * `IndexError`) there is none.
   */
  function AssumeRate(lines: seq<string>): (r: Option<string>)
    ensures r.Some? <==> |lines| > 0 && |Words(lines[0])| >= 2
  {
    if |lines| > 0 && |Words(lines[0])| >= 2 then Some(Words(lines[0])[1]) else None
  }

  /** The rate of the filler ranges. */
  function DefaultOf(lines: seq<string>): Rate {
    match AssumeRate(lines)
    case Some(w) => RateText(w)
    case None => DefaultRate
  }

  /** `[int(f[0]), int(f[1]), float(f[2])]` of the stripped line split on commas. */
  function ParseRange(line: string): Option<Interval> {
    var f := SplitComma(Strip(line));
    if |f| < 3 then None
    else match (ParseInt(f[0]), ParseInt(f[1]))
      case (Some(a), Some(b)) => Some(Interval(a, b, RateText(f[2])))
      case _ => None
  }

  /** A range written as `first,last,fps` reads back as that range. */
  lemma ParseRangeRoundTrip(first: int, last: int, fps: string)
    requires ',' !in fps && (fps != [] ==> !IsSpace(fps[|fps| - 1]))
    ensures ParseRange(IntToString(first) + "," + IntToString(last) + "," + fps) == Some(Interval(first, last, RateText(fps)))
  {
    var a := IntToString(first);
    var b := IntToString(last);
    var line := a + "," + b + "," + fps;
    assert ',' !in a && ',' !in b by {
      assert a == (if first < 0 then "-" else "") + Decimal(if first < 0 then -first else first);
      assert b == (if last < 0 then "-" else "") + Decimal(if last < 0 then -last else last);
    }
    assert line[0] == a[0];
    StripNothing(line);
    var parts := [a, b, fps];
    assert NoComma(parts);
    assert JoinComma(parts) == line by {
      assert JoinComma(parts[1..]) == b + "," + fps;
    }
    JoinSplit(parts);
    ParseIntRoundTrip(first);
    ParseIntRoundTrip(last);
  }

  /** The reading of each of the lines `skip .. skip + n - 1`. */
  function Readings(lines: seq<string>, skip: nat, n: nat): (p: seq<Option<Interval>>)
    requires skip + n <= |lines|
    ensures |p| == n && forall k :: 0 <= k < n ==> p[k] == ParseRange(lines[skip + k])
  {
    seq(n, k requires 0 <= k < n => ParseRange(lines[skip + k]))
  }

  /**
   * The first `n` readings collected into a list, or the first line that
   * does not read, counted from the start of the file (`skip` lines precede
   * the readings).
   */
  function Collect(p: seq<Option<Interval>>, skip: nat, n: nat): (r: Result<seq<Interval>, V1Error>)
    requires n <= |p|
    ensures r.Ok? ==> |r.value| == n
  {
    if n == 0 then Ok([])
    else match Collect(p, skip, n - 1)
      case Err(e) => Err(e)
      case Ok(rs) =>
        match p[n - 1]
        case None => Err(BadRange(skip + n - 1))
        case Some(iv) => Ok(rs + [iv])
  }

  /** The comprehension over the range lines: every line read, or the first one that does not read. */
  function ParseRanges(lines: seq<string>, skip: nat, n: nat): (r: Result<seq<Interval>, V1Error>)
    requires skip + n <= |lines|
    ensures r.Ok? ==> |r.value| == n
  {
    Collect(Readings(lines, skip, n), skip, n)
  }

  /** Every collected range is its reading. */
  lemma {:induction false} CollectAt(p: seq<Option<Interval>>, skip: nat, n: nat, k: nat)
    requires n <= |p| && Collect(p, skip, n).Ok? && k < n
    ensures p[k] == Some(Collect(p, skip, n).value[k])
  {
    if k < n - 1 {
      CollectAt(p, skip, n - 1, k);
    }
  }

  /** A failure names the first reading that is missing. */
  lemma {:induction false} CollectErr(p: seq<Option<Interval>>, skip: nat, n: nat)
    requires n <= |p| && Collect(p, skip, n).Err?
    ensures var e := Collect(p, skip, n).error;
      e.BadRange? && skip <= e.line < skip + n && p[e.line - skip].None?
      && forall q :: 0 <= q < e.line - skip ==> p[q].Some?
  {
    if Collect(p, skip, n - 1).Err? {
      CollectErr(p, skip, n - 1);
    } else {
      forall q | 0 <= q < n - 1 ensures p[q].Some? {
        CollectAt(p, skip, n - 1, q);
      }
    }
  }

  /** Every range read is the reading of its line. */
  lemma ParseRangesAt(lines: seq<string>, skip: nat, n: nat, k: nat)
    requires skip + n <= |lines| && ParseRanges(lines, skip, n).Ok? && k < n
    ensures ParseRange(lines[skip + k]) == Some(ParseRanges(lines, skip, n).value[k])
  {
    CollectAt(Readings(lines, skip, n), skip, n, k);
  }

  /** The reported line is the first one that does not read. */
  lemma ParseRangesErr(lines: seq<string>, skip: nat, n: nat)
    requires skip + n <= |lines| && ParseRanges(lines, skip, n).Err?
    ensures var e := ParseRanges(lines, skip, n).error;
      e.BadRange? && skip <= e.line < skip + n && ParseRange(lines[e.line]).None?
      && forall q :: skip <= q < e.line ==> ParseRange(lines[q]).Some?
  {
    var p := Readings(lines, skip, n);
    CollectErr(p, skip, n);
    var e := Collect(p, skip, n).error;
    assert p[e.line - skip] == ParseRange(lines[e.line]);
    forall q | skip <= q < e.line ensures ParseRange(lines[q]).Some? {
      assert p[q - skip] == ParseRange(lines[q]);
    }
  }

  // ---------------------------------------------------------------------
  // Filling
  // ---------------------------------------------------------------------

  /** The filler before the first range: frames from `start` up to it, when it starts later. */
  function Before(inters: seq<Interval>, start: int, dflt: Rate): seq<Interval>
    requires |inters| > 0
  {
    if start < inters[0].first then [Interval(start, inters[0].first - 1, dflt)] else []
  }

  /** Range `i`, then the filler up to range `i + 1` when frames lie between them. */
  function Segment(inters: seq<Interval>, i: nat, dflt: Rate): seq<Interval>
    requires i < |inters|
  {
    [inters[i]]
    + if i + 1 < |inters| && inters[i + 1].first - inters[i].last > 1
      then [Interval(inters[i].last + 1, inters[i + 1].first - 1, dflt)]
      else []
  }

  /** The first `n` segments. */
  function Body(inters: seq<Interval>, n: nat, dflt: Rate): seq<Interval>
    requires n <= |inters|
  {
    if n == 0 then [] else Body(inters, n - 1, dflt) + Segment(inters, n - 1, dflt)
  }

  /** The filler after the last range: frames after it up to `end`, when it ends earlier. */
  function After(inters: seq<Interval>, end: int, dflt: Rate): seq<Interval>
    requires |inters| > 0
  {
    var last := inters[|inters| - 1].last;
    if end > last then [Interval(last + 1, end, dflt)] else []
  }

  /** `all_inters` */
  function Filled(inters: seq<Interval>, start: int, end: int, dflt: Rate): seq<Interval>
    requires |inters| > 0
  {
    Before(inters, start, dflt) + Body(inters, |inters|, dflt) + After(inters, end, dflt)
  }

  /**
   * The filling loop: each range is copied and followed by the filler up
   * to the next one; reading past the last range ends the loop and adds
   * the trailing filler.
   */
  method FillRanges(inters: seq<Interval>, start: int, end: int, dflt: Rate) returns (all: seq<Interval>)
    requires |inters| > 0
    ensures all == Filled(inters, start, end, dflt)
  {
    all := [];
    if start < inters[0].first {
      all := all + [Interval(start, inters[0].first - 1, dflt)];
    }
    ghost var before := all;
    for i := 0 to |inters|
      invariant all == before + Body(inters, i, dflt) + (if i == |inters| then After(inters, end, dflt) else [])
    {
      var inter := inters[i];
      ghost var prev := all;
      all := all + [inter];
      if i + 1 < |inters| {
        if inters[i + 1].first - inter.last > 1 {
          all := all + [Interval(inter.last + 1, inters[i + 1].first - 1, dflt)];
        }
        BodyStep(inters, i, dflt, before, prev, all, []);
      } else {
        assert all == prev + Segment(inters, i, dflt);
        ghost var grown := all;
        if end > inters[|inters| - 1].last {
          all := all + [Interval(inters[|inters| - 1].last + 1, end, dflt)];
        }
        BodyStep(inters, i, dflt, before, prev, grown, After(inters, end, dflt));
      }
    }
  }

  /** One turn of the filling loop adds segment `i`. */
  lemma BodyStep(inters: seq<Interval>, i: nat, dflt: Rate, before: seq<Interval>, prev: seq<Interval>, all: seq<Interval>, tail: seq<Interval>)
    requires i < |inters| && prev == before + Body(inters, i, dflt) && all == prev + Segment(inters, i, dflt)
    ensures all + tail == before + Body(inters, i + 1, dflt) + tail
  {
  }

  /** A filler is added before the ranges exactly when `start` is below the first of them. */
  lemma BeforeIff(inters: seq<Interval>, start: int, end: int, dflt: Rate)
    requires |inters| > 0
    ensures Filled(inters, start, end, dflt)[0] == inters[0] <==> start >= inters[0].first
    ensures start < inters[0].first ==> Filled(inters, start, end, dflt)[0] == Interval(start, inters[0].first - 1, dflt)
  {
    assert Body(inters, 1, dflt) == Segment(inters, 0, dflt);
    BodyPrefix(inters, 1, |inters|, dflt);
  }

  /** A filler follows range `i` exactly when the next range starts more than one frame after it ends. */
  lemma BetweenIff(inters: seq<Interval>, i: nat, dflt: Rate)
    requires i + 1 < |inters|
    ensures var b := Body(inters, |inters|, dflt); var p := |Body(inters, i, dflt)|;
      p + 1 < |b| && b[p] == inters[i]
      && (b[p + 1] != inters[i + 1] <==> inters[i + 1].first - inters[i].last > 1)
      && (inters[i + 1].first - inters[i].last > 1 ==> b[p + 1] == Interval(inters[i].last + 1, inters[i + 1].first - 1, dflt))
  {
    BodyPrefix(inters, i + 2, |inters|, dflt);
    var p := |Body(inters, i, dflt)|;
    var s := Segment(inters, i, dflt);
    assert Body(inters, i + 2, dflt) == Body(inters, i, dflt) + s + Segment(inters, i + 1, dflt);
    assert Body(inters, i + 2, dflt)[p] == inters[i];
    if inters[i + 1].first - inters[i].last > 1 {
      assert Body(inters, i + 2, dflt)[p + 1] == s[1];
      assert s[1].last < inters[i + 1].first;
    } else {
      assert Body(inters, i + 2, dflt)[p + 1] == inters[i + 1];
    }
  }

  /** The body of the first `n` ranges begins the body of the first `m`. */
  lemma {:induction false} BodyPrefix(inters: seq<Interval>, n: nat, m: nat, dflt: Rate)
    requires n <= m <= |inters|
    ensures Body(inters, n, dflt) <= Body(inters, m, dflt)
    decreases m
  {
    if n < m {
      BodyPrefix(inters, n, m - 1, dflt);
    }
  }

  /** A filler is added after the ranges exactly when `end` is past the last of them. */
  lemma AfterIff(inters: seq<Interval>, start: int, end: int, dflt: Rate)
    requires |inters| > 0
    ensures var f := Filled(inters, start, end, dflt); var last := inters[|inters| - 1];
      (f[|f| - 1] != last <==> end > last.last)
      && (end > last.last ==> f[|f| - 1] == Interval(last.last + 1, end, dflt))
  {
    var n := |inters|;
    assert Segment(inters, n - 1, dflt) == [inters[n - 1]];
    var f := Filled(inters, start, end, dflt);
    if end > inters[n - 1].last {
      assert f[|f| - 1] == After(inters, end, dflt)[0];
    } else {
      assert f[|f| - 1] == Body(inters, n, dflt)[|Body(inters, n, dflt)| - 1];
    }
  }

  // ---------------------------------------------------------------------
  // Coverage
  // ---------------------------------------------------------------------

  /** Each declared range ends before the next one starts. */
  predicate Ordered(inters: seq<Interval>) {
    forall i :: 0 <= i < |inters| - 1 ==> inters[i].last < inters[i + 1].first
  }

  /** No declared range is empty. */
  predicate NonEmpty(inters: seq<Interval>) {
    forall i :: 0 <= i < |inters| ==> inters[i].first <= inters[i].last
  }

  /** Each range starts on the frame after the previous one ends. */
  predicate Contiguous(s: seq<Interval>) {
    forall k :: 0 <= k < |s| - 1 ==> s[k + 1].first == s[k].last + 1
  }

  /** Two contiguous runs that meet make one. */
  lemma ContiguousJoin(a: seq<Interval>, b: seq<Interval>)
    requires Contiguous(a) && Contiguous(b)
    requires a != [] && b != [] ==> b[0].first == a[|a| - 1].last + 1
    ensures Contiguous(a + b)
  {
    var s := a + b;
    forall k | 0 <= k < |s| - 1 ensures s[k + 1].first == s[k].last + 1 {
      if k + 1 < |a| {
        assert s[k] == a[k] && s[k + 1] == a[k + 1];
      } else if k + 1 == |a| {
        assert s[k] == a[k] && s[k + 1] == b[0];
      } else {
        assert s[k] == b[k - |a|] && s[k + 1] == b[k + 1 - |a|];
      }
    }
  }

  /**
   * With ordered ranges, the body is contiguous from the first range on and
   * reaches the frame before the next range, or the end of the last range.
   */
  lemma {:induction false} BodyContiguous(inters: seq<Interval>, n: nat, dflt: Rate)
    requires 0 < n <= |inters| && Ordered(inters)
    ensures var b := Body(inters, n, dflt);
      b != [] && Contiguous(b) && b[0] == inters[0]
      && (n < |inters| ==> b[|b| - 1].last + 1 == inters[n].first)
      && (n == |inters| ==> b[|b| - 1] == inters[n - 1])
  {
    var s := Segment(inters, n - 1, dflt);
    assert Contiguous(s);
    if n == 1 {
      assert Body(inters, 1, dflt) == s;
    } else {
      BodyContiguous(inters, n - 1, dflt);
      ContiguousJoin(Body(inters, n - 1, dflt), s);
    }
  }

  /**
   * With ordered ranges, the filled list is contiguous: it starts at the
   * lower of `start` and the first range, and ends at the higher of `end`
   * and the last range.
   */
  lemma FilledContiguous(inters: seq<Interval>, start: int, end: int, dflt: Rate)
    requires |inters| > 0 && Ordered(inters)
    ensures var f := Filled(inters, start, end, dflt);
      f != [] && Contiguous(f)
      && f[0].first == (if start < inters[0].first then start else inters[0].first)
      && f[|f| - 1].last == (if end > inters[|inters| - 1].last then end else inters[|inters| - 1].last)
  {
    var pre := Before(inters, start, dflt);
    var b := Body(inters, |inters|, dflt);
    var post := After(inters, end, dflt);
    BodyContiguous(inters, |inters|, dflt);
    ContiguousJoin(pre, b);
    ContiguousJoin(pre + b, post);
    assert Filled(inters, start, end, dflt) == (pre + b) + post;
  }

  /** Every range of the filled list is non-empty when the declared ones are. */
  lemma FilledNonEmpty(inters: seq<Interval>, start: int, end: int, dflt: Rate)
    requires |inters| > 0 && Ordered(inters) && NonEmpty(inters)
    ensures NonEmpty(Filled(inters, start, end, dflt))
  {
    BodyNonEmpty(inters, |inters|, dflt);
    var f := Filled(inters, start, end, dflt);
    var pre := Before(inters, start, dflt);
    var b := Body(inters, |inters|, dflt);
    forall k | 0 <= k < |f| ensures f[k].first <= f[k].last {
      if k < |pre| {
      } else if k < |pre| + |b| {
        assert f[k] == b[k - |pre|];
      } else {
        assert f[k] == After(inters, end, dflt)[k - |pre| - |b|];
      }
    }
  }

  lemma {:induction false} BodyNonEmpty(inters: seq<Interval>, n: nat, dflt: Rate)
    requires n <= |inters| && Ordered(inters) && NonEmpty(inters)
    ensures NonEmpty(Body(inters, n, dflt))
  {
    if n > 0 {
      BodyNonEmpty(inters, n - 1, dflt);
      var a := Body(inters, n - 1, dflt);
      var s := Segment(inters, n - 1, dflt);
      var b: seq<Interval> := a + s;
      forall k | 0 <= k < |b| ensures b[k].first <= b[k].last {
        if k < |a| {
          assert b[k] == a[k];
        } else {
          assert b[k] == s[k - |a|];
        }
      }
    }
  }

  // ---------------------------------------------------------------------
  // Emitting
  // ---------------------------------------------------------------------

  /** How many entries a range emits: `range(1, last - first + 2)`. */
  function Width(iv: Interval): nat {
    if iv.last - iv.first + 1 > 0 then iv.last - iv.first + 1 else 0
  }

  /** Entries `1..m` of range `k`. */
  function Ticks(k: nat, m: nat): (r: seq<Entry>)
    ensures |r| == m
  {
    if m == 0 then [] else Ticks(k, m - 1) + [Tick(k, m)]
  }

  /** Entry `i` of the ticks of range `k` is frame `i + 1` of it. */
  lemma {:induction false} TicksAt(k: nat, m: nat, i: nat)
    requires i < m
    ensures Ticks(k, m)[i] == Tick(k, i + 1)
  {
    if i < m - 1 {
      TicksAt(k, m - 1, i);
    }
  }

  /**
   * The table after the first `n` ranges, starting with `0.000` when the
   * offset is zero; reading back the last entry fails when there is none.
   */
  function Emit(all: seq<Interval>, zero: bool, n: nat): Result<seq<Entry>, V1Error>
    requires n <= |all|
  {
    if n == 0 then Ok(if zero then [Origin] else [])
    else match Emit(all, zero, n - 1)
      case Err(e) => Err(e)
      case Ok(v) =>
        var v' := v + Ticks(n - 1, Width(all[n - 1]));
        if v' == [] then Err(NoEntries) else Ok(v')
  }

  /** Total entries of the first `n` ranges. */
  function SumWidth(all: seq<Interval>, n: nat): nat
    requires n <= |all|
  {
    if n == 0 then 0 else SumWidth(all, n - 1) + Width(all[n - 1])
  }

  /**
   * The emission loop: for each range, one entry per frame, then the last
   * entry is read back as the running offset (its value is not modelled).
   */
  method ToV2(all: seq<Interval>, offset: int) returns (r: Result<seq<Entry>, V1Error>)
    ensures r == Emit(all, offset == 0, |all|)
  {
    var v2: seq<Entry> := if offset != 0 then [] else [Origin];
    for k := 0 to |all|
      invariant Emit(all, offset == 0, k) == Ok(v2)
    {
      var inter := all[k];
      ghost var before := v2;
      var w := inter.last - inter.first + 1;
      if w > 0 {
        for i := 1 to w + 1
          invariant v2 == before + Ticks(k, i - 1)
        {
          v2 := v2 + [Tick(k, i)];
        }
      }
      assert v2 == before + Ticks(k, Width(inter));
      if |v2| == 0 {
        EmitErrStays(all, offset == 0, k + 1, |all|);
        return Err(NoEntries);
      }
    }
    return Ok(v2);
  }

  /** Once the table has failed it stays failed. */
  lemma {:induction false} EmitErrStays(all: seq<Interval>, zero: bool, n: nat, m: nat)
    requires n <= m <= |all| && Emit(all, zero, n).Err?
    ensures Emit(all, zero, m) == Emit(all, zero, n)
    decreases m
  {
    if n < m {
      EmitErrStays(all, zero, n, m - 1);
    }
  }

  /**
   * The table has one entry per frame of every range, after `0.000` when
   * the offset is zero; it fails exactly when the offset is not zero and
   * the first range has no frame.
   */
  lemma {:induction false} EmitCount(all: seq<Interval>, zero: bool, n: nat)
    requires n <= |all|
    ensures Emit(all, zero, n).Err? <==> n > 0 && !zero && Width(all[0]) == 0
    ensures Emit(all, zero, n).Ok? ==> |Emit(all, zero, n).value| == (if zero then 1 else 0) + SumWidth(all, n)
    ensures Emit(all, zero, n).Ok? && n > 0 ==> Emit(all, zero, n).value != []
  {
    if n > 0 {
      EmitCount(all, zero, n - 1);
    }
  }

  /** Entry `i` of the ticks of range `k` sits right after the entries before range `k`. */
  lemma {:induction false} EmitAt(all: seq<Interval>, zero: bool, n: nat, k: nat, i: nat)
    requires k < n <= |all| && Emit(all, zero, n).Ok? && i < Width(all[k])
    ensures var v := Emit(all, zero, n).value; var base := (if zero then 1 else 0) + SumWidth(all, k);
      base + i < |v| && v[base + i] == Tick(k, i + 1)
  {
    EmitCount(all, zero, n);
    EmitCount(all, zero, n - 1);
    var v := Emit(all, zero, n - 1).value;
    if k < n - 1 {
      EmitAt(all, zero, n - 1, k, i);
      assert Emit(all, zero, n).value == v + Ticks(n - 1, Width(all[n - 1]));
    } else {
      TicksAt(k, Width(all[k]), i);
    }
  }

  /** On a contiguous list of non-empty ranges the widths add up to the frames covered. */
  lemma {:induction false} SumWidthSpan(all: seq<Interval>, n: nat)
    requires 0 < n <= |all| && Contiguous(all) && NonEmpty(all)
    ensures SumWidth(all, n) == all[n - 1].last - all[0].first + 1
  {
    if n > 1 {
      SumWidthSpan(all, n - 1);
    }
  }

  // ---------------------------------------------------------------------
  // The conversion
  // ---------------------------------------------------------------------

  /** `timecode_v1_to_v2(lines, offset, start, end)` with the default rate left symbolic. */
  function V1ToV2(lines: seq<string>, offset: int, start: int, end: int): Result<seq<Entry>, V1Error> {
    var skip := if AssumeRate(lines).Some? then 1 else 0;
    match ParseRanges(lines, skip, |lines| - skip)
    case Err(e) => Err(e)
    case Ok(inters) =>
      if inters == [] then Err(NoRanges)
      else
        var all := Filled(inters, start, end, DefaultOf(lines));
        Emit(all, offset == 0, |all|)
  }

  /** The conversion: reading the ranges, filling them, emitting the table. */
  method TimecodeV1ToV2(lines: seq<string>, offset: int, start: int, end: int) returns (r: Result<seq<Entry>, V1Error>)
    ensures r == V1ToV2(lines, offset, start, end)
  {
    var dflt := DefaultOf(lines);
    var skip := if AssumeRate(lines).Some? then 1 else 0;
    var inters := ParseRanges(lines, skip, |lines| - skip);
    if inters.Err? {
      return Err(inters.error);
    }
    if |inters.value| == 0 {
      return Err(NoRanges);
    }
    var all := FillRanges(inters.value, start, end, dflt);
    r := ToV2(all, offset);
  }

  /**
   * For ordered, non-empty declared ranges and a zero offset (the call in
   * `frames2time`), the table has `0.000` and then exactly one entry per
   * frame from the lower of `start` and the first range to the higher of
   * `end` and the last range.
   */
  lemma V1ToV2Count(lines: seq<string>, start: int, end: int, inters: seq<Interval>)
    requires var skip := if AssumeRate(lines).Some? then 1 else 0;
      ParseRanges(lines, skip, |lines| - skip) == Ok(inters)
    requires inters != [] && Ordered(inters) && NonEmpty(inters)
    ensures var lo := if start < inters[0].first then start else inters[0].first;
      var hi := if end > inters[|inters| - 1].last then end else inters[|inters| - 1].last;
      V1ToV2(lines, 0, start, end).Ok? && |V1ToV2(lines, 0, start, end).value| == 1 + (hi - lo + 1)
  {
    var all := Filled(inters, start, end, DefaultOf(lines));
    FilledContiguous(inters, start, end, DefaultOf(lines));
    FilledNonEmpty(inters, start, end, DefaultOf(lines));
    EmitCount(all, true, |all|);
    SumWidthSpan(all, |all|);
  }
}
