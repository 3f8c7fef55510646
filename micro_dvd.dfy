/**
 * The cutting loop of `sub_subs`: MicroDVD lines `{start}{end}text`, in
 * frames, cut by the joined frame ranges. Each range keeps the lines that
 * overlap it, clipped to it and moved back by the range's offset, so that
 * the kept frames are numbered from 0 without gaps.
 */
module MicroDvd {
  import opened Results
  import opened Text
  import opened Trims
  import opened FrameMapping

  /** What `^{(\d+)}{(\d+)}` captures from a line, and the text after the match. */
  datatype Tag = Tag(first: string, second: string, rest: string)

  /** Why the program stops with an uncaught `IndexError`. */
  datatype SubError =
    | NoLines               // `lines[0]` of an empty file
    | Unparsable(line: nat) // a line the pattern does not match (index in the file)
    | NothingWritten        // `new_lines[-1]` while nothing has been written

  /** The line a tag comes from: the two numbers in braces, then the rest. */
  function TagLine(first: string, second: string, rest: string): string {
    "{" + first + "}{" + second + "}" + rest
  }

  /** Both captured numbers are non-empty runs of digits. */
  predicate Numbers(tag: Tag) {
    |tag.first| > 0 && AllDigits(tag.first) && |tag.second| > 0 && AllDigits(tag.second)
  }

  /** The recogniser of `^{(\d+)}{(\d+)}`: `None` when the line does not start with it. */
  function ParseTag(line: string): Option<Tag> {
    if |line| > 0 && line[0] == '{' then
      ScanFirst(line, 1)
    else None
  }

  /** The pattern captures two non-empty runs of digits. */
  lemma ParseTagDigits(line: string)
    ensures ParseTag(line).Some? ==> Numbers(ParseTag(line).value)
  {
    if |line| > 0 && line[0] == '{' {
      ScanFirstSound(line, 1);
    }
  }

  /** A line the pattern matches is the tag line of the two numerals it captures. */
  lemma ParseTagSound(line: string)
    ensures ParseTag(line).Some? ==> line == TagLine(ParseTag(line).value.first, ParseTag(line).value.second, ParseTag(line).value.rest)
  {
    if |line| > 0 && line[0] == '{' {
      ScanFirstSound(line, 1);
    }
  }

  /** Reading the first number; `line[1..i]` are its digits so far. */
  function ScanFirst(line: string, i: nat): Option<Tag>
    requires 1 <= i <= |line|
    decreases |line| - i
  {
    if i < |line| && IsDigit(line[i]) then
      ScanFirst(line, i + 1)
    else if i > 1 && i + 1 < |line| && line[i] == '}' && line[i + 1] == '{' then ScanSecond(line, i, i + 2)
    else None
  }

  /** Reading the second number, which starts at `j + 2`; `line[j + 2..k]` are its digits so far. */
  function ScanSecond(line: string, j: nat, k: nat): Option<Tag>
    requires 1 < j && j + 2 <= k <= |line|
    decreases |line| - k
  {
    if k < |line| && IsDigit(line[k]) then
      ScanSecond(line, j, k + 1)
    else if k > j + 2 && k < |line| && line[k] == '}' then
      Some(Tag(line[1..j], line[j + 2..k], line[k + 1..]))
    else None
  }

  /** What the first scan finds is a tag of the line. */
  lemma {:induction false} ScanFirstSound(line: string, i: nat)
    requires 1 <= i <= |line| && line[0] == '{' && AllDigits(line[1..i])
    ensures var r := ScanFirst(line, i); r.Some? ==> Numbers(r.value) && line == TagLine(r.value.first, r.value.second, r.value.rest)
    decreases |line| - i
  {
    if i < |line| && IsDigit(line[i]) {
      assert line[1..i + 1] == line[1..i] + [line[i]];
      ScanFirstSound(line, i + 1);
    } else if i > 1 && i + 1 < |line| && line[i] == '}' && line[i + 1] == '{' {
      ScanSecondSound(line, i, i + 2);
    }
  }

  /** What the second scan finds is a tag of the line. */
  lemma {:induction false} ScanSecondSound(line: string, j: nat, k: nat)
    requires 1 < j && j + 2 <= k <= |line| && line[0] == '{' && AllDigits(line[1..j])
    requires line[j] == '}' && line[j + 1] == '{' && AllDigits(line[j + 2..k])
    ensures var r := ScanSecond(line, j, k); r.Some? ==> Numbers(r.value) && line == TagLine(r.value.first, r.value.second, r.value.rest)
    decreases |line| - k
  {
    if k < |line| && IsDigit(line[k]) {
      assert line[j + 2..k + 1] == line[j + 2..k] + [line[k]];
      ScanSecondSound(line, j, k + 1);
    } else if k > j + 2 && k < |line| && line[k] == '}' {
      TagLineOf(line, j, k);
    }
  }

  /** A line with braces where a tag has them is the tag line of its pieces. */
  lemma TagLineOf(line: string, j: nat, k: nat)
    requires 1 <= j && j + 2 <= k < |line|
    requires line[0] == '{' && line[j] == '}' && line[j + 1] == '{' && line[k] == '}'
    ensures line == TagLine(line[1..j], line[j + 2..k], line[k + 1..])
  {
    var t := TagLine(line[1..j], line[j + 2..k], line[k + 1..]);
    assert |t| == |line|;
    forall i | 0 <= i < |line| ensures t[i] == line[i] {
      if i == 0 {
      } else if i < j {
        assert t[i] == line[1..j][i - 1];
      } else if i < j + 2 {
      } else if i < k {
        assert t[i] == line[j + 2..k][i - j - 2];
      } else if i == k {
      } else {
        assert t[i] == line[k + 1..][i - k - 1];
      }
    }
  }

  /** Reading over the digits of the first number reaches its end. */
  lemma {:induction false} ScanFirstOver(line: string, i: nat, j: nat)
    requires 1 <= i <= j < |line| && line[0] == '{' && AllDigits(line[1..i]) && AllDigits(line[1..j]) && !IsDigit(line[j])
    ensures ScanFirst(line, i) == ScanFirst(line, j)
    decreases j - i
  {
    if i < j {
      assert line[i] == line[1..j][i - 1];
      assert line[1..i + 1] == line[1..i] + [line[i]];
      ScanFirstOver(line, i + 1, j);
    }
  }

  /** Reading over the digits of the second number reaches its end. */
  lemma {:induction false} ScanSecondOver(line: string, j: nat, k: nat, m: nat)
    requires 1 < j && j + 2 <= k <= m < |line| && line[0] == '{' && AllDigits(line[1..j])
    requires line[j] == '}' && line[j + 1] == '{' && AllDigits(line[j + 2..k]) && AllDigits(line[j + 2..m])
    requires !IsDigit(line[m])
    ensures ScanSecond(line, j, k) == ScanSecond(line, j, m)
    decreases m - k
  {
    if k < m {
      assert line[k] == line[j + 2..m][k - j - 2];
      assert line[j + 2..k + 1] == line[j + 2..k] + [line[k]];
      ScanSecondOver(line, j, k + 1, m);
    }
  }

  /** A line written as a tag reads back as that tag. */
  lemma TagRoundTrip(first: string, second: string, rest: string)
    requires |first| > 0 && AllDigits(first) && |second| > 0 && AllDigits(second)
    ensures ParseTag(TagLine(first, second, rest)) == Some(Tag(first, second, rest))
  {
    var line := TagLine(first, second, rest);
    var j := 1 + |first|;
    var k := j + 2 + |second|;
    assert line[1..j] == first;
    assert line[j] == '}' && line[j + 1] == '{';
    assert line[j + 2..k] == second;
    assert line[k] == '}';
    assert line[k + 1..] == rest;
    ScanFirstOver(line, 1, j);
    ScanSecondOver(line, j, j + 2, k);
  }

  /**
   * The frame numbers of a tag, as `int` reads them. The recogniser only
   * captures digits (`ParseTagDigits`); the test keeps these total.
   */
  function Start(tag: Tag): nat { if AllDigits(tag.first) then DigitsValue(tag.first) else 0 }
  function End(tag: Tag): nat { if AllDigits(tag.second) then DigitsValue(tag.second) else 0 }

  /** `re_sub.sub('{s}{e}', line)`: the numbers rewritten, the text after them kept. */
  function Retag(s: int, e: int, rest: string): string {
    TagLine(IntToString(s), IntToString(e), rest)
  }

  predicate EndsWithNewline(s: string) {
    |s| > 0 && s[|s| - 1] == '\n'
  }

  /** The last line of `out` given a trailing newline when it has none. */
  function WithNewline(out: seq<string>): (r: seq<string>)
    requires out != []
    ensures |r| == |out| && r[..|out| - 1] == out[..|out| - 1] && EndsWithNewline(r[|r| - 1])
    ensures EndsWithNewline(out[|out| - 1]) ==> r == out
  {
    var last := out[|out| - 1];
    if EndsWithNewline(last) then out else out[..|out| - 1] + [last + "\n"]
  }

  // ---------------------------------------------------------------------
  // Offsets
  // ---------------------------------------------------------------------

  /** `prev_end` after the first `n` ranges: the last output frame so far. */
  function PrevEnd(ts: seq<FrameRange>, n: nat): int
    requires n <= |ts|
    decreases n, 0
  {
    if n == 0 then -1 else ts[n - 1].end - Offset(ts, n - 1)
  }

  /** `offset` of range `i`: how far its lines move back. */
  function Offset(ts: seq<FrameRange>, i: nat): int
    requires i < |ts|
    decreases i, 1
  {
    ts[i].start - PrevEnd(ts, i) - 1
  }

  /** The two updates of the outer loop: `offset` from `prev_end`, then `prev_end` from `offset`. */
  lemma PrevEndStep(ts: seq<FrameRange>, i: nat, prevEnd: int, offset: int)
    requires i < |ts| && prevEnd == PrevEnd(ts, i) && offset == ts[i].start - prevEnd - 1
    ensures offset == Offset(ts, i) && PrevEnd(ts, i + 1) == ts[i].end - offset
  {
  }

  /**
   * The offset of a range is the constant-rate frame shift of the same
   * range negated: both branches of the program put the range on the
   * output frame `KeptBefore(ts, i)`.
   */
  lemma {:induction false} OffsetIsFrameShift(ts: seq<FrameRange>, i: nat)
    requires i < |ts|
    ensures PrevEnd(ts, i) == KeptBefore(ts, i) - 1
    ensures Offset(ts, i) == -CfrShift(ts, i)
    ensures ts[i].start - Offset(ts, i) == KeptBefore(ts, i)
    ensures ts[i].end - Offset(ts, i) == KeptBefore(ts, i + 1) - 1
  {
    if i > 0 {
      OffsetIsFrameShift(ts, i - 1);
    }
  }

  // ---------------------------------------------------------------------
  // Cutting
  // ---------------------------------------------------------------------

  /** Each of the first `n` lines starts with a tag. */
  predicate Parses(body: seq<string>, n: nat)
    requires n <= |body|
  {
    n == 0 || (Parses(body, n - 1) && ParseTag(body[n - 1]).Some?)
  }

  /** The first of the first `n` lines that has no tag, or `n` when they all have one. */
  function FirstUnparsable(body: seq<string>, n: nat): (r: nat)
    requires n <= |body|
    ensures r <= n
  {
    if n == 0 then 0
    else
      var r := FirstUnparsable(body, n - 1);
      if r < n - 1 then r else if ParseTag(body[n - 1]).None? then n - 1 else n
  }

  /**
   * What the index means: the lines before it all have a tag, and it is
   * either a line without one or `n`, when there is none.
   */
  lemma {:induction false} FirstUnparsableParses(body: seq<string>, n: nat)
    requires n <= |body|
    ensures FirstUnparsable(body, n) == n <==> Parses(body, n)
    ensures Parses(body, FirstUnparsable(body, n))
    ensures FirstUnparsable(body, n) < n ==> ParseTag(body[FirstUnparsable(body, n)]).None?
  {
    if n > 0 {
      FirstUnparsableParses(body, n - 1);
    }
  }

  /** A line overlaps the range: starts before its last frame and ends after its first. */
  predicate Keeps(tag: Tag, t: FrameRange) {
    Start(tag) < t.end && End(tag) > t.start
  }

  /** The first frame of a kept line once clipped to the range. */
  function ClipStart(tag: Tag, t: FrameRange): int {
    if Start(tag) < t.start then t.start else Start(tag)
  }

  /** The last frame of a kept line once clipped to the range. */
  function ClipEnd(tag: Tag, t: FrameRange): int {
    if End(tag) > t.end then t.end else End(tag)
  }

  /** The kept line clipped to the range and moved back by `offset`. */
  function CutLine(tag: Tag, t: FrameRange, offset: int): string {
    Retag(ClipStart(tag, t) - offset, ClipEnd(tag, t) - offset, tag.rest)
  }

  /** The cut line written from its two new frame numbers. */
  lemma CutLineOf(tag: Tag, t: FrameRange, offset: int, s: int, e: int)
    requires s == ClipStart(tag, t) - offset && e == ClipEnd(tag, t) - offset
    ensures Retag(s, e, tag.rest) == CutLine(tag, t, offset)
  {
  }

  /** What range `t` writes for the first `n` lines of the body. */
  function CutSpan(body: seq<string>, t: FrameRange, offset: int, n: nat): (r: seq<string>)
    requires n <= |body| && Parses(body, n)
    ensures |r| <= n
  {
    if n == 0 then []
    else
      var tag := ParseTag(body[n - 1]).value;
      var r := CutSpan(body, t, offset, n - 1);
      if Keeps(tag, t) then r + [CutLine(tag, t, offset)] else r
  }

  /** One more line: its cut is added when the range keeps it. */
  lemma CutSpanStep(body: seq<string>, t: FrameRange, offset: int, n: nat, tag: Tag)
    requires n < |body| && Parses(body, n) && ParseTag(body[n]) == Some(tag)
    ensures Parses(body, n + 1)
    ensures CutSpan(body, t, offset, n + 1) ==
      CutSpan(body, t, offset, n) + if Keeps(tag, t) then [CutLine(tag, t, offset)] else []
  {
  }

  /**
   * The output after the first `n` ranges, as written: after every range
   * the last output line gets its newline, which fails when nothing has
   * been output yet.
   */
  function AfterRanges(header: seq<string>, body: seq<string>, ts: seq<FrameRange>, n: nat): Result<seq<string>, SubError>
    requires n <= |ts| && Parses(body, |body|)
  {
    if n == 0 then Ok(header)
    else match AfterRanges(header, body, ts, n - 1)
      case Err(e) => Err(e)
      case Ok(out) =>
        var out' := out + CutSpan(body, ts[n - 1], Offset(ts, n - 1), |body|);
        if out' == [] then Err(NothingWritten) else Ok(WithNewline(out'))
  }

  /** One more range: its lines are added and the last line gets its newline. */
  lemma AfterRangesStep(header: seq<string>, body: seq<string>, ts: seq<FrameRange>, n: nat, out: seq<string>)
    requires n < |ts| && Parses(body, |body|)
    requires AfterRanges(header, body, ts, n) == Ok(out)
    ensures var out' := out + CutSpan(body, ts[n], Offset(ts, n), |body|);
      AfterRanges(header, body, ts, n + 1) == if out' == [] then Err(NothingWritten) else Ok(WithNewline(out'))
  {
  }

  /** Once the output has failed it stays failed. */
  lemma {:induction false} AfterRangesErr(header: seq<string>, body: seq<string>, ts: seq<FrameRange>, n: nat, m: nat)
    requires n <= m <= |ts| && Parses(body, |body|)
    requires AfterRanges(header, body, ts, n).Err?
    ensures AfterRanges(header, body, ts, m) == AfterRanges(header, body, ts, n)
    decreases m
  {
    if n < m {
      AfterRangesErr(header, body, ts, n, m - 1);
    }
  }

  /** A first line `{1}{1}` is the header: it is copied and not cut. */
  predicate IsHeader(tag: Tag) {
    tag.first == "1" && tag.second == "1"
  }

  /**
   * The ranges applied to the lines after the header: nothing is read
   * without a range; otherwise a line the pattern does not match stops the
   * first range.
   */
  function CutBody(header: seq<string>, body: seq<string>, skip: nat, ts: seq<FrameRange>): Result<seq<string>, SubError> {
    if ts == [] then Ok(header)
    else if !Parses(body, |body|) then Err(Unparsable(skip + FirstUnparsable(body, |body|)))
    else AfterRanges(header, body, ts, |ts|)
  }

  /** The cutting part of `sub_subs` on the lines of a file, as written. */
  function SubSubs(lines: seq<string>, ts: seq<FrameRange>): Result<seq<string>, SubError> {
    if lines == [] then Err(NoLines)
    else match ParseTag(lines[0])
      case None => Err(Unparsable(0))
      case Some(tag) =>
        var skip := if IsHeader(tag) then 1 else 0;
        CutBody(lines[..skip], lines[skip..], skip, ts)
  }

  /**
   * `sub_subs` from its first line on. `lines[:1] = []` becomes reading
   * from `lines[1..]`; the `IndexError`s become `Err`.
   */
  method CutSubs(lines: seq<string>, trims: seq<FrameRange>) returns (r: Result<seq<string>, SubError>)
    ensures r == SubSubs(lines, trims)
  {
    if |lines| == 0 {
      return Err(NoLines);
    }
    var first := ParseTag(lines[0]);
    if first.None? {
      return Err(Unparsable(0));
    }
    if first.value.first == "1" && first.value.second == "1" {
      assert lines[..1] == [lines[0]];
      r := CutLines([lines[0]], lines[1..], 1, trims);
    } else {
      assert lines[..0] == [] && lines[0..] == lines;
      r := CutLines([], lines, 0, trims);
    }
  }

  /** The loop over the ranges, starting from the header lines already written. */
  method CutLines(header: seq<string>, body: seq<string>, skip: nat, trims: seq<FrameRange>) returns (r: Result<seq<string>, SubError>)
    ensures r == CutBody(header, body, skip, trims)
  {
    var newLines := header;
    var prevEnd := -1;
    for i := 0 to |trims|
      invariant prevEnd == PrevEnd(trims, i)
      invariant i > 0 ==> Parses(body, |body|) && AfterRanges(header, body, trims, i) == Ok(newLines)
      invariant i == 0 ==> newLines == header
    {
      var trim := trims[i];
      var offset := trim.start - prevEnd - 1;
      PrevEndStep(trims, i, prevEnd, offset);
      prevEnd := trim.end - offset;
      var next := NextRange(header, body, skip, trims, i, offset, newLines);
      if next.Err? {
        return next;
      }
      newLines := next.value;
    }
    CutBodyOk(header, body, skip, trims, newLines);
    return Ok(newLines);
  }

  /** After the last range the cut has succeeded with what has been written. */
  lemma CutBodyOk(header: seq<string>, body: seq<string>, skip: nat, ts: seq<FrameRange>, out: seq<string>)
    requires ts == [] ==> out == header
    requires ts != [] ==> Parses(body, |body|) && AfterRanges(header, body, ts, |ts|) == Ok(out)
    ensures CutBody(header, body, skip, ts) == Ok(out)
  {
  }

  /**
   * One turn of the outer loop of `sub_subs`: range `i` cut from the body
   * and appended, then the newline fix; a failure ends the whole cut.
   */
  method NextRange(header: seq<string>, body: seq<string>, skip: nat, trims: seq<FrameRange>, i: nat, offset: int,
                   newLines: seq<string>) returns (r: Result<seq<string>, SubError>)
    requires i < |trims| && offset == Offset(trims, i)
    requires i > 0 ==> Parses(body, |body|) && AfterRanges(header, body, trims, i) == Ok(newLines)
    requires i == 0 ==> newLines == header
    ensures r.Err? ==> r == CutBody(header, body, skip, trims)
    ensures r.Ok? ==> Parses(body, |body|) && AfterRanges(header, body, trims, i + 1) == r
  {
    var kept := CutRange(body, trims[i], offset);
    if kept.Err? {
      CutBodyUnparsable(header, body, skip, trims);
      return Err(Unparsable(skip + kept.error));
    }
    AfterRangesStep(header, body, trims, i, newLines);
    var grown := newLines + kept.value;
    if |grown| == 0 {
      AfterRangesErr(header, body, trims, i + 1, |trims|);
      return Err(NothingWritten);
    }
    grown := AddNewline(grown);
    return Ok(grown);
  }

  /** The last line given its newline when it has none; `lines[-1]` fails on an empty list. */
  method AddNewline(lines: seq<string>) returns (r: seq<string>)
    requires lines != []
    ensures r == WithNewline(lines)
  {
    r := lines;
    if !EndsWithNewline(r[|r| - 1]) {
      r := r[..|r| - 1] + [r[|r| - 1] + "\n"];
    }
  }

  /**
   * The inner loop of `sub_subs` for one range: the lines it writes, or the
   * index of the first line the pattern does not match.
   */
  method CutRange(body: seq<string>, trim: FrameRange, offset: int) returns (r: Result<seq<string>, nat>)
    ensures r.Err? ==> r.error == FirstUnparsable(body, |body|) < |body|
    ensures r.Ok? ==> Parses(body, |body|) && r.value == CutSpan(body, trim, offset, |body|)
  {
    var newLines: seq<string> := [];
    for j := 0 to |body|
      invariant Parses(body, j)
      invariant newLines == CutSpan(body, trim, offset, j)
    {
      var tag := ParseTag(body[j]);
      if tag.None? {
        FirstUnparsableAt(body, j, |body|);
        return Err(j);
      }
      ParseTagDigits(body[j]);
      var kept := CutTagged(tag.value, trim, offset);
      CutSpanStep(body, trim, offset, j, tag.value);
      newLines := newLines + kept;
    }
    return Ok(newLines);
  }

  /**
   * The body of the inner loop for a line whose tag has been read: the
   * line clipped, shifted and rewritten when it overlaps the range.
   */
  method CutTagged(tag: Tag, trim: FrameRange, offset: int) returns (kept: seq<string>)
    requires Numbers(tag)
    ensures kept == if Keeps(tag, trim) then [CutLine(tag, trim, offset)] else []
  {
    kept := [];
    var start := DigitsValue(tag.first);
    var end := DigitsValue(tag.second);
    if start < trim.end && end > trim.start {
      if start < trim.start {
        start := trim.start;
      }
      if end > trim.end {
        end := trim.end;
      }
      start := start - offset;
      end := end - offset;
      CutLineOf(tag, trim, offset, start, end);
      kept := [Retag(start, end, tag.rest)];
    }
  }

  /** When the first `j` lines parse and line `j` does not, `j` is the first that does not. */
  lemma {:induction false} FirstUnparsableAt(body: seq<string>, j: nat, m: nat)
    requires j < m <= |body| && Parses(body, j) && ParseTag(body[j]).None?
    ensures FirstUnparsable(body, m) == j
  {
    if m > j + 1 {
      FirstUnparsableAt(body, j, m - 1);
    } else {
      FirstUnparsableParses(body, j);
    }
  }

  // ---------------------------------------------------------------------
  // What the output holds
  // ---------------------------------------------------------------------

  /** A cut line reads back with its frames inside the output frames of its range. */
  lemma CutLineFrames(ts: seq<FrameRange>, i: nat, tag: Tag)
    requires Counted(ts) && i < |ts| && Count(ts[i]) > 0
    requires Keeps(tag, ts[i])
    ensures var c := ParseTag(CutLine(tag, ts[i], Offset(ts, i)));
      c.Some? && c.value.rest == tag.rest
      && Start(c.value) == ClipStart(tag, ts[i]) - Offset(ts, i)
      && End(c.value) == ClipEnd(tag, ts[i]) - Offset(ts, i)
      && KeptBefore(ts, i) <= Start(c.value) && End(c.value) <= KeptBefore(ts, i + 1) - 1
      && KeptBefore(ts, i) <= End(c.value) && Start(c.value) <= KeptBefore(ts, i + 1) - 1
  {
    OffsetIsFrameShift(ts, i);
    KeptMonotone(ts, 0, i);
    var s: nat := ClipStart(tag, ts[i]) - Offset(ts, i);
    var e: nat := ClipEnd(tag, ts[i]) - Offset(ts, i);
    CutLineOf(tag, ts[i], Offset(ts, i), s, e);
    TagRoundTrip(Decimal(s), Decimal(e), tag.rest);
    DecimalRoundTrip(s);
    DecimalRoundTrip(e);
  }

  /** Every line a non-empty range writes is a tag line inside the range's output frames. */
  lemma {:induction false} CutSpanFrames(body: seq<string>, ts: seq<FrameRange>, i: nat, n: nat, k: nat)
    requires Counted(ts) && i < |ts| && Count(ts[i]) > 0
    requires n <= |body| && Parses(body, n) && k < |CutSpan(body, ts[i], Offset(ts, i), n)|
    ensures var c := ParseTag(CutSpan(body, ts[i], Offset(ts, i), n)[k]);
      c.Some? && KeptBefore(ts, i) <= Start(c.value) <= KeptBefore(ts, i + 1) - 1
      && KeptBefore(ts, i) <= End(c.value) <= KeptBefore(ts, i + 1) - 1
  {
    var tag := ParseTag(body[n - 1]).value;
    var pre := CutSpan(body, ts[i], Offset(ts, i), n - 1);
    if k < |pre| {
      CutSpanFrames(body, ts, i, n - 1, k);
    } else {
      CutLineFrames(ts, i, tag);
    }
  }

  /** Everything the first `n` ranges write before any newline is added: the header, then each range's lines. */
  function Written(header: seq<string>, body: seq<string>, ts: seq<FrameRange>, n: nat): seq<string>
    requires n <= |ts| && Parses(body, |body|)
  {
    if n == 0 then header else Written(header, body, ts, n - 1) + CutSpan(body, ts[n - 1], Offset(ts, n - 1), |body|)
  }

  /** `out` is `w` with a newline added to some lines that had none. */
  predicate UpToNewline(out: seq<string>, w: seq<string>) {
    |out| == |w| && forall k :: 0 <= k < |w| ==> out[k] == w[k] || (!EndsWithNewline(w[k]) && out[k] == w[k] + "\n")
  }

  /** Adding lines and then the newline keeps the relation. */
  lemma UpToNewlineStep(out: seq<string>, w: seq<string>, c: seq<string>)
    requires UpToNewline(out, w) && out + c != []
    ensures UpToNewline(WithNewline(out + c), w + c)
  {
    var r := WithNewline(out + c);
    forall k | 0 <= k < |w + c|
      ensures r[k] == (w + c)[k] || (!EndsWithNewline((w + c)[k]) && r[k] == (w + c)[k] + "\n")
    {
      if k < |r| - 1 {
        assert r[k] == (r[..|r| - 1])[k] == (out + c)[k];
      }
    }
  }

  /** Every sequence of lines is itself up to newlines. */
  lemma UpToNewlineSame(w: seq<string>)
    ensures UpToNewline(w, w)
  {
  }

  /** One range of the corrected output: its lines appended, then the newline fix unless nothing is there. */
  lemma FixedStep(pre: seq<string>, w: seq<string>, c: seq<string>, fixed: seq<string>, written: seq<string>)
    requires UpToNewline(pre, w) && written == w + c
    requires fixed == if pre + c == [] then [] else WithNewline(pre + c)
    ensures UpToNewline(fixed, written)
  {
    if pre + c != [] {
      UpToNewlineStep(pre, w, c);
    }
  }

  /**
   * The output with a failed newline fix skipped: an empty output stays
   * empty instead of stopping the program.
   */
  function FixedRanges(header: seq<string>, body: seq<string>, ts: seq<FrameRange>, n: nat): seq<string>
    requires n <= |ts| && Parses(body, |body|)
  {
    if n == 0 then header
    else
      var out' := FixedRanges(header, body, ts, n - 1) + CutSpan(body, ts[n - 1], Offset(ts, n - 1), |body|);
      if out' == [] then [] else WithNewline(out')
  }

  /**
   * The corrected output is what the ranges write, each line in place,
   * with a newline added where one was missing; after a range the last
   * line ends with a newline.
   */
  lemma {:induction false} FixedWritten(header: seq<string>, body: seq<string>, ts: seq<FrameRange>, n: nat)
    requires n <= |ts| && Parses(body, |body|)
    ensures UpToNewline(FixedRanges(header, body, ts, n), Written(header, body, ts, n))
  {
    if n == 0 {
      UpToNewlineSame(header);
    } else {
      FixedWritten(header, body, ts, n - 1);
      var c := CutSpan(body, ts[n - 1], Offset(ts, n - 1), |body|);
      var pre := FixedRanges(header, body, ts, n - 1);
      FixedStep(pre, Written(header, body, ts, n - 1), c, FixedRanges(header, body, ts, n), Written(header, body, ts, n));
    }
  }

  /** After a range the corrected output, unless empty, ends with a newline. */
  lemma FixedEndsWithNewline(header: seq<string>, body: seq<string>, ts: seq<FrameRange>, n: nat)
    requires 0 < n <= |ts| && Parses(body, |body|)
    ensures var out := FixedRanges(header, body, ts, n); out != [] ==> EndsWithNewline(out[|out| - 1])
  {
  }

  /**
   * The program's output, when it has one, is the corrected output; it
   * fails exactly when the header and the first range together write
   * nothing.
   */
  lemma {:induction false} AfterRangesFixed(header: seq<string>, body: seq<string>, ts: seq<FrameRange>, n: nat)
    requires n <= |ts| && Parses(body, |body|)
    ensures AfterRanges(header, body, ts, n).Ok? ==> AfterRanges(header, body, ts, n) == Ok(FixedRanges(header, body, ts, n))
    ensures AfterRanges(header, body, ts, n).Err? <==> n > 0 && header + CutSpan(body, ts[0], Offset(ts, 0), |body|) == []
    ensures AfterRanges(header, body, ts, n).Err? ==> AfterRanges(header, body, ts, n) == Err(NothingWritten)
    ensures AfterRanges(header, body, ts, n).Ok? && n > 0 ==> AfterRanges(header, body, ts, n).value != []
  {
    if n > 0 {
      AfterRangesFixed(header, body, ts, n - 1);
      var prev := AfterRanges(header, body, ts, n - 1);
      if prev.Ok? {
        var out' := prev.value + CutSpan(body, ts[n - 1], Offset(ts, n - 1), |body|);
        assert prev.value == FixedRanges(header, body, ts, n - 1);
        assert AfterRanges(header, body, ts, n) == if out' == [] then Err(NothingWritten) else Ok(WithNewline(out'));
        assert FixedRanges(header, body, ts, n) == if out' == [] then [] else WithNewline(out');
      }
    }
  }

  /** The header comes first in what is written. */
  lemma {:induction false} WrittenHeader(header: seq<string>, body: seq<string>, ts: seq<FrameRange>, n: nat)
    requires n <= |ts| && Parses(body, |body|)
    ensures header <= Written(header, body, ts, n)
  {
    if n > 0 {
      WrittenHeader(header, body, ts, n - 1);
    }
  }

  /** With a first line that matches, the first bad line of the rest is one further on. */
  lemma {:induction false} FirstUnparsableShift(lines: seq<string>, m: nat)
    requires m < |lines| && ParseTag(lines[0]).Some?
    ensures FirstUnparsable(lines[1..], m) + 1 == FirstUnparsable(lines, m + 1)
  {
    if m > 0 {
      FirstUnparsableShift(lines, m - 1);
      assert lines[1..][m - 1] == lines[m];
    }
  }

  /** How many leading lines are the header: one for `{1}{1}`, otherwise none. */
  function Skip(lines: seq<string>): (k: nat)
    requires lines != [] && ParseTag(lines[0]).Some?
    ensures k <= 1 && (k == 1 <==> IsHeader(ParseTag(lines[0]).value))
  {
    if IsHeader(ParseTag(lines[0]).value) then 1 else 0
  }

  /**
   * The ways `sub_subs` stops early: an empty file, a first line without a
   * tag. Without a range the header alone is written.
   */
  lemma SubSubsErrors(lines: seq<string>, ts: seq<FrameRange>)
    ensures SubSubs(lines, ts) == Err(NoLines) <==> lines == []
    ensures lines != [] && ParseTag(lines[0]).None? ==> SubSubs(lines, ts) == Err(Unparsable(0))
    ensures lines != [] && ts == [] && ParseTag(lines[0]).Some? ==> SubSubs(lines, ts) == Ok(lines[..Skip(lines)])
  {
    if lines != [] && ParseTag(lines[0]).Some? {
      var skip := Skip(lines);
      var header := lines[..skip];
      var body := lines[skip..];
      assert SubSubs(lines, ts) == CutBody(header, body, skip, ts);
      if ts != [] && Parses(body, |body|) {
        AfterRangesFixed(header, body, ts, |ts|);
      }
    }
  }

  /** With a range, the first line of the file without a tag stops the program, and its index is reported. */
  lemma SubSubsUnparsable(lines: seq<string>, ts: seq<FrameRange>)
    requires lines != [] && ts != [] && FirstUnparsable(lines, |lines|) < |lines|
    ensures SubSubs(lines, ts) == Err(Unparsable(FirstUnparsable(lines, |lines|)))
  {
    if ParseTag(lines[0]).Some? {
      SubSubsTaggedUnparsable(lines, ts);
    } else {
      FirstUnparsableAt(lines, 0, |lines|);
      SubSubsUntagged(lines, ts);
    }
  }

  /** After a first line with a tag, a body line without one is reported at its index in the file. */
  lemma SubSubsTaggedUnparsable(lines: seq<string>, ts: seq<FrameRange>)
    requires lines != [] && ParseTag(lines[0]).Some? && ts != [] && FirstUnparsable(lines, |lines|) < |lines|
    ensures SubSubs(lines, ts) == Err(Unparsable(FirstUnparsable(lines, |lines|)))
  {
    var skip := Skip(lines);
    var body := lines[skip..];
    FirstUnparsableBody(lines, skip, body);
    SubSubsBody(lines, ts, skip, body);
    CutBodyUnparsable(lines[..skip], body, skip, ts);
  }

  /** With a range, a body line without a tag stops the cut, reported at its index in the file. */
  lemma CutBodyUnparsable(header: seq<string>, body: seq<string>, skip: nat, ts: seq<FrameRange>)
    requires ts != [] && FirstUnparsable(body, |body|) < |body|
    ensures CutBody(header, body, skip, ts) == Err(Unparsable(skip + FirstUnparsable(body, |body|)))
  {
    FirstUnparsableParses(body, |body|);
    CutBodyFails(header, body, skip, ts, Parses(body, |body|));
  }

  /** `CutBody` on a body that does not parse, with that fact passed as `parses`. */
  lemma CutBodyFails(header: seq<string>, body: seq<string>, skip: nat, ts: seq<FrameRange>, parses: bool)
    requires ts != [] && parses == Parses(body, |body|) && !parses
    ensures CutBody(header, body, skip, ts) == Err(Unparsable(skip + FirstUnparsable(body, |body|)))
  {
  }

  /** A first line without a tag is reported as line 0. */
  lemma SubSubsUntagged(lines: seq<string>, ts: seq<FrameRange>)
    requires lines != [] && ParseTag(lines[0]).None?
    ensures SubSubs(lines, ts) == Err(Unparsable(0))
  {
  }

  /** After a first line with a tag, the header is split off and the rest is cut. */
  lemma SubSubsBody(lines: seq<string>, ts: seq<FrameRange>, skip: nat, body: seq<string>)
    requires lines != [] && ParseTag(lines[0]).Some? && skip == Skip(lines) && body == lines[skip..]
    ensures SubSubs(lines, ts) == CutBody(lines[..skip], body, skip, ts)
  {
  }

  /** The first bad line after the header, counted in the file. */
  lemma FirstUnparsableBody(lines: seq<string>, skip: nat, body: seq<string>)
    requires lines != [] && ParseTag(lines[0]).Some? && skip == Skip(lines) && body == lines[skip..]
    ensures FirstUnparsable(body, |body|) + skip == FirstUnparsable(lines, |lines|)
    ensures |body| + skip == |lines|
  {
    if skip == 1 {
      FirstUnparsableShift(lines, |lines| - 1);
    } else {
      assert body == lines;
    }
  }

  /** `sub_subs` with the newline fix skipped when nothing has been written. */
  function SubSubsFixed(lines: seq<string>, ts: seq<FrameRange>): (r: Result<seq<string>, SubError>)
    ensures r != Err(NothingWritten)
  {
    if lines == [] then Err(NoLines)
    else match ParseTag(lines[0])
      case None => Err(Unparsable(0))
      case Some(tag) =>
        var skip := Skip(lines);
        var header := lines[..skip];
        var body := lines[skip..];
        if ts == [] then Ok(header)
        else if !Parses(body, |body|) then Err(Unparsable(skip + FirstUnparsable(body, |body|)))
        else Ok(FixedRanges(header, body, ts, |ts|))
  }

  /**
   * The corrected program agrees with the program wherever the program
   * does not stop on an empty output, and where it does, the corrected one
   * writes its (empty or not) output.
   */
  lemma SubSubsFixedAgrees(lines: seq<string>, ts: seq<FrameRange>)
    ensures SubSubs(lines, ts) != Err(NothingWritten) ==> SubSubsFixed(lines, ts) == SubSubs(lines, ts)
    ensures SubSubs(lines, ts) == Err(NothingWritten) ==> SubSubsFixed(lines, ts).Ok?
  {
    if lines != [] && ParseTag(lines[0]).Some? && ts != [] {
      var skip := Skip(lines);
      var body := lines[skip..];
      if Parses(body, |body|) {
        AfterRangesFixed(lines[..skip], body, ts, |ts|);
      }
    }
  }

  /**
   * The corrected output: the header line first (with a newline added if it
   * had none), then the lines each range writes, range by range; after the
   * ranges the last line ends with a newline.
   */
  lemma SubSubsFixedOutput(lines: seq<string>, ts: seq<FrameRange>)
    requires SubSubsFixed(lines, ts).Ok?
    ensures lines != [] && ParseTag(lines[0]).Some?
    ensures var out := SubSubsFixed(lines, ts).value; var skip := Skip(lines);
      Parses(lines[skip..], |lines| - skip) ==>
        UpToNewline(out, Written(lines[..skip], lines[skip..], ts, |ts|))
    ensures var out := SubSubsFixed(lines, ts).value;
      ts != [] && out != [] ==> EndsWithNewline(out[|out| - 1])
    ensures var out := SubSubsFixed(lines, ts).value;
      IsHeader(ParseTag(lines[0]).value) ==> out != [] && (out[0] == lines[0] || out[0] == lines[0] + "\n")
  {
    var skip := Skip(lines);
    var header := lines[..skip];
    var body := lines[skip..];
    if ts != [] {
      FixedWritten(header, body, ts, |ts|);
      FixedEndsWithNewline(header, body, ts, |ts|);
      WrittenHeader(header, body, ts, |ts|);
    } else {
      assert SubSubsFixed(lines, ts).value == header;
    }
  }

  /** A one-line body: the line's cut when the range keeps it, nothing otherwise. */
  lemma CutSpanOne(line: string, t: FrameRange, offset: int, tag: Tag)
    requires ParseTag(line) == Some(tag)
    ensures Parses([line], 1)
    ensures CutSpan([line], t, offset, 1) == if Keeps(tag, t) then [CutLine(tag, t, offset)] else []
  {
    CutSpanStep([line], t, offset, 0, tag);
  }

  /** The tag of the example line. */
  lemma ExampleTag()
    ensures ParseTag("{350}{360}hi\n") == Some(Tag("350", "360", "hi\n"))
    ensures Start(Tag("350", "360", "hi\n")) == 350 && End(Tag("350", "360", "hi\n")) == 360
  {
    assert "{350}{360}hi\n" == TagLine("350", "360", "hi\n");
    TagRoundTrip("350", "360", "hi\n");
    ExampleFrames();
  }

  /** The example's numerals read as frames 350 and 360. */
  lemma ExampleFrames()
    ensures Start(Tag("350", "360", "hi\n")) == 350 && End(Tag("350", "360", "hi\n")) == 360
  {
    assert Decimal(350) == "350" && Decimal(360) == "360";
    DecimalRoundTrip(350);
    DecimalRoundTrip(360);
  }

  /** The file the program cannot cut: no header, and the first range keeps none of its lines. */
  lemma NothingWrittenExample()
    ensures SubSubs(["{350}{360}hi\n"], [FrameRange(100, 200), FrameRange(300, 400)]) == Err(NothingWritten)
  {
    var line := "{350}{360}hi\n";
    var ts := [FrameRange(100, 200), FrameRange(300, 400)];
    ExampleTag();
    CutSpanOne(line, ts[0], Offset(ts, 0), Tag("350", "360", "hi\n"));
    assert AfterRanges([], [line], ts, 1) == Err(NothingWritten);
    AfterRangesErr([], [line], ts, 1, 2);
  }

  /** The example line cut by the second range. */
  lemma ExampleCut()
    ensures CutLine(Tag("350", "360", "hi\n"), FrameRange(300, 400), 199) == "{151}{161}hi\n"
  {
    var tag := Tag("350", "360", "hi\n");
    var t := FrameRange(300, 400);
    ExampleTag();
    assert ClipStart(tag, t) == 350 && ClipEnd(tag, t) == 360;
    CutLineOf(tag, t, 199, 151, 161);
    ExampleNumerals();
  }

  /** The numerals of the example's cut line. */
  lemma ExampleNumerals()
    ensures Retag(151, 161, "hi\n") == "{151}{161}hi\n"
  {
    assert Decimal(15) == "15" && Decimal(16) == "16";
    assert IntToString(151) == "151" && IntToString(161) == "161";
  }

  /** The same file cut as intended: the line lands in the second range's output frames. */
  lemma NothingWrittenFixed()
    ensures SubSubsFixed(["{350}{360}hi\n"], [FrameRange(100, 200), FrameRange(300, 400)]) == Ok(["{151}{161}hi\n"])
  {
    var line := "{350}{360}hi\n";
    var ts := [FrameRange(100, 200), FrameRange(300, 400)];
    var tag := Tag("350", "360", "hi\n");
    ExampleTag();
    CutSpanOne(line, ts[0], Offset(ts, 0), tag);
    assert Offset(ts, 1) == 199;
    CutSpanOne(line, ts[1], 199, tag);
    ExampleCut();
    assert Skip([line]) == 0 && [line][..0] == [] && [line][0..] == [line];
    assert FixedRanges([], [line], ts, 1) == [];
    assert FixedRanges([], [line], ts, 2) == WithNewline(["{151}{161}hi\n"]);
  }
}
