/**
 * `read_trims`: choose the line of the Avisynth script that holds the
 * Trims, collect its `Trim(a, b)` calls and turn each into a frame range.
 * The script arrives as its list of lines; opening the file is not modelled.
 */
module TrimParse {
  import opened Text
  import opened Results
  import opened Seqs
  import opened Trims
  import opened TrimScan

  /** Why no Trims were read; each ends the program with its own message. */
  datatype ReadError =
    | NoTrimsWithLabel(tag: string)
    | NoTrimsInLine(lineNumber: int)
    | NoTrimsInScript

  // ----- One call, one range -----

  /**
   * The pair one call becomes: a positive second number is the last frame;
   * zero or a negative number is minus the number of frames kept.
   */
  function ToRange(c: Call): (r: FrameRange)
    ensures r.start == c.first
    ensures c.second > 0 ==> r.end == c.second
    ensures c.second <= 0 ==> Count(r) == -c.second
  {
    FrameRange(c.first, if c.second > 0 then c.second else c.first - c.second - 1)
  }

  /** Both forms of the second number; no check that the end is not before the start. */
  lemma ToRangeExamples()
    ensures ToRange(Call(0, 5, 10, -5, 11)) == FrameRange(10, 14)
    ensures ToRange(Call(0, 5, 10, 0, 10)) == FrameRange(10, 9)
    ensures ToRange(Call(0, 5, 10, 20, 11)) == FrameRange(10, 20)
  {
  }

  /** The closing comprehension: the calls, found right to left, as ranges left to right. */
  function RangesOf(found: seq<Call>): (r: seq<FrameRange>)
    ensures |r| == |found|
  {
    seq(|found|, i requires 0 <= i < |found| => ToRange(found[|found| - 1 - i]))
  }

  /** The calls of a line from left to right. */
  function LineCalls(line: string): seq<Call> {
    Reverse(CallsFound(line, |line|))
  }

  /** The comprehension lists the calls of the line from left to right. */
  lemma RangesOfLine(line: string)
    ensures |RangesOf(CallsFound(line, |line|))| == |LineCalls(line)|
    ensures forall k :: 0 <= k < |LineCalls(line)| ==> RangesOf(CallsFound(line, |line|))[k] == ToRange(LineCalls(line)[k])
  {
  }

  /** Each call of a line is a call of the line that starts before its first '#'. */
  lemma LineCallsSound(line: string, k: nat)
    requires k < |LineCalls(line)|
    ensures LineCalls(line)[k].pos < FirstHash(line, |line|)
    ensures CallAt(line, LineCalls(line)[k].pos, |line|) == Some(LineCalls(line)[k])
  {
    var f := CallsFound(line, |line|);
    CallsFoundSound(line);
    assert LineCalls(line)[k] == f[|f| - 1 - k];
  }

  /** The calls of a line are in left-to-right order, each ending before the next starts. */
  lemma LineCallsOrdered(line: string)
    ensures forall k :: 0 <= k < |LineCalls(line)| - 1 ==> LineCalls(line)[k].end <= LineCalls(line)[k + 1].pos
  {
    var f := CallsFound(line, |line|);
    var cs := LineCalls(line);
    CallsFoundOrdered(line);
    forall k | 0 <= k < |cs| - 1
      ensures cs[k].end <= cs[k + 1].pos
    {
      assert cs[k] == f[|f| - 1 - k] && cs[k + 1] == f[|f| - 1 - k - 1];
    }
  }

  /** Every call of a line before its first '#' is among its calls. */
  lemma LineCallsComplete(line: string, q: nat)
    requires q < FirstHash(line, |line|) && CallAt(line, q, |line|).Some?
    ensures exists k :: 0 <= k < |LineCalls(line)| && LineCalls(line)[k].pos == q
  {
    var f := CallsFound(line, |line|);
    var cs := LineCalls(line);
    CallsFoundComplete(line, q);
    var j :| 0 <= j < |f| && f[j].pos == q;
    assert cs[|f| - 1 - j] == f[j];
  }

  // ----- Which lines are looked at -----

  /**
   * The lines examined: all of them, or with a line number (any value but
   * zero, which counts as absent) the slice `lines[n-1:n]`.
   */
  function Candidates(lines: seq<string>, lineNumber: int): seq<string> {
    if lineNumber != 0 then PySlice(lines, lineNumber - 1, lineNumber) else lines
  }

  /**
   * A line number picks at most one line: line `n` (counting from 1) when
   * it exists, none past the end, and for a negative `n` the line `n`
   * places before the last one.
   */
  lemma CandidatesSpec(lines: seq<string>, n: int)
    ensures n != 0 ==> |Candidates(lines, n)| <= 1
    ensures 1 <= n <= |lines| ==> Candidates(lines, n) == [lines[n - 1]]
    ensures n > |lines| ==> Candidates(lines, n) == []
    ensures n < 0 && -n < |lines| ==> Candidates(lines, n) == [lines[|lines| + n - 1]]
    ensures n < 0 && -n >= |lines| ==> Candidates(lines, n) == []
    ensures n == 0 ==> Candidates(lines, n) == lines
  {
  }

  /** The order the lines are tried in. */
  function ScanOrder(lines: seq<string>, reversed: bool): seq<string> {
    if reversed then Reverse(lines) else lines
  }

  // ----- Which line is chosen -----

  /**
   * `re_line.search(line)`: a call that starts before the first '#' and,
   * with a non-empty tag, is followed on the same line by a '#' and then
   * by the tag (in any case).
   */
  predicate LineMatches(line: string, tag: string) {
    exists q :: 0 <= q < FirstHash(line, |line|) && CallAt(line, q, |line|).Some? &&
      (tag == [] || LabelAfter(line, CallAt(line, q, |line|).value.end, tag))
  }

  /** `.*#.*<tag>` from index `e`: a '#', then the tag, with no line break in between. */
  predicate LabelAfter(s: string, e: nat, tag: string) {
    exists h :: e <= h < |s| && s[h] == '#' &&
      exists q :: h < q <= |s| - |tag| && TagAt(s, q, tag) && NoBreak(s, e, q)
  }

  /** The tag, in any case, at `q`. */
  predicate TagAt(s: string, q: nat, tag: string)
    requires q + |tag| <= |s|
  {
    EqualsIgnoreCase(s[q..q + |tag|], tag)
  }

  /** No line break in `s[e..q]` (`.` does not match one). */
  predicate NoBreak(s: string, e: nat, q: nat)
    requires q <= |s|
  {
    forall k :: e <= k < q ==> s[k] != '\n'
  }

  /** Which of the lines `re_line` matches. */
  function Matching(ls: seq<string>, tag: string): (m: seq<bool>)
    ensures |m| == |ls| && forall i :: 0 <= i < |ls| ==> m[i] == LineMatches(ls[i], tag)
  {
    seq(|ls|, i requires 0 <= i < |ls| => LineMatches(ls[i], tag))
  }

  /** The index of the first `true`, if any. */
  function FirstTrue(m: seq<bool>): (r: Option<nat>)
    ensures r.Some? ==> r.value < |m| && m[r.value]
    ensures r.Some? ==> forall j :: 0 <= j < r.value ==> !m[j]
    ensures r.None? ==> forall j :: 0 <= j < |m| ==> !m[j]
  {
    if m == [] then None
    else if m[0] then Some(0)
    else match FirstTrue(m[1..])
      case None => None
      case Some(k) => Some(k + 1)
  }

  /** The first `true` is at `i` when `i` holds one and nothing before it does. */
  lemma FirstTrueAt(m: seq<bool>, i: nat)
    requires i < |m| && m[i] && forall j :: 0 <= j < i ==> !m[j]
    ensures FirstTrue(m) == Some(i)
  {
  }

  /** The error reported when no line matches: tag first, then line number. */
  function NotFound(tag: string, lineNumber: int): ReadError {
    if tag != [] then NoTrimsWithLabel(tag)
    else if lineNumber != 0 then NoTrimsInLine(lineNumber)
    else NoTrimsInScript
  }

  /** What `read_trims` returns, or the error it exits with. */
  function ReadTrimsSpec(lines: seq<string>, reversed: bool, tag: string, lineNumber: int): Result<seq<FrameRange>, ReadError> {
    var order := ScanOrder(Candidates(lines, lineNumber), reversed);
    match FirstTrue(Matching(order, tag))
    case None => Err(NotFound(tag, lineNumber))
    case Some(k) => Ok(RangesOf(CallsFound(order[k], |order[k]|)))
  }

  /**
   * `read_trims`: try the candidate lines in order, and scan the first one
   * that matches.
   */
  method ReadTrims(lines: seq<string>, reversed: bool, tag: string, lineNumber: int)
    returns (r: Result<seq<FrameRange>, ReadError>)
    ensures r == ReadTrimsSpec(lines, reversed, tag, lineNumber)
  {
    var order := ScanOrder(Candidates(lines, lineNumber), reversed);
    ghost var m := Matching(order, tag);
    var i := 0;
    while i < |order|
      invariant i <= |order|
      invariant forall j :: 0 <= j < i ==> !m[j]
    {
      if LineMatches(order[i], tag) {
        FirstTrueAt(m, i);
        var found := ScanLine(order[i]);
        return Ok(RangesOf(found));
      }
      i := i + 1;
    }
    assert FirstTrue(m).None?;
    return Err(NotFound(tag, lineNumber));
  }
}
