/**
 * The recogniser behind `read_trims`: the pattern
 * `^[^#]*\bTrim\s*\(\s*(\d+)\s*,\s*(-?\d+)\s*\)`, matched case-insensitively.
 * The text after `Trim` is read by the automaton that pattern denotes (it
 * never needs to back up); a search of the prefix `line[:hi]` is a search
 * of `line` that reads nothing at or after `hi`.
 */
module TrimScan {
  import opened Text
  import opened Results

  /**
   * One `Trim(a, b)` call: where its name starts, where its first number
   * starts (the regex's `start(1)`), its two numbers, and the index just
   * after its closing parenthesis.
   */
  datatype Call = Call(pos: nat, numStart: nat, first: nat, second: int, end: nat)

  /** The characters a call can contain after its name. */
  predicate InCallBody(c: char) {
    IsSpace(c) || IsDigit(c) || c == '(' || c == ')' || c == ',' || c == '-'
  }

  /**
   * How much of `\s*\(\s*(\d+)\s*,\s*(-?\d+)\s*\)` has been read: `start` is
   * where the first number began, `v` its value so far, `w` the second's.
   */
  datatype Phase =
    | Open                                            // \s*\(
    | First                                           // \s*  before (\d+)
    | FirstDigits(start: nat, v: nat)                 // inside (\d+)
    | Comma(start: nat, v: nat)                       // \s*,
    | Second(start: nat, v: nat)                      // \s*  before (-?\d+)
    | Minus(start: nat, v: nat)                       // after the '-'
    | SecondDigits(start: nat, v: nat, neg: bool, w: nat)  // inside (-?\d+)
    | Close(start: nat, v: nat, neg: bool, w: nat)         // \s*\)

  /** What one character does to the automaton. */
  datatype Move = Next(p: Phase) | Accept | Reject

  /** The move on character `c` read at index `k`. */
  function Step(ph: Phase, c: char, k: nat): (m: Move)
    ensures m != Reject ==> InCallBody(c)
    ensures m.Accept? ==> c == ')' && (ph.SecondDigits? || ph.Close?)
    ensures m.Next? && (ph.Open? || ph.First?) ==> m.p.Open? || m.p.First? || m.p.start == k
    ensures m.Next? && !ph.Open? && !ph.First? ==> !m.p.Open? && !m.p.First? && m.p.start == ph.start
    ensures m.Next? && ph.Open? ==> m.p.Open? || m.p.First?
  {
    match ph
    case Open =>
      if IsSpace(c) then Next(Open) else if c == '(' then Next(First) else Reject
    case First =>
      if IsSpace(c) then Next(First) else if IsDigit(c) then Next(FirstDigits(k, DigitValue(c))) else Reject
    case FirstDigits(st, v) =>
      if IsDigit(c) then Next(FirstDigits(st, v * 10 + DigitValue(c)))
      else if IsSpace(c) then Next(Comma(st, v))
      else if c == ',' then Next(Second(st, v))
      else Reject
    case Comma(st, v) =>
      if IsSpace(c) then Next(Comma(st, v)) else if c == ',' then Next(Second(st, v)) else Reject
    case Second(st, v) =>
      if IsSpace(c) then Next(Second(st, v))
      else if c == '-' then Next(Minus(st, v))
      else if IsDigit(c) then Next(SecondDigits(st, v, false, DigitValue(c)))
      else Reject
    case Minus(st, v) =>
      if IsDigit(c) then Next(SecondDigits(st, v, true, DigitValue(c))) else Reject
    case SecondDigits(st, v, neg, w) =>
      if IsDigit(c) then Next(SecondDigits(st, v, neg, w * 10 + DigitValue(c)))
      else if IsSpace(c) then Next(Close(st, v, neg, w))
      else if c == ')' then Accept
      else Reject
    case Close(st, v, neg, w) =>
      if IsSpace(c) then Next(Close(st, v, neg, w)) else if c == ')' then Accept else Reject
  }

  /** Where the first number starts is known once the automaton is past `Open` and `First`. */
  predicate Placed(ph: Phase, k: nat) {
    ph.Open? || ph.First? || ph.start < k
  }

  /**
   * Run the automaton from index `k` within `s[..hi]`, for a call whose name
   * starts at `i`; the call ends just after the `)` that accepts.
   */
  function Run(s: string, k: nat, hi: nat, i: nat, ph: Phase): (r: Option<Call>)
    requires k <= hi <= |s| && Placed(ph, k)
    ensures r.Some? ==> r.value.pos == i && k < r.value.end <= hi
    ensures r.Some? ==> r.value.numStart < r.value.end
    ensures r.Some? && ph.Open? ==> k < r.value.numStart
    ensures r.Some? && ph.First? ==> k <= r.value.numStart
    ensures r.Some? && !ph.Open? && !ph.First? ==> r.value.numStart == ph.start
    decreases hi - k
  {
    if k == hi then None
    else
      match Step(ph, s[k], k)
      case Reject => None
      case Accept =>
        Some(Call(i, ph.start, ph.v, if ph.neg then 0 - ph.w else ph.w, k + 1))
      case Next(p) => Run(s, k + 1, hi, i, p)
  }

  /** `Trim` in any case at `i`. */
  predicate NameAt(s: string, i: nat)
    requires i + 4 <= |s|
  {
    Lower(s[i]) == 't' && Lower(s[i + 1]) == 'r' && Lower(s[i + 2]) == 'i' && Lower(s[i + 3]) == 'm'
  }

  /**
   * The call whose name starts at `i`, if the pattern matches there within
   * `s[..hi]`: a word boundary, `Trim` in any case, then the parenthesised pair.
   */
  function CallAt(s: string, i: nat, hi: nat): (r: Option<Call>)
    requires hi <= |s|
    ensures r.Some? ==> r.value.pos == i && i + 4 < r.value.numStart < r.value.end <= hi
  {
    if i + 4 > hi || !NameAt(s, i) || (i > 0 && IsWordChar(s[i - 1])) then None
    else Run(s, i + 4, hi, i, Open)
  }

  /** Index of the first '#' in `s[..hi]`, or `hi`: only text before it is scanned (`^[^#]*`). */
  function FirstHash(s: string, hi: nat): (h: nat)
    requires hi <= |s|
    ensures h <= hi && (h < hi ==> s[h] == '#')
    ensures forall q :: 0 <= q < h ==> s[q] != '#'
  {
    SkipToHash(s, 0, hi)
  }

  /** Where calls start within `s[..hi]`: entry `i` is the call at `i`, if any. */
  function CallTable(s: string, hi: nat): (t: seq<Option<Call>>)
    requires hi <= |s|
    ensures |t| == hi && forall i :: 0 <= i < hi ==> t[i] == CallAt(s, i, hi)
  {
    seq(hi, i requires 0 <= i < hi => CallAt(s, i, hi))
  }

  /** The last index below `j` where `t` holds a call. */
  function LastBelow(t: seq<Option<Call>>, j: nat): (k: Option<nat>)
    requires j <= |t|
    ensures k.Some? ==> k.value < j && t[k.value].Some?
  {
    if j == 0 then None
    else if t[j - 1].Some? then Some(j - 1)
    else LastBelow(t, j - 1)
  }

  /** No entry between the one `LastBelow` finds and `j` holds a call. */
  lemma {:induction false} LastBelowIsLast(t: seq<Option<Call>>, j: nat, q: nat)
    requires q < j <= |t|
    requires LastBelow(t, j).None? || LastBelow(t, j).value < q
    ensures t[q].None?
  {
    if q < j - 1 && t[j - 1].None? {
      LastBelowIsLast(t, j - 1, q);
    }
  }

  /**
   * `re_trim.search(s[:hi])`: the greedy `[^#]*` backs off from the first
   * '#' until a call matches, so the result is the last call that starts
   * before any '#'.
   */
  function LastCallIn(s: string, hi: nat): (r: Option<Call>)
    requires hi <= |s|
    ensures r.Some? ==> r.value.pos < FirstHash(s, hi) && r.value.end <= hi
    ensures r.Some? ==> CallAt(s, r.value.pos, hi) == r
  {
    var t := CallTable(s, hi);
    match LastBelow(t, FirstHash(s, hi))
    case None => None
    case Some(k) => t[k]
  }

  /** Maximality of `LastCallIn`: no call starts after it and before the first '#'. */
  lemma LastCallInIsLast(s: string, hi: nat, q: nat)
    requires hi <= |s| && q < FirstHash(s, hi)
    requires LastCallIn(s, hi).None? || LastCallIn(s, hi).value.pos < q
    ensures CallAt(s, q, hi).None?
  {
    LastBelowIsLast(CallTable(s, hi), FirstHash(s, hi), q);
  }

  /** `re_trim.search(p)` on a whole string. */
  function LastCall(p: string): Option<Call> {
    LastCallIn(p, |p|)
  }

  // ----- A search of a shorter prefix -----

  /** Run within a smaller bound: the same call if it ends by that bound, otherwise none. */
  lemma {:induction false} RunBound(s: string, k: nat, hi: nat, hi': nat, i: nat, ph: Phase)
    requires k <= hi <= hi' <= |s| && Placed(ph, k)
    ensures Run(s, k, hi, i, ph) ==
      if Run(s, k, hi', i, ph).Some? && Run(s, k, hi', i, ph).value.end <= hi then Run(s, k, hi', i, ph) else None
    decreases hi - k
  {
    if k < hi {
      var m := Step(ph, s[k], k);
      if m.Next? {
        RunBound(s, k + 1, hi, hi', i, m.p);
      }
    }
  }

  /**
   * A call found within `s[..hi']` is found within `s[..hi]` exactly when it
   * ends by `hi`; nothing else is found there.
   */
  lemma CallAtBound(s: string, i: nat, hi: nat, hi': nat)
    requires hi <= hi' <= |s|
    ensures CallAt(s, i, hi) ==
      if CallAt(s, i, hi').Some? && CallAt(s, i, hi').value.end <= hi then CallAt(s, i, hi') else None
  {
    if i + 4 <= hi {
      RunBound(s, i + 4, hi, hi', i, Open);
    }
  }

  /** The run reads nothing at or after its bound. */
  lemma {:induction false} RunPrefix(s: string, k: nat, hi: nat, n: nat, i: nat, ph: Phase)
    requires k <= hi <= n <= |s| && Placed(ph, k)
    ensures Run(s[..n], k, hi, i, ph) == Run(s, k, hi, i, ph)
    decreases hi - k
  {
    if k < hi {
      var m := Step(ph, s[k], k);
      if m.Next? {
        RunPrefix(s, k + 1, hi, n, i, m.p);
      }
    }
  }

  /** Whether a call starts at `i` within `s[..hi]` does not depend on what follows `hi`. */
  lemma CallAtPrefix(s: string, i: nat, hi: nat, n: nat)
    requires hi <= n <= |s|
    ensures CallAt(s[..n], i, hi) == CallAt(s, i, hi)
  {
    if i + 4 <= hi {
      RunPrefix(s, i + 4, hi, n, i, Open);
    }
  }

  lemma CallTablePrefix(s: string, hi: nat, n: nat)
    requires hi <= n <= |s|
    ensures CallTable(s[..n], hi) == CallTable(s, hi)
  {
    forall i | 0 <= i < hi {
      CallAtPrefix(s, i, hi, n);
    }
  }

  /** Searching the string `s[:hi]` is searching `s` with the bound `hi`. */
  lemma LastCallSlice(s: string, hi: nat)
    requires hi <= |s|
    ensures LastCall(s[..hi]) == LastCallIn(s, hi)
  {
    SkipToHashPrefix(s, 0, hi, hi);
    CallTablePrefix(s, hi, hi);
  }

  // ----- Calls do not overlap -----

  /** Everything a run reads is a character a call can contain. */
  lemma {:induction false} RunChars(s: string, k: nat, hi: nat, i: nat, ph: Phase)
    requires k <= hi <= |s| && Placed(ph, k) && Run(s, k, hi, i, ph).Some?
    ensures forall x :: k <= x < Run(s, k, hi, i, ph).value.end ==> InCallBody(s[x])
    decreases hi - k
  {
    var m := Step(ph, s[k], k);
    if m.Next? {
      RunChars(s, k + 1, hi, i, m.p);
    }
  }

  /** Past its first letter, a call holds no `t` or `T`, so no other call starts inside it. */
  lemma CallChars(s: string, i: nat, hi: nat)
    requires hi <= |s| && CallAt(s, i, hi).Some?
    ensures forall k :: i < k < CallAt(s, i, hi).value.end ==> Lower(s[k]) != 't'
  {
    RunChars(s, i + 4, hi, i, Open);
    assert NameAt(s, i);
    forall k | i < k < CallAt(s, i, hi).value.end
      ensures Lower(s[k]) != 't'
    {
      if k < i + 4 {
        assert k == i + 1 || k == i + 2 || k == i + 3;
      } else {
        assert InCallBody(s[k]);
        assert Lower(s[k]) == s[k];
      }
    }
  }

  /** Of two calls, the earlier one ends before the later one starts. */
  lemma CallsDisjoint(s: string, q: nat, p: nat, hi: nat)
    requires hi <= |s| && q < p
    requires CallAt(s, q, hi).Some? && CallAt(s, p, hi).Some?
    ensures CallAt(s, q, hi).value.end <= p
  {
    CallChars(s, q, hi);
  }

  // ----- The scan of one line -----

  /**
   * The calls `read_trims` collects from `s[..hi]`, in the order it finds
   * them: the last call, then the calls of the prefix that ends where the
   * last call's first number starts.
   */
  function CallsFound(s: string, hi: nat): seq<Call>
    requires hi <= |s|
    decreases hi
  {
    match LastCallIn(s, hi)
    case None => []
    case Some(c) => [c] + CallsFound(s, c.numStart)
  }

  /**
   * The `while` loop of `read_trims`: search `line[:end]`, record the
   * match, and cut `end` back to the start of its first number.
   */
  method ScanLine(line: string) returns (found: seq<Call>)
    ensures found == CallsFound(line, |line|)
  {
    found := [];
    var end: nat := |line|;
    while true
      invariant end <= |line|
      invariant found + CallsFound(line, end) == CallsFound(line, |line|)
      decreases end
    {
      LastCallSlice(line, end);
      var res := LastCall(line[..end]);
      if res.None? {
        break;
      }
      found := found + [res.value];
      end := res.value.numStart;
    }
  }

  // ----- The scan over a table of matches -----

  /** Each entry of `t` is a call at that index that ends within `t`. */
  predicate WellPlaced(t: seq<Option<Call>>) {
    forall i :: 0 <= i < |t| && t[i].Some? ==>
      t[i].value.pos == i && i < t[i].value.numStart < t[i].value.end <= |t|
  }

  /** No call of `t` starts inside an earlier one. */
  predicate Disjoint(t: seq<Option<Call>>) {
    forall q, p :: 0 <= q < p < |t| && t[q].Some? && t[p].Some? ==> t[q].value.end <= p
  }

  /** The calls of `t` that end by `hi`: what a search of the first `hi` characters sees. */
  function Within(t: seq<Option<Call>>, hi: nat): (u: seq<Option<Call>>)
    requires hi <= |t|
    ensures |u| == hi
    ensures forall i :: 0 <= i < hi ==> u[i] == if t[i].Some? && t[i].value.end <= hi then t[i] else None
  {
    seq(hi, i requires 0 <= i < hi => if t[i].Some? && t[i].value.end <= hi then t[i] else None)
  }

  /**
   * The scan loop over the table `t` of a whole line whose first '#' is at
   * `h`: the last call that starts before `h` and ends by `hi`, then the
   * scan bounded by that call's first number.
   */
  function Found(t: seq<Option<Call>>, h: nat, hi: nat): seq<Call>
    requires WellPlaced(t) && hi <= |t|
    decreases hi
  {
    var u := Within(t, hi);
    match LastBelow(u, if h < hi then h else hi)
    case None => []
    case Some(k) => [t[k].value] + Found(t, h, t[k].value.numStart)
  }

  lemma {:induction false} FoundSound(t: seq<Option<Call>>, h: nat, hi: nat)
    requires WellPlaced(t) && hi <= |t|
    ensures forall k :: 0 <= k < |Found(t, h, hi)| ==>
      var c := Found(t, h, hi)[k];
      c.pos < h && c.pos < c.end <= hi && t[c.pos] == Some(c)
    decreases hi
  {
    var f := Found(t, h, hi);
    var u := Within(t, hi);
    var m := if h < hi then h else hi;
    if LastBelow(u, m).Some? {
      var j := LastBelow(u, m).value;
      var c := t[j].value;
      FoundSound(t, h, c.numStart);
      var rest := Found(t, h, c.numStart);
      assert f == [c] + rest;
      forall k | 0 <= k < |f|
        ensures f[k].pos < h && f[k].pos < f[k].end <= hi && t[f[k].pos] == Some(f[k])
      {
        if k > 0 {
          assert f[k] == rest[k - 1];
        }
      }
    }
  }

  lemma {:induction false} FoundOrdered(t: seq<Option<Call>>, h: nat, hi: nat)
    requires WellPlaced(t) && Disjoint(t) && hi <= |t|
    ensures forall k :: 0 < k < |Found(t, h, hi)| ==> Found(t, h, hi)[k].end <= Found(t, h, hi)[k - 1].pos
    decreases hi
  {
    var f := Found(t, h, hi);
    var u := Within(t, hi);
    var m := if h < hi then h else hi;
    if LastBelow(u, m).Some? {
      var j := LastBelow(u, m).value;
      var c := t[j].value;
      FoundOrdered(t, h, c.numStart);
      FoundSound(t, h, c.numStart);
      var rest := Found(t, h, c.numStart);
      assert f == [c] + rest;
      forall k | 0 < k < |f|
        ensures f[k].end <= f[k - 1].pos
      {
        if k == 1 {
          assert t[rest[0].pos] == Some(rest[0]);
        } else {
          assert f[k] == rest[k - 1] && f[k - 1] == rest[k - 2];
        }
      }
    }
  }

  lemma {:induction false} FoundComplete(t: seq<Option<Call>>, h: nat, hi: nat, q: nat)
    requires WellPlaced(t) && Disjoint(t) && hi <= |t|
    requires q < h && q < |t| && t[q].Some? && t[q].value.end <= hi
    ensures exists k :: 0 <= k < |Found(t, h, hi)| && Found(t, h, hi)[k].pos == q
    decreases hi
  {
    var f := Found(t, h, hi);
    var u := Within(t, hi);
    var m := if h < hi then h else hi;
    if LastBelow(u, m).None? {
      LastBelowIsLast(u, m, q);
    } else {
      var j := LastBelow(u, m).value;
      var c := t[j].value;
      var rest := Found(t, h, c.numStart);
      assert f == [c] + rest;
      if q == j {
        assert f[0].pos == q;
      } else if q > j {
        LastBelowIsLast(u, m, q);
      } else {
        FoundComplete(t, h, c.numStart, q);
        var k :| 0 <= k < |rest| && rest[k].pos == q;
        assert f[k + 1].pos == q;
      }
    }
  }

  // ----- The table of a line -----

  lemma CallTablePlaced(s: string)
    ensures WellPlaced(CallTable(s, |s|))
  {
  }

  lemma CallTableDisjoint(s: string)
    ensures Disjoint(CallTable(s, |s|))
  {
    var t := CallTable(s, |s|);
    forall q, p | 0 <= q < p < |t| && t[q].Some? && t[p].Some?
      ensures t[q].value.end <= p
    {
      CallsDisjoint(s, q, p, |s|);
    }
  }

  /** The table of `s[..hi]`'s search is the whole line's table restricted to calls ending by `hi`. */
  lemma CallTableWithin(s: string, hi: nat)
    requires hi <= |s|
    ensures CallTable(s, hi) == Within(CallTable(s, |s|), hi)
  {
    forall i | 0 <= i < hi {
      CallAtBound(s, i, hi, |s|);
    }
  }

  /** `CallsFound` is the table scan of the whole line's table. */
  lemma {:induction false} CallsFoundIsFound(s: string, hi: nat)
    requires hi <= |s|
    ensures WellPlaced(CallTable(s, |s|)) && CallsFound(s, hi) == Found(CallTable(s, |s|), FirstHash(s, |s|), hi)
    decreases hi
  {
    var t := CallTable(s, |s|);
    var h := FirstHash(s, |s|);
    var m := if h < hi then h else hi;
    CallTablePlaced(s);
    CallTableWithin(s, hi);
    SkipToHashBound(s, 0, hi, |s|);
    assert FirstHash(s, hi) == m;
    var u := Within(t, hi);
    match LastBelow(u, m)
    case None =>
      assert LastCallIn(s, hi).None?;
    case Some(k) =>
      assert LastCallIn(s, hi) == u[k] == t[k];
      CallsFoundIsFound(s, t[k].value.numStart);
  }

  /** Every call the scan of a line finds is a call of the line that starts before its first '#'. */
  lemma CallsFoundSound(s: string)
    ensures forall k :: 0 <= k < |CallsFound(s, |s|)| ==>
      var c := CallsFound(s, |s|)[k];
      c.pos < FirstHash(s, |s|) && CallAt(s, c.pos, |s|) == Some(c)
  {
    CallTablePlaced(s);
    CallsFoundIsFound(s, |s|);
    FoundSound(CallTable(s, |s|), FirstHash(s, |s|), |s|);
  }

  /** The scan finds calls right to left, each ending before the one found just before it starts. */
  lemma CallsFoundOrdered(s: string)
    ensures forall k :: 0 < k < |CallsFound(s, |s|)| ==>
      CallsFound(s, |s|)[k].end <= CallsFound(s, |s|)[k - 1].pos
  {
    CallTablePlaced(s);
    CallTableDisjoint(s);
    CallsFoundIsFound(s, |s|);
    FoundOrdered(CallTable(s, |s|), FirstHash(s, |s|), |s|);
  }

  /** The scan misses no call that starts before the line's first '#'. */
  lemma CallsFoundComplete(s: string, q: nat)
    requires q < FirstHash(s, |s|) && CallAt(s, q, |s|).Some?
    ensures exists k :: 0 <= k < |CallsFound(s, |s|)| && CallsFound(s, |s|)[k].pos == q
  {
    CallTablePlaced(s);
    CallTableDisjoint(s);
    CallsFoundIsFound(s, |s|);
    FoundComplete(CallTable(s, |s|), FirstHash(s, |s|), |s|, q);
  }
}
