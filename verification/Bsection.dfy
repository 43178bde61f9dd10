/** modules/bsection/files/bsection.py: the section of a file whose lines start with a prefix,
    found by binary search over byte offsets. */
module Bsection {
  import opened Common
  import opened Text

  // ---------------------------------------------------------------- what is searched for

  predicate Matches(line: string, needle: string)
  {
    |needle| <= |line| && line[..|needle|] == needle
  }

  /** The obvious answer: keep the lines that start with the needle. */
  function Grep(lines: seq<string>, needle: string): seq<string>
  {
    if lines == [] then []
    else (if Matches(lines[0], needle) then [lines[0]] else []) + Grep(lines[1..], needle)
  }

  /** Every line, its newline included, has the `n` bytes that are compared. */
  ghost predicate LongEnough(data: string, n: nat)
  {
    && (forall s :: IsStart(data, s) ==> s + n <= |data|)
    && forall s: nat {:trigger LineEnd(data, s)} :: IsStart(data, s) ==> s + n <= LineEnd(data, s)
  }

  /** The compared part of the line at `s`. */
  function Key(data: string, s: nat, n: nat): string
    requires s + n <= |data|
  {
    data[s..s + n]
  }

  ghost predicate Sorted(data: string, n: nat)
    requires LongEnough(data, n)
  {
    forall s, t :: IsStart(data, s) && IsStart(data, t) && s <= t ==> LexLe(Key(data, s, n), Key(data, t, n))
  }

  /** What check_needle answers: 0 on a match, -1 if the needle sorts before the line, 1 if after. */
  function Check(data: string, s: nat, needle: string): int
    requires s + |needle| <= |data|
  {
    var key := Key(data, s, |needle|);
    if key == needle then 0 else if LexLt(needle, key) then -1 else 1
  }

  /** The files the tool is for: not empty, and with lines long enough and sorted. */
  ghost predicate Searchable(data: string, needle: string)
  {
    data != "" && LongEnough(data, |needle|) && Sorted(data, |needle|)
  }

  /** An empty first line with something after it: find_line_start never answers offset 1. */
  predicate BlankFirst(data: string)
  {
    |data| > 1 && data[0] == NEWLINE
  }

  /** A final line of one byte, which find_needle never looks at. */
  predicate LoneLastByte(data: string, s: int)
  {
    s == |data| - 1 && s > 0
  }

  lemma CheckDescends(data: string, needle: string, s: nat, t: nat)
    requires Searchable(data, needle)
    requires IsStart(data, s) && IsStart(data, t) && s <= t
    ensures Check(data, s, needle) >= Check(data, t, needle)
  {
    var a, b := Key(data, s, |needle|), Key(data, t, |needle|);
    assert LexLe(a, b);
    if LexLe(needle, a) { LexTransitive(needle, a, b); }
    LexTotal(needle, a);
    LexTotal(needle, b);
    if LexLe(b, needle) { LexTransitive(a, b, needle); }
    if LexLe(needle, a) && LexLe(a, needle) { LexAntisymmetric(a, needle); }
    if LexLe(needle, b) && LexLe(b, needle) { LexAntisymmetric(b, needle); }
  }

  lemma CheckIsMatch(data: string, needle: string, s: nat)
    requires IsStart(data, s) && s + |needle| <= LineEnd(data, s)
    ensures Check(data, s, needle) == 0 <==> Matches(data[s..LineEnd(data, s)], needle)
  {
    assert data[s..LineEnd(data, s)][..|needle|] == Key(data, s, |needle|);
  }

  // ---------------------------------------------------------------- the file object

  class File {
    const data: string
    var pos: nat

    constructor (data: string)
      ensures this.data == data && pos == 0
    {
      this.data, pos := data, 0;
    }

    method Seek(p: nat)
      modifies this
      ensures pos == p
    {
      pos := p;
    }

    /** One byte, or none at the end of the file. */
    method Read1() returns (c: string)
      modifies this
      ensures old(pos) < |data| ==> c == [data[old(pos)]] && pos == old(pos) + 1
      ensures old(pos) >= |data| ==> c == "" && pos == old(pos)
    {
      if pos < |data| {
        c := [data[pos]];
        pos := pos + 1;
      } else {
        c := "";
      }
    }

    method ReadLine() returns (line: string)
      modifies this
      ensures old(pos) < |data| ==> pos == LineEnd(data, old(pos)) && line == data[old(pos)..pos]
      ensures old(pos) >= |data| ==> line == "" && pos == old(pos)
    {
      if pos < |data| {
        line := data[pos..LineEnd(data, pos)];
        pos := LineEnd(data, pos);
      } else {
        line := "";
      }
    }
  }

  /** Offset of the last byte; the file is left at its start. An empty file raises OSError. */
  method MaxPos(f: File) returns (p: nat)
    requires f.data != ""
    modifies f
    ensures f.pos == 0 && p == |f.data| - 1
  {
    f.Seek(|f.data| - 1);
    p := f.pos;
    f.Seek(0);
  }

  /** The backward byte scan. It answers the start of the current line, except that a newline in
      the very first byte is not seen: the second line then counts as part of the first. */
  method FindLineStart(f: File) returns (p: nat)
    requires f.pos < |f.data|
    modifies f
    ensures p == f.pos
    ensures var s := LineStart(f.data, old(f.pos)); p == if s == 1 then 0 else s
  {
    var origPos, pos := f.pos, f.pos;
    while pos > 0
      invariant f.pos == pos <= origPos < |f.data|
      invariant forall i :: 0 < i && pos < i < origPos ==> f.data[i] != NEWLINE
    {
      var c := f.Read1();
      f.Seek(pos);
      if pos != origPos && c == [NEWLINE] {
        f.Seek(pos + 1);
        break;
      }
      f.Seek(pos - 1);
      pos := f.pos;
    }
    p := f.pos;
    ghost var s := LineStart(f.data, origPos);
    assert s > 1 ==> f.data[s - 1] == NEWLINE;
    assert p > 0 ==> IsStart(f.data, p);
  }

  method PeekLine(f: File) returns (line: string)
    requires f.pos < |f.data|
    modifies f
    ensures f.pos == old(f.pos)
    ensures line == f.data[f.pos..LineEnd(f.data, f.pos)]
  {
    var pos := f.pos;
    line := f.ReadLine();
    f.Seek(pos);
  }

  /** The length requirement is the one the program asserts. */
  method CheckNeedle(f: File, needle: string) returns (check: int)
    requires f.pos < |f.data| && f.pos + |needle| <= LineEnd(f.data, f.pos)
    modifies f
    ensures f.pos == old(f.pos)
    ensures check == Check(f.data, f.pos, needle)
  {
    var line := PeekLine(f);
    line := if |line| <= |needle| then line else line[..|needle|];
    assert |line| >= |needle|;
    assert line == Key(f.data, f.pos, |needle|);
    if line == needle { return 0; }
    if LexLt(needle, line) { return -1; }
    return 1;
  }

  // ---------------------------------------------------------------- the three searches

  /** Answers of check_needle go down along the file. */
  ghost predicate Descending(data: string, needle: string)
  {
    && LongEnough(data, |needle|)
    && forall s, t :: IsStart(data, s) && IsStart(data, t) && s <= t ==> Check(data, s, needle) >= Check(data, t, needle)
  }

  lemma SearchableDescends(data: string, needle: string)
    requires Searchable(data, needle)
    ensures Descending(data, needle)
  {
    forall s, t | IsStart(data, s) && IsStart(data, t) && s <= t
      ensures Check(data, s, needle) >= Check(data, t, needle)
    {
      CheckDescends(data, needle, s, t);
    }
  }

  ghost predicate FirstHit(data: string, needle: string)
    requires LongEnough(data, |needle|)
  {
    IsStart(data, 0) && Check(data, 0, needle) == 0
  }

  /** Behind an empty first line that sorts before the needle, the second line matches. */
  ghost predicate SecondHit(data: string, needle: string)
    requires LongEnough(data, |needle|)
  {
    BlankFirst(data) && IsStart(data, 0) && IsStart(data, 1) && Check(data, 0, needle) > 0 && Check(data, 1, needle) == 0
  }

  /** Halving from `end` towards `lo`, a probe falls into the first two lines before one falls
      into another matching line. */
  ghost predicate Blind(data: string, needle: string, lo: nat, end: nat)
    requires LongEnough(data, |needle|) && BlankFirst(data) && lo <= 1 && end < |data|
    decreases end
  {
    var mid := (lo + end) / 2;
    mid < LineEnd(data, 1) ||
    (var p := LineStart(data, mid); Check(data, p, needle) != 0 && Blind(data, needle, lo, p))
  }

  /** A probe at the middle, sent back to the start of its line as find_line_start does. */
  lemma Probe(data: string, needle: string, lo: nat, end: nat, pos: nat)
    requires LongEnough(data, |needle|) && BlankFirst(data) && lo <= 1 && end < |data|
    requires var s := LineStart(data, (lo + end) / 2); pos == if s == 1 then 0 else s
    ensures pos == 0 <==> (lo + end) / 2 < LineEnd(data, 1)
    ensures pos == 0 ==> Blind(data, needle, lo, end)
    ensures pos != 0 ==> 1 < pos <= (lo + end) / 2 && IsStart(data, pos)
    ensures pos != 0 ==> (Blind(data, needle, lo, end) <==> Check(data, pos, needle) != 0 && Blind(data, needle, lo, pos))
  {
    assert IsStart(data, 1);
  }

  /** No line that starts at `p` or before matches. */
  ghost predicate NoneUpTo(data: string, needle: string, p: int)
    requires LongEnough(data, |needle|)
  {
    forall t :: IsStart(data, t) && t <= p ==> Check(data, t, needle) != 0
  }

  ghost predicate NoneFrom(data: string, needle: string, p: int)
    requires LongEnough(data, |needle|)
  {
    forall t :: IsStart(data, t) && p <= t ==> Check(data, t, needle) != 0
  }

  /** Nothing but a one-byte final line matches. */
  ghost predicate OnlyLoneMatches(data: string, needle: string)
    requires LongEnough(data, |needle|)
  {
    forall t :: IsStart(data, t) && Check(data, t, needle) == 0 ==> LoneLastByte(data, t)
  }

  /** Where find_line_start sends a probe at the middle of `lo` and `hi` back to. */
  ghost predicate ProbedAt(data: string, lo: nat, hi: nat, pos: nat)
  {
    (lo + hi) / 2 < |data| && var s := LineStart(data, (lo + hi) / 2); pos == if s == 1 then 0 else s
  }

  /** What find_needle knows: no line before `start` or from `end` on matches. */
  ghost predicate Narrowed(data: string, needle: string, start: nat, end: nat, oldPos: int)
    requires LongEnough(data, |needle|)
  {
    && start <= end < |data|
    && IsStart(data, start) && start != 1 && (start == 0 || Check(data, start, needle) == 1)
    && (end == |data| - 1 || (IsStart(data, end) && Check(data, end, needle) == -1))
    && (oldPos == -1 ==> start == 0 && end == |data| - 1)
    && (oldPos == -1 || oldPos == start || oldPos == end)
    && (oldPos >= 0 ==> IsStart(data, oldPos) && Check(data, oldPos, needle) != 0)
    && (SecondHit(data, needle) ==> start == 0 && Blind(data, needle, 0, |data| - 1) == Blind(data, needle, 0, end))
  }

  lemma NarrowEnd(data: string, needle: string, start: nat, end: nat, oldPos: int, pos: nat)
    requires Descending(data, needle) && Narrowed(data, needle, start, end, oldPos) && ProbedAt(data, start, end, pos)
    requires IsStart(data, pos) && Check(data, pos, needle) < 0
    ensures start <= pos <= end && Narrowed(data, needle, start, pos, pos)
  {
    if SecondHit(data, needle) { Probe(data, needle, 0, end, pos); }
  }

  lemma NarrowStart(data: string, needle: string, start: nat, end: nat, oldPos: int, pos: nat)
    requires Descending(data, needle) && Narrowed(data, needle, start, end, oldPos) && ProbedAt(data, start, end, pos)
    requires IsStart(data, pos) && Check(data, pos, needle) > 0
    ensures start <= pos <= end && Narrowed(data, needle, pos, end, pos)
  {
    if SecondHit(data, needle) { assert pos < 1; }
  }

  /** A matching line that a probe came to. */
  ghost predicate ProbeAnswers(data: string, needle: string, pos: nat)
    requires LongEnough(data, |needle|) && IsStart(data, 0)
  {
    && !LoneLastByte(data, pos)
    && (SecondHit(data, needle) ==> pos != 1 && !Blind(data, needle, 0, |data| - 1))
    && (BlankFirst(data) && |data| <= 3 && FirstHit(data, needle) ==> pos == 0)
  }

  /** Nothing up to `pos`, or from `end` on, matches. */
  ghost predicate Halted(data: string, needle: string, end: nat, pos: nat)
    requires LongEnough(data, |needle|) && IsStart(data, 0)
  {
    && NoneUpTo(data, needle, pos)
    && (end == |data| - 1 || NoneFrom(data, needle, end))
    && (SecondHit(data, needle) && |data| > 2 ==> pos == 0 && 1 < end && Blind(data, needle, 0, |data| - 1))
  }

  lemma FoundByProbe(data: string, needle: string, start: nat, end: nat, oldPos: int, pos: nat)
    requires Descending(data, needle) && Narrowed(data, needle, start, end, oldPos) && ProbedAt(data, start, end, pos)
    requires IsStart(data, pos) && Check(data, pos, needle) == 0
    ensures ProbeAnswers(data, needle, pos)
  {
    if SecondHit(data, needle) { Probe(data, needle, 0, end, pos); }
  }

  /** When the search has come to a halt, nothing up to there matches. */
  lemma NoProgress(data: string, needle: string, start: nat, end: nat, oldPos: int, pos: nat)
    requires Descending(data, needle) && Narrowed(data, needle, start, end, oldPos) && ProbedAt(data, start, end, pos)
    requires IsStart(data, pos) && oldPos == pos
    ensures Halted(data, needle, end, pos)
  {
    assert IsStart(data, 0);
    if SecondHit(data, needle) { Probe(data, needle, 0, end, pos); }
  }

  /** What a probe tells, by the answer of check_needle. */
  lemma NarrowStep(data: string, needle: string, start: nat, end: nat, oldPos: int, pos: nat)
    requires Searchable(data, needle) && Narrowed(data, needle, start, end, oldPos) && ProbedAt(data, start, end, pos) && IsStart(data, pos)
    ensures Check(data, pos, needle) < 0 ==> start <= pos <= end && Narrowed(data, needle, start, pos, pos)
    ensures Check(data, pos, needle) > 0 ==> start <= pos <= end && Narrowed(data, needle, pos, end, pos)
    ensures Check(data, pos, needle) == 0 ==> ProbeAnswers(data, needle, pos)
    ensures oldPos == pos ==> Halted(data, needle, end, pos)
  {
    SearchableDescends(data, needle);
    if oldPos == pos {
      NoProgress(data, needle, start, end, oldPos, pos);
    }
    if Check(data, pos, needle) < 0 {
      NarrowEnd(data, needle, start, end, oldPos, pos);
    } else if Check(data, pos, needle) > 0 {
      NarrowStart(data, needle, start, end, oldPos, pos);
    } else {
      FoundByProbe(data, needle, start, end, oldPos, pos);
    }
  }

  /** Any line that matches, or -1; only a one-byte final line can be missed. Behind an empty first
      line, the second one is answered only if the probes are blind to the others. */
  method FindNeedle(f: File, needle: string) returns (r: int)
    requires Searchable(f.data, needle)
    modifies f
    ensures r != -1 ==> IsStart(f.data, r) && Check(f.data, r, needle) == 0 && !LoneLastByte(f.data, r)
    ensures r == -1 ==> OnlyLoneMatches(f.data, needle)
    ensures SecondHit(f.data, needle) && |f.data| > 2 ==> (r == 1 <==> Blind(f.data, needle, 0, |f.data| - 1))
    ensures BlankFirst(f.data) && |f.data| <= 3 && FirstHit(f.data, needle) ==> r == 0
  {
    assert IsStart(f.data, 0);
    var start := 0;
    var end := MaxPos(f);
    var maxIdx, pos := end, 0;
    var oldPos: int := -1;
    while true
      invariant Narrowed(f.data, needle, start, end, oldPos)
      decreases end - start, if oldPos == start then 0 else 1
    {
      f.Seek((start + end) / 2);
      pos := FindLineStart(f);
      NarrowStep(f.data, needle, start, end, oldPos, pos);
      if oldPos == pos { break; }
      var check := CheckNeedle(f, needle);
      if check == 0 {
        return pos;
      } else if check < 0 {
        end := pos;
      } else {
        start := pos;
      }
      oldPos := pos;
    }
    r := ScanOn(f, needle, end, maxIdx);
  }

  lemma MissLine(data: string, needle: string, p: nat)
    requires LongEnough(data, |needle|) && IsStart(data, p) && NoneUpTo(data, needle, p)
    ensures NoneUpTo(data, needle, LineEnd(data, p) - 1)
    ensures var next := LineEnd(data, p);
            next < |data| ==> IsStart(data, next) && (Check(data, next, needle) != 0 ==> NoneUpTo(data, needle, next))
  {
    forall t | IsStart(data, t) && t < LineEnd(data, p) ensures Check(data, t, needle) != 0 {
      assert t <= p;
    }
    if LineEnd(data, p) < |data| {
      forall t | IsStart(data, t) && t <= LineEnd(data, p) && t != LineEnd(data, p) ensures Check(data, t, needle) != 0 {
        assert t <= p;
      }
    }
  }

  /** The scan may give up once it is past what can match. */
  lemma GivenUp(data: string, needle: string, end: nat, p: nat)
    requires data != "" && LongEnough(data, |needle|) && NoneUpTo(data, needle, p - 1)
    requires end == |data| - 1 || NoneFrom(data, needle, end)
    requires p >= end || p >= |data| - 1
    ensures p > 0 ==> OnlyLoneMatches(data, needle)
  {
  }

  /** The scan that closes find_needle: goes on from a line, up to which nothing matches. */
  method ScanOn(f: File, needle: string, end: nat, maxIdx: nat) returns (r: int)
    requires f.data != "" && maxIdx == |f.data| - 1 && LongEnough(f.data, |needle|)
    requires IsStart(f.data, f.pos) && NoneUpTo(f.data, needle, f.pos)
    requires end == maxIdx || NoneFrom(f.data, needle, end)
    modifies f
    ensures r != -1 ==> IsStart(f.data, r) && Check(f.data, r, needle) == 0 && !LoneLastByte(f.data, r)
    ensures r == -1 ==> OnlyLoneMatches(f.data, needle)
    ensures var next := LineEnd(f.data, old(f.pos));
            next < end && next < maxIdx && Check(f.data, next, needle) == 0 ==> r == next
  {
    while true
      invariant IsStart(f.data, f.pos) && NoneUpTo(f.data, needle, f.pos)
      invariant f.pos == old(f.pos) || f.pos >= LineEnd(f.data, old(f.pos))
      decreases |f.data| - f.pos
    {
      MissLine(f.data, needle, f.pos);
      var _ := f.ReadLine();
      if f.pos >= end || f.pos >= maxIdx {
        GivenUp(f.data, needle, end, f.pos);
        return -1;
      }
      var check := CheckNeedle(f, needle);
      if check == 0 { return f.pos; }
    }
  }

  /** The first line that matches, given one that does. */
  method LowerBound(f: File, needle: string, end: nat) returns (r: nat)
    requires Searchable(f.data, needle)
    requires IsStart(f.data, end) && Check(f.data, end, needle) == 0
    modifies f
    ensures r <= end && IsStart(f.data, r) && Check(f.data, r, needle) == 0
    ensures AllBefore(f.data, needle, r)
  {
    SearchableDescends(f.data, needle);
    var start, e := 0, end;
    var oldPos: int := -1;
    while true
      invariant start <= e <= end
      invariant IsStart(f.data, start) && start != 1 && (start == 0 || Check(f.data, start, needle) == 1)
      invariant IsStart(f.data, e)
      invariant oldPos == -1 || oldPos > e || (oldPos == start && Check(f.data, start, needle) == 1)
      decreases e - start, if oldPos == start then 0 else 1
    {
      f.Seek((start + e) / 2);
      var pos := FindLineStart(f);
      if oldPos == pos { break; }
      var check := CheckNeedle(f, needle);
      assert check >= 0;  // the program's "unsorted portion" assertion
      if check == 0 {
        if pos == 0 { return 0; }
        f.Seek(pos - 1);
        e := FindLineStart(f);
      } else {
        start := pos;
      }
      oldPos := pos;
    }
    r := ScanForMatch(f, needle, end);
  }

  /** Every line before offset `p` sorts before the needle. */
  ghost predicate AllBefore(data: string, needle: string, p: int)
    requires LongEnough(data, |needle|)
  {
    forall t :: IsStart(data, t) && t < p ==> Check(data, t, needle) > 0
  }

  lemma PassLine(data: string, needle: string, p: nat)
    requires LongEnough(data, |needle|) && IsStart(data, p) && AllBefore(data, needle, p) && Check(data, p, needle) > 0
    ensures AllBefore(data, needle, LineEnd(data, p))
  {
    forall t | IsStart(data, t) && t < LineEnd(data, p) ensures Check(data, t, needle) > 0 {
      assert t <= p;
    }
  }

  /** The scan that closes lower_bound. */
  method ScanForMatch(f: File, needle: string, ghost end: nat) returns (r: nat)
    requires LongEnough(f.data, |needle|) && IsStart(f.data, f.pos) && f.pos <= end
    requires IsStart(f.data, end) && Check(f.data, end, needle) == 0
    requires forall t :: IsStart(f.data, t) && t <= end ==> Check(f.data, t, needle) >= 0
    requires AllBefore(f.data, needle, f.pos)
    modifies f
    ensures r <= end && IsStart(f.data, r) && Check(f.data, r, needle) == 0
    ensures AllBefore(f.data, needle, r)
  {
    var check := CheckNeedle(f, needle);
    while check != 0
      invariant IsStart(f.data, f.pos) && f.pos <= end
      invariant check == Check(f.data, f.pos, needle)
      invariant AllBefore(f.data, needle, f.pos)
      decreases end - f.pos
    {
      EndsBefore(f.data, f.pos, end);
      PassLine(f.data, needle, f.pos);
      var _ := f.ReadLine();
      check := CheckNeedle(f, needle);
    }
    r := f.pos;
  }

  /** All lines that start in [lo, hi) match. */
  ghost predicate AllMatch(data: string, needle: string, lo: int, hi: int)
    requires LongEnough(data, |needle|)
  {
    forall t :: IsStart(data, t) && lo <= t < hi ==> Check(data, t, needle) == 0
  }

  lemma MatchLine(data: string, needle: string, lo: int, p: nat)
    requires LongEnough(data, |needle|) && IsStart(data, p) && AllMatch(data, needle, lo, p) && Check(data, p, needle) == 0
    ensures AllMatch(data, needle, lo, LineEnd(data, p))
  {
    forall t | IsStart(data, t) && lo <= t < LineEnd(data, p) ensures Check(data, t, needle) == 0 {
      assert t <= p;
    }
  }

  /** The scan that closes upper_bound. At the end of the file check_needle's assertion on the
      length of the line fails, which is told by `ok`. */
  method SkipMatching(f: File, needle: string) returns (ok: bool)
    requires LongEnough(f.data, |needle|) && IsStart(f.data, f.pos)
    requires needle != "" || Check(f.data, f.pos, needle) != 0
    modifies f
    ensures ok ==> IsStart(f.data, f.pos) && Check(f.data, f.pos, needle) != 0 && AllMatch(f.data, needle, old(f.pos), f.pos)
    ensures ok <==> !AllMatch(f.data, needle, old(f.pos), |f.data|)
    ensures old(f.pos) <= f.pos
    ensures Check(f.data, old(f.pos), needle) != 0 ==> f.pos == old(f.pos)
  {
    var check := CheckNeedle(f, needle);
    ok := true;
    while check == 0 && ok
      invariant old(f.pos) <= f.pos <= |f.data| && AllMatch(f.data, needle, old(f.pos), f.pos)
      invariant if ok then IsStart(f.data, f.pos) && check == Check(f.data, f.pos, needle) else f.pos == |f.data|
      invariant Check(f.data, old(f.pos), needle) != 0 ==> ok && f.pos == old(f.pos)
      decreases |f.data| - f.pos
    {
      MatchLine(f.data, needle, old(f.pos), f.pos);
      var _ := f.ReadLine();
      if f.pos == |f.data| {
        ok := false;
      } else {
        check := CheckNeedle(f, needle);
      }
    }
  }

  /** When upper_bound, started on the first or second line behind an empty first line, runs into
      one of the program's assertions. */
  ghost predicate Trips(data: string, needle: string, start: nat)
    requires LongEnough(data, |needle|)
  {
    BlankFirst(data) && start <= 1 &&
    if FirstHit(data, needle) then data == "\n\n" || data == "\n\n\n"
    else Blind(data, needle, 1, |data| - 1)
  }

  /** From the matching line at `start` all lines up to `r` match and all later ones sort after the
      needle. */
  ghost predicate IsUpper(data: string, needle: string, start: nat, r: nat)
    requires LongEnough(data, |needle|)
  {
    && start < r <= |data| && (r < |data| ==> IsStart(data, r))
    && AllMatch(data, needle, start, r)
    && forall t :: IsStart(data, t) && r <= t ==> Check(data, t, needle) < 0
  }

  /** What upper_bound knows: all lines from the given one up to `s` match, and none from `end`
      on; past the second line it is safe from tripping. */
  ghost predicate Grown(data: string, needle: string, start: nat, s: nat, end: nat, oldPos: int)
    requires LongEnough(data, |needle|)
  {
    && start <= s <= end < |data|
    && IsStart(data, s) && AllMatch(data, needle, start, s)
    && (end == |data| - 1 || (IsStart(data, end) && Check(data, end, needle) == -1))
    && oldPos != 1 && (oldPos < s || (oldPos == end && IsStart(data, end) && Check(data, end, needle) == -1))
    && (oldPos >= 0 ==> IsStart(data, oldPos) && Check(data, oldPos, needle) <= 0)
    && (s > 1 ==> !Trips(data, needle, start))
    && (BlankFirst(data) && s <= 1 && IsStart(data, 0) && Check(data, 0, needle) > 0 ==>
          s == 1 && (Trips(data, needle, start) <==> Blind(data, needle, 1, end)))
  }

  lemma GrowMatch(data: string, needle: string, start: nat, s: nat, end: nat, oldPos: int, pos: nat)
    requires Descending(data, needle) && IsStart(data, start) && Check(data, start, needle) == 0
    requires Grown(data, needle, start, s, end, oldPos) && ProbedAt(data, s, end, pos)
    requires IsStart(data, pos) && oldPos != pos && Check(data, pos, needle) == 0
    ensures var next := LineEnd(data, pos);
            && s <= next && (next == s ==> s == 1 && pos == 0)
            && (next < |data| ==> Grown(data, needle, start, next, end, pos))
            && (next == |data| ==> AllMatch(data, needle, start, next) && !Trips(data, needle, start))
  {
    var next := LineEnd(data, pos);
    MatchesBetween(data, needle, start, pos);
    if end < |data| - 1 { EndsBefore(data, pos, end); }
    if BlankFirst(data) && s <= 1 {
      Probe(data, needle, s, end, pos);
      if pos > 1 { ClearOfTrips(data, needle, start, s, end, oldPos, pos); }
    }
  }

  lemma MatchesBetween(data: string, needle: string, start: nat, pos: nat)
    requires Descending(data, needle) && IsStart(data, start) && Check(data, start, needle) == 0
    requires IsStart(data, pos) && Check(data, pos, needle) == 0
    ensures AllMatch(data, needle, start, LineEnd(data, pos))
  {
    forall t | IsStart(data, t) && start <= t < LineEnd(data, pos) ensures Check(data, t, needle) == 0 {
      assert t <= pos;
    }
  }

  lemma ClearOfTrips(data: string, needle: string, start: nat, s: nat, end: nat, oldPos: int, pos: nat)
    requires Descending(data, needle) && IsStart(data, start) && Check(data, start, needle) == 0
    requires Grown(data, needle, start, s, end, oldPos) && BlankFirst(data) && s <= 1
    requires 1 < pos <= (s + end) / 2 && IsStart(data, pos) && Check(data, pos, needle) == 0
    requires Blind(data, needle, s, end) <==> Check(data, pos, needle) != 0 && Blind(data, needle, s, pos)
    ensures !Trips(data, needle, start)
  {
    assert IsStart(data, 0);
  }

  lemma GrowMiss(data: string, needle: string, start: nat, s: nat, end: nat, oldPos: int, pos: nat)
    requires Descending(data, needle) && IsStart(data, start) && Check(data, start, needle) == 0
    requires Grown(data, needle, start, s, end, oldPos) && ProbedAt(data, s, end, pos)
    requires IsStart(data, pos) && Check(data, pos, needle) < 0
    ensures s <= pos <= end && Grown(data, needle, start, s, pos, pos)
  {
    assert IsStart(data, 0);
    if BlankFirst(data) && s <= 1 { Probe(data, needle, s, end, pos); }
  }

  /** The assertion on the order fails only behind an empty first line. */
  lemma GrowTrip(data: string, needle: string, start: nat, s: nat, end: nat, oldPos: int, pos: nat)
    requires Descending(data, needle) && IsStart(data, start) && Check(data, start, needle) == 0
    requires Grown(data, needle, start, s, end, oldPos) && ProbedAt(data, s, end, pos)
    requires IsStart(data, pos) && Check(data, pos, needle) > 0
    ensures Trips(data, needle, start)
  {
    assert IsStart(data, 0);
    if BlankFirst(data) && s <= 1 { Probe(data, needle, s, end, pos); }
  }

  ghost predicate Stopped(data: string, needle: string, start: nat, pos: nat)
    requires LongEnough(data, |needle|) && IsStart(data, pos)
  {
    && (Check(data, pos, needle) != 0 || needle != "")
    && (Trips(data, needle, start) <==> AllMatch(data, needle, pos, |data|))
    && AllMatch(data, needle, start, pos) && (Check(data, pos, needle) == 0 ==> pos <= start)
    && (if Check(data, pos, needle) != 0 then start < pos else BlankFirst(data) && pos == 0)
  }

  /** When the search has come to a halt, the next line that does not match is the result. */
  lemma GrowEnd(data: string, needle: string, start: nat, s: nat, end: nat, oldPos: int, pos: nat)
    requires Descending(data, needle) && IsStart(data, start) && Check(data, start, needle) == 0
    requires Grown(data, needle, start, s, end, oldPos) && ProbedAt(data, s, end, pos)
    requires IsStart(data, pos) && oldPos == pos && (BlankFirst(data) ==> needle != "")
    ensures Stopped(data, needle, start, pos)
  {
    assert IsStart(data, 0);
    if BlankFirst(data) && s <= 1 {
      Probe(data, needle, s, end, pos);
      if AllMatch(data, needle, 0, |data|) { BlankLines(data, needle); }
      if FirstHit(data, needle) && (data == "\n\n" || data == "\n\n\n") { BlankLinesMatch(data, needle); }
    }
  }

  /** Halving comes down to the second of lines that are all empty only in a very short file. */
  lemma BlankLines(data: string, needle: string)
    requires LongEnough(data, |needle|) && BlankFirst(data) && needle != "" && AllMatch(data, needle, 0, |data|)
    requires (1 + (|data| - 1)) / 2 < LineEnd(data, 1)
    ensures data == "\n\n" || data == "\n\n\n"
  {
    MatchIsKey(data, needle, 0);
    MatchIsKey(data, needle, 1);
    assert data[0..1] == needle == data[1..2];
    assert data[1] == data[1..2][0] == data[0..1][0] == NEWLINE;
    assert LineEnd(data, 1) == 2;
    if |data| == 3 {
      MatchIsKey(data, needle, 2);
      assert data[2] == data[2..3][0] == NEWLINE;
    }
  }

  lemma MatchIsKey(data: string, needle: string, s: nat)
    requires LongEnough(data, |needle|) && BlankFirst(data) && needle != "" && IsStart(data, s)
    requires AllMatch(data, needle, 0, |data|)
    ensures |needle| == 1 && s + 1 <= |data| && data[s..s + 1] == needle
  {
    assert IsStart(data, 0) && LineEnd(data, 0) == 1;
    assert Key(data, s, 1) == data[s..s + 1];
  }

  lemma BlankLinesMatch(data: string, needle: string)
    requires LongEnough(data, |needle|) && needle != "" && FirstHit(data, needle)
    requires data == "\n\n" || data == "\n\n\n"
    ensures AllMatch(data, needle, 0, |data|)
  {
    assert LineEnd(data, 0) == 1 && |needle| == 1;
    assert data[0..1] == Key(data, 0, 1) == needle;
    forall t | IsStart(data, t) ensures Check(data, t, needle) == 0 {
      assert data[t..t + 1] == "\n" == Key(data, t, 1);
    }
  }

  /** A round that moves neither `s` nor `end` comes closer to one that makes no progress. */
  function Stage(s: nat, end: nat, oldPos: int): nat
  {
    if s <= 1 && oldPos == 0 then 0 else if oldPos == end then 1 else 2
  }

  lemma GrowBegins(data: string, needle: string, start: nat)
    requires Searchable(data, needle) && IsStart(data, start) && Check(data, start, needle) == 0
    ensures Grown(data, needle, start, start, |data| - 1, -1)
  {
    SearchableDescends(data, needle);
    assert IsStart(data, 0);
  }

  /** What a round of upper_bound's search comes to: no progress, the end of the file, the
      program's "unsorted portion" assertion, or a narrower search. */
  datatype Round = Halt | AtEnd(r: nat) | Tripped | Narrower(s: nat, end: nat)

  /** What holds after each of them. It is claimed as a whole, by `== true`, where the verifier
      would otherwise go through it clause by clause. */
  ghost predicate ComesTo(data: string, needle: string, start: nat, s: nat, end: nat, oldPos: int, pos: nat, round: Round)
    requires LongEnough(data, |needle|)
  {
    match round
    case Halt => IsStart(data, pos) && Stopped(data, needle, start, pos)
    case AtEnd(r) => IsUpper(data, needle, start, r) && !Trips(data, needle, start)
    case Tripped => Trips(data, needle, start)
    case Narrower(s', end') =>
      && Grown(data, needle, start, s', end', pos)
      && end' - s' <= end - s && (end' - s' < end - s || Stage(s', end', pos) < Stage(s, end, oldPos))
  }

  /** What a probe tells, by the answer of check_needle. */
  lemma GrowStep(data: string, needle: string, start: nat, s: nat, end: nat, oldPos: int, pos: nat)
    requires Searchable(data, needle) && IsStart(data, start) && Check(data, start, needle) == 0
    requires Grown(data, needle, start, s, end, oldPos) && ProbedAt(data, s, end, pos)
    requires IsStart(data, pos) && (BlankFirst(data) ==> needle != "")
    ensures var check, next := Check(data, pos, needle), LineEnd(data, pos);
            ComesTo(data, needle, start, s, end, oldPos, pos,
                    if oldPos == pos then Halt
                    else if check > 0 then Tripped
                    else if check < 0 then Narrower(s, pos)
                    else if next < |data| then Narrower(next, end)
                    else AtEnd(next)) == true
  {
    SearchableDescends(data, needle);
    if oldPos == pos {
      GrowEnd(data, needle, start, s, end, oldPos, pos);
    } else if Check(data, pos, needle) < 0 {
      GrowMiss(data, needle, start, s, end, oldPos, pos);
    } else if Check(data, pos, needle) > 0 {
      GrowTrip(data, needle, start, s, end, oldPos, pos);
    } else {
      GrowMatch(data, needle, start, s, end, oldPos, pos);
    }
  }

  lemma FirstMiss(data: string, needle: string, start: nat, pos: nat, r: nat)
    requires Searchable(data, needle) && IsStart(data, start) && Check(data, start, needle) == 0
    requires IsStart(data, pos) && Stopped(data, needle, start, pos)
    requires IsStart(data, r) && pos <= r && Check(data, r, needle) != 0 && AllMatch(data, needle, pos, r)
    requires Check(data, pos, needle) != 0 ==> r == pos
    ensures IsUpper(data, needle, start, r)
  {
    SearchableDescends(data, needle);
  }

  method UpperRound(f: File, needle: string, ghost start: nat, s: nat, end: nat, oldPos: int, maxIdx: nat)
    returns (round: Round, pos: nat)
    requires Searchable(f.data, needle) && (BlankFirst(f.data) ==> needle != "")
    requires IsStart(f.data, start) && Check(f.data, start, needle) == 0
    requires maxIdx == |f.data| - 1 && Grown(f.data, needle, start, s, end, oldPos)
    modifies f
    ensures ComesTo(f.data, needle, start, s, end, oldPos, pos, round) == true
    ensures round.Halt? ==> f.pos == pos
  {
    f.Seek((s + end) / 2);
    pos := FindLineStart(f);
    GrowStep(f.data, needle, start, s, end, oldPos, pos);
    round := Halt;
    if oldPos != pos {
      var check := CheckNeedle(f, needle);
      if check > 0 {
        round := Tripped;
      } else if check < 0 {
        round := Narrower(s, pos);
      } else {
        var _ := f.ReadLine();
        round := if f.pos > maxIdx then AtEnd(f.pos) else Narrower(f.pos, end);
      }
    }
  }

  /** The offset just past the last line that matches, given one that does. */
  method UpperBound(f: File, needle: string, start: nat) returns (ok: bool, r: nat)
    requires Searchable(f.data, needle) && (BlankFirst(f.data) ==> needle != "")
    requires IsStart(f.data, start) && Check(f.data, start, needle) == 0
    modifies f
    ensures ok ==> IsUpper(f.data, needle, start, r)
    ensures !ok <==> Trips(f.data, needle, start)
  {
    var maxIdx := MaxPos(f);
    var s, end := start, maxIdx;
    var oldPos: int := -1;
    GrowBegins(f.data, needle, start);
    while true
      invariant s <= end && maxIdx == |f.data| - 1
      invariant Grown(f.data, needle, start, s, end, oldPos) == true
      decreases end - s, Stage(s, end, oldPos)
    {
      var round, pos := UpperRound(f, needle, start, s, end, oldPos, maxIdx);
      match round
      case Halt => break;
      case AtEnd(e) => return true, e;
      case Tripped => return false, 0;
      case Narrower(s', end') => s, end := s', end';
      oldPos := pos;
    }
    ok, r := SkipOn(f, needle, start);
  }

  /** The close of upper_bound, from where its search has come to a halt. */
  method SkipOn(f: File, needle: string, ghost start: nat) returns (ok: bool, r: nat)
    requires Searchable(f.data, needle) && IsStart(f.data, start) && Check(f.data, start, needle) == 0
    requires IsStart(f.data, f.pos) && Stopped(f.data, needle, start, f.pos)
    modifies f
    ensures ok ==> IsUpper(f.data, needle, start, r)
    ensures !ok <==> Trips(f.data, needle, start)
  {
    ghost var pos := f.pos;
    ok := SkipMatching(f, needle);
    r := f.pos;
    if ok { FirstMiss(f.data, needle, start, pos, r); }
  }

  // ---------------------------------------------------------------- the whole program

  /** A stretch of whole lines, the matching ones being those that start in [lo, hi). */
  ghost predicate Section(data: string, needle: string, lo: nat, hi: nat)
  {
    && LongEnough(data, |needle|)
    && lo <= hi <= |data|
    && (lo < |data| ==> IsStart(data, lo)) && (hi < |data| ==> IsStart(data, hi))
    && forall t :: IsStart(data, t) ==> (Check(data, t, needle) == 0 <==> lo <= t < hi)
  }

  lemma GrepStep(data: string, needle: string, p: nat)
    requires LongEnough(data, |needle|) && IsStart(data, p)
    ensures var e, later := LineEnd(data, p), Grep(LinesFrom(data, LineEnd(data, p)), needle);
            Grep(LinesFrom(data, p), needle) == (if Check(data, p, needle) == 0 then [data[p..e]] else []) + later
  {
    CheckIsMatch(data, needle, p);
    assert LinesFrom(data, p)[1..] == LinesFrom(data, LineEnd(data, p));
  }

  /** The part of [lo, hi) from `p` on. */
  function From(data: string, lo: nat, hi: nat, p: nat): string
    requires lo <= hi <= |data|
  {
    if p <= lo then data[lo..hi] else if p <= hi then data[p..hi] else ""
  }

  lemma FromStep(data: string, lo: nat, hi: nat, p: nat, e: nat)
    requires lo <= hi <= |data| && p < e <= |data|
    requires (p < lo ==> e <= lo) && (p < hi ==> e <= hi)
    ensures From(data, lo, hi, p) == (if lo <= p < hi then data[p..e] else "") + From(data, lo, hi, e)
  {
    if lo <= p < hi {
      assert data[p..hi] == data[p..e] + data[e..hi];
    }
  }

  lemma {:induction false} GrepSection(data: string, needle: string, lo: nat, hi: nat, p: nat)
    requires Section(data, needle, lo, hi)
    requires p == |data| || IsStart(data, p)
    ensures Join(Grep(LinesFrom(data, p), needle)) == From(data, lo, hi, p)
    decreases |data| - p
  {
    if p == |data| {
    } else {
      var e := LineEnd(data, p);
      GrepSection(data, needle, lo, hi, e);
      GrepStep(data, needle, p);
      FromStep(data, lo, hi, p, e);
      JoinCons(data[p..e], Grep(LinesFrom(data, e), needle));
      assert [] + Grep(LinesFrom(data, e), needle) == Grep(LinesFrom(data, e), needle);
    }
  }

  lemma {:induction false} GrepNothing(data: string, needle: string, p: nat)
    requires LongEnough(data, |needle|)
    requires p == |data| || IsStart(data, p)
    ensures Grep(LinesFrom(data, p), needle) == [] <==>
            forall t :: IsStart(data, t) && p <= t ==> Check(data, t, needle) != 0
    decreases |data| - p
  {
    if p < |data| {
      var e := LineEnd(data, p);
      GrepNothing(data, needle, e);
      GrepStep(data, needle, p);
      assert forall t :: IsStart(data, t) && p <= t ==> t == p || e <= t;
    }
  }

  /** The line at `t` starts with the needle. */
  ghost predicate Hit(data: string, needle: string, t: int)
    requires LongEnough(data, |needle|)
  {
    IsStart(data, t) && Check(data, t, needle) == 0
  }

  lemma GrepHits(data: string, needle: string)
    requires Searchable(data, needle)
    ensures Grep(Lines(data), needle) != [] <==> exists t :: Hit(data, needle, t)
  {
    assert IsStart(data, 0);
    GrepNothing(data, needle, 0);
    if Grep(Lines(data), needle) != [] {
      var t :| IsStart(data, t) && 0 <= t && Check(data, t, needle) == 0;
      assert Hit(data, needle, t);
    }
  }

  /** Some line other than a one-byte final line starts with the needle. */
  ghost predicate Findable(data: string, needle: string)
    requires LongEnough(data, |needle|)
  {
    exists t :: Hit(data, needle, t) && !LoneLastByte(data, t)
  }

  /** When the program runs into one of its own assertions: only behind an empty first line, if
      that line matches in a file of two or three empty lines, or if the second line matches and
      the probes of both find_needle and upper_bound are blind to other matches. */
  ghost predicate Crashes(data: string, needle: string)
    requires LongEnough(data, |needle|)
  {
    BlankFirst(data) &&
    if FirstHit(data, needle) then data == "\n\n" || data == "\n\n\n"
    else
      && SecondHit(data, needle) && |data| > 2
      && Blind(data, needle, 0, |data| - 1) && Blind(data, needle, 1, |data| - 1)
  }

  datatype Outcome = Found(text: string) | NotFound | AssertionFailed

  /** What the program does, whatever the first line. */
  method Run(data: string, needle: string) returns (o: Outcome)
    requires Searchable(data, needle) && (BlankFirst(data) ==> needle != "")
    ensures o.Found? ==> o.text == Join(Grep(Lines(data), needle))
    ensures o.NotFound? <==> !Findable(data, needle)
    ensures o.AssertionFailed? <==> Crashes(data, needle)
  {
    SearchableDescends(data, needle);
    var f := new File(data);
    var loc := FindNeedle(f, needle);
    FoundIsHit(data, needle, loc);
    if loc < 0 { return NotFound; }
    var lower := LowerBound(f, needle, loc);
    var ok, upper := UpperBound(f, needle, loc);
    TripsIsCrash(data, needle, loc);
    if !ok { return AssertionFailed; }
    var maxIdx := MaxPos(f);
    assert upper <= maxIdx + 1;
    SectionFound(data, needle, lower, loc, upper);
    GrepSection(data, needle, lower, upper, 0);
    return Found(data[lower..upper]);
  }

  lemma FoundIsHit(data: string, needle: string, loc: int)
    requires LongEnough(data, |needle|)
    requires if loc == -1 then OnlyLoneMatches(data, needle)
             else IsStart(data, loc) && Check(data, loc, needle) == 0 && !LoneLastByte(data, loc)
    ensures loc != -1 <==> Findable(data, needle)
    ensures !Findable(data, needle) && Searchable(data, needle) ==> !Crashes(data, needle)
  {
    if loc != -1 { assert Hit(data, needle, loc); }
    assert data != "" ==> IsStart(data, 0) && !LoneLastByte(data, 0);
  }

  /** Whether upper_bound trips depends on which line find_needle answers. */
  lemma TripsIsCrash(data: string, needle: string, loc: nat)
    requires Searchable(data, needle) && IsStart(data, loc) && Check(data, loc, needle) == 0
    requires SecondHit(data, needle) && |data| > 2 ==> (loc == 1 <==> Blind(data, needle, 0, |data| - 1))
    requires BlankFirst(data) && |data| <= 3 && FirstHit(data, needle) ==> loc == 0
    requires Findable(data, needle)
    ensures Trips(data, needle, loc) <==> Crashes(data, needle)
  {
    SearchableDescends(data, needle);
    assert IsStart(data, 0);
    var t :| Hit(data, needle, t) && !LoneLastByte(data, t);
  }

  lemma SectionFound(data: string, needle: string, lower: nat, loc: nat, upper: nat)
    requires Searchable(data, needle) && IsStart(data, lower) && IsStart(data, loc) && lower <= loc
    requires Check(data, lower, needle) == 0 && Check(data, loc, needle) == 0 && AllBefore(data, needle, lower)
    requires IsUpper(data, needle, loc, upper)
    ensures Section(data, needle, lower, upper)
  {
    SearchableDescends(data, needle);
  }

  /** The documentation's requirement: every line, newline excluded, is as long as the needle. */
  ghost predicate Documented(data: string, needle: string)
  {
    && needle != "" && data != "" && data[|data| - 1] == NEWLINE
    && LongEnough(data, |needle| + 1)
    && Sorted(data, |needle|)
  }

  /** The one-byte final line starts with the needle and the line before it does not. */
  predicate OnlyLastByteMatches(data: string, needle: string)
  {
    var last := |data| - 1;
    && last > 0 && IsStart(data, last) && Starts(data, last, needle)
    && !Starts(data, LineStart(data, last - 1), needle)
  }

  predicate Starts(data: string, s: nat, needle: string)
    requires s <= |data|
  {
    s + |needle| <= |data| && data[s..s + |needle|] == needle
  }

  /** "Needle not found" is a wrong answer exactly when a one-byte final line matches and the line
      before it does not. */
  lemma FindableIsGrep(data: string, needle: string)
    requires Searchable(data, needle)
    ensures (Findable(data, needle) <==> Grep(Lines(data), needle) != []) <==> !OnlyLastByteMatches(data, needle)
  {
    GrepHits(data, needle);
    var last := |data| - 1;
    if OnlyLastByteMatches(data, needle) {
      assert Hit(data, needle, last);
      forall t | Hit(data, needle, t) ensures LoneLastByte(data, t) { OthersMiss(data, needle, t); }
    } else if Grep(Lines(data), needle) != [] {
      var t :| Hit(data, needle, t);
      if LoneLastByte(data, t) { assert Hit(data, needle, LineStart(data, last - 1)); }
    }
  }

  lemma OthersMiss(data: string, needle: string, t: int)
    requires Searchable(data, needle) && OnlyLastByteMatches(data, needle) && Hit(data, needle, t)
    ensures t == |data| - 1
  {
    SearchableDescends(data, needle);
    var last := |data| - 1;
    var p := LineStart(data, last - 1);
    assert Check(data, p, needle) >= Check(data, last, needle) == 0;
    assert Check(data, t, needle) == 0 && Check(data, p, needle) > 0;
    assert t > p;
  }

  /** A documented file has neither such a last line nor an empty first one: there the program always
      does what the linear filter does. */
  lemma DocumentedIsExact(data: string, needle: string)
    requires Documented(data, needle)
    ensures Searchable(data, needle)
    ensures Findable(data, needle) <==> Grep(Lines(data), needle) != []
    ensures !Crashes(data, needle)
  {
    assert IsStart(data, 0) && LineEnd(data, 0) >= 2;
    assert !IsStart(data, |data| - 1);
    FindableIsGrep(data, needle);
  }

  /** A file that meets everything but the documented line length: the match is on its one-byte
      last line and the search misses it. */
  lemma MissedLastByte()
    ensures Searchable("a\nb", "b") && !Findable("a\nb", "b") && Grep(Lines("a\nb"), "b") == ["b"]
  {
    var d := "a\nb";
    assert LineEnd(d, 0) == 2 && LineEnd(d, 2) == 3;
    assert forall s :: IsStart(d, s) ==> s == 0 || s == 2;
    assert Key(d, 0, 1) == "a" && Key(d, 2, 1) == "b";
    assert LinesFrom(d, 3) == [];
    assert LinesFrom(d, 2) == ["b"];
    assert d[0..2] == "a\n";
    assert LinesFrom(d, 0) == ["a\n"] + LinesFrom(d, 2);
    assert Lines(d)[1..] == ["b"];
  }

  /** If the line behind an empty first line is the only one to match, the program fails. */
  lemma OnlySecondLine(data: string, needle: string)
    requires Searchable(data, needle) && SecondHit(data, needle) && |data| > 2
    requires forall t :: Hit(data, needle, t) ==> t == 1
    ensures Crashes(data, needle)
  {
    BlindToNothing(data, needle, 0, |data| - 1);
    BlindToNothing(data, needle, 1, |data| - 1);
  }

  lemma {:induction false} BlindToNothing(data: string, needle: string, lo: nat, end: nat)
    requires LongEnough(data, |needle|) && BlankFirst(data) && lo <= 1 && end < |data|
    requires forall t :: Hit(data, needle, t) ==> t == 1
    ensures Blind(data, needle, lo, end)
    decreases end
  {
    var mid := (lo + end) / 2;
    if mid >= LineEnd(data, 1) {
      var p := LineStart(data, mid);
      assert Check(data, p, needle) == 0 ==> Hit(data, needle, p);
      BlindToNothing(data, needle, lo, p);
    }
  }

  /** Such a file. */
  lemma EmptyFirstLine()
    ensures Searchable("\nb\nc\n", "b") && Crashes("\nb\nc\n", "b")
  {
    var d := "\nb\nc\n";
    assert forall s :: IsStart(d, s) ==> s == 0 || s == 1 || s == 3;
    assert LineEnd(d, 0) == 1 && LineEnd(d, 1) == 3 && LineEnd(d, 3) == 5;
    assert Key(d, 0, 1) == "\n" && Key(d, 1, 1) == "b" && Key(d, 3, 1) == "c";
    OnlySecondLine(d, "b");
  }
}
