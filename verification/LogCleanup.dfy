/** modules/cloudnfs/files/logcleanup.py: the last lines of a file, read backwards in blocks, and
    the rotation of log files through their numbered slots. */
module LogCleanup {
  import opened Common
  import opened Text

  const BUFSIZ: nat := 1024

  // ---------------------------------------------------------------- the last lines of a file

  function Strip(line: string): string
  {
    if line != "" && line[|line| - 1] == NEWLINE then line[..|line| - 1] else line
  }

  function StripAll(lines: seq<string>): seq<string>
  {
    seq(|lines|, (i: nat) requires i < |lines| => Strip(lines[i]))
  }

  /** splitlines, with the newline as the only separator. */
  function SplitLines(data: string): seq<string>
  {
    StripAll(Lines(data))
  }

  /** The last `n` elements, or all of them if there are fewer. */
  function Last<T>(s: seq<T>, n: nat): seq<T>
  {
    if n < |s| then s[|s| - n..] else s
  }

  function Newlines(s: string): nat
  {
    if s == "" then 0 else (if s[0] == NEWLINE then 1 else 0) + Newlines(s[1..])
  }

  lemma {:induction false} NewlinesCounts(s: string)
    ensures Newlines(s) == multiset(s)[NEWLINE]
  {
    if s != "" {
      NewlinesCounts(s[1..]);
      assert s == [s[0]] + s[1..];
    }
  }

  lemma {:induction false} NewlinesPlus(a: string, b: string)
    ensures Newlines(a + b) == Newlines(a) + Newlines(b)
  {
    if a == "" {
      assert a + b == b;
    } else {
      NewlinesPlus(a[1..], b);
      assert (a + b)[1..] == a[1..] + b;
    }
  }

  /** A line has at most one newline. */
  lemma {:induction false} LineHasOneNewline(data: string, p: nat)
    requires p < |data|
    ensures Newlines(data[p..]) <= 1 + Newlines(data[LineEnd(data, p)..])
    decreases |data| - p
  {
    assert data[p..][1..] == data[p + 1..];
    if data[p] != NEWLINE && p + 1 < |data| { LineHasOneNewline(data, p + 1); }
  }

  lemma {:induction false} EnoughLines(data: string, p: nat)
    requires p <= |data|
    ensures |LinesFrom(data, p)| >= Newlines(data[p..])
    decreases |data| - p
  {
    if p < |data| {
      LineHasOneNewline(data, p);
      EnoughLines(data, LineEnd(data, p));
    }
  }

  /** Lines from an offset on are the lines of the rest of the file. */
  lemma {:induction false} LinesOfRest(data: string, m: nat, p: nat)
    requires m <= p <= |data|
    ensures LinesFrom(data[m..], p - m) == LinesFrom(data, p)
    decreases |data| - p
  {
    if p < |data| {
      var rest, e := data[m..], LineEnd(data, p);
      LineEndOfRest(data, m, p);
      LinesOfRest(data, m, e);
      assert rest[p - m..e - m] == data[p..e];
      assert LinesFrom(rest, p - m) == [rest[p - m..e - m]] + LinesFrom(rest, e - m);
      assert LinesFrom(data, p) == [data[p..e]] + LinesFrom(data, e);
    }
  }

  lemma {:induction false} LineEndOfRest(data: string, m: nat, p: nat)
    requires m <= p < |data|
    ensures LineEnd(data[m..], p - m) == LineEnd(data, p) - m
    decreases |data| - p
  {
    if data[p] != NEWLINE && p + 1 < |data| { LineEndOfRest(data, m, p + 1); }
  }

  ghost predicate EndsWith<T>(s: seq<T>, t: seq<T>)
  {
    |t| <= |s| && s[|s| - |t|..] == t
  }

  /** Past the line that offset `m` is in, the whole file and its rest have the same lines. */
  lemma {:induction false} SameTail(data: string, p: nat, m: nat)
    requires p <= m < |data|
    ensures EndsWith(LinesFrom(data, p), LinesFrom(data, LineEnd(data, m)))
    decreases |data| - p
  {
    var e := LineEnd(data, p);
    if e <= m {
      SameTail(data, e, m);
    } else {
      SameLine(data, p, m);
    }
  }

  lemma {:induction false} SameLine(data: string, p: nat, m: nat)
    requires p < |data| && p <= m < LineEnd(data, p)
    ensures m < |data| && LineEnd(data, m) == LineEnd(data, p)
    decreases m - p
  {
    if p < m { SameLine(data, p + 1, m); }
  }

  lemma LastOfEnd<T>(s: seq<T>, t: seq<T>, n: nat)
    requires EndsWith(s, t) && n <= |t|
    ensures Last(s, n) == Last(t, n)
  {
    var k := |s| - |t|;
    forall i | |t| - n <= i < |t| ensures t[i] == s[k + i] {
      assert s[k..][i] == s[k + i];
    }
  }

  lemma StripAllEnds(s: seq<string>, t: seq<string>)
    requires EndsWith(s, t)
    ensures EndsWith(StripAll(s), StripAll(t))
  {
    forall i | 0 <= i < |t| ensures StripAll(s)[|s| - |t| + i] == StripAll(t)[i] {
      assert s[|s| - |t|..][i] == s[|s| - |t| + i];
    }
  }

  lemma LastOfSuffix(s: seq<string>, t: seq<string>, n: nat)
    requires EndsWith(s, t) && n <= |t|
    ensures Last(StripAll(s), n) == Last(StripAll(t), n)
  {
    StripAllEnds(s, t);
    LastOfEnd(StripAll(s), StripAll(t), n);
  }

  /** A rest of the file with more newlines than lines are wanted is enough to tell them. */
  lemma RestSuffices(data: string, m: nat, window: nat)
    requires m <= |data| && (m == 0 || Newlines(data[m..]) > window)
    ensures Last(SplitLines(data[m..]), window) == Last(SplitLines(data), window)
  {
    if m == 0 {
      assert data[0..] == data;
    } else {
      LineHasOneNewline(data, m);
      EnoughLines(data, LineEnd(data, m));
      SameTail(data, 0, m);
      SameTail(data, m, m);
      LinesOfRest(data, m, m);
      var t := LinesFrom(data, LineEnd(data, m));
      LastOfSuffix(Lines(data), t, window);
      LastOfSuffix(LinesFrom(data, m), t, window);
    }
  }

  /** tail on a file that can be sought by byte. */
  method Tail(content: string, window: int) returns (lines: seq<string>)
    ensures lines == if window <= 0 then [] else Last(SplitLines(content), window)
  {
    if window == 0 { return []; }
    var bytes, size, block := |content|, window + 1, -1;
    var data: seq<string> := [];
    assert content[|content|..] == "";
    while size > 0 && bytes > 0
      invariant bytes == |content| + (block + 1) * BUFSIZ <= |content|
      invariant window < 0 ==> data == []
      invariant Join(data) == content[Floor(bytes)..]
      invariant size == window + 1 - Newlines(content[Floor(bytes)..])
      decreases bytes
    {
      ghost var m := Floor(bytes);
      var chunk;
      if bytes - BUFSIZ > 0 {
        var at := |content| + block * BUFSIZ;
        chunk := content[at..at + BUFSIZ];
      } else {
        chunk := content[..bytes];
      }
      assert content[Floor(bytes - BUFSIZ)..] == chunk + content[m..];
      JoinCons(chunk, data);
      NewlinesPlus(chunk, content[m..]);
      data := [chunk] + data;
      size := size - Newlines(chunk);
      bytes := bytes - BUFSIZ;
      block := block - 1;
    }
    if window > 0 {
      RestSuffices(content, Floor(bytes), window);
      lines := Last(SplitLines(Join(data)), window);
    } else {
      lines := [];
    }
  }

  function Floor(bytes: int): nat
  {
    if bytes > 0 then bytes else 0
  }

  // ---------------------------------------------------------------- rotation

  const GUIDE := [".1", ".2", ".3", ".4"]

  function Slot(path: string, i: nat): string
    requires i < |GUIDE|
  {
    path + GUIDE[i]
  }

  function Contents(files: map<string, string>, path: string): Option<string>
  {
    if path in files then Some(files[path]) else None
  }

  /** What the numbered slots of a log hold, newest first. */
  function Slots(files: map<string, string>, path: string): seq<Option<string>>
  {
    [Contents(files, path + ".1"), Contents(files, path + ".2"), Contents(files, path + ".3"), Contents(files, path + ".4")]
  }

  /** Files that are neither the log nor one of its slots. */
  predicate Foreign(path: string, f: string)
  {
    f != path && f != path + ".1" && f != path + ".2" && f != path + ".3" && f != path + ".4"
  }

  lemma SlotsDiffer(path: string)
    ensures forall i, j :: 0 <= i < |GUIDE| && 0 <= j < |GUIDE| && i != j ==> Slot(path, i) != Slot(path, j)
    ensures forall i :: 0 <= i < |GUIDE| ==> Slot(path, i) != path && Slot(path, i)[|path|..] == GUIDE[i] && Slot(path, i)[..|path|] == path
  {
    forall i | 0 <= i < |GUIDE| ensures Slot(path, i) != path && Slot(path, i)[|path|..] == GUIDE[i] {
      assert |Slot(path, i)| == |path| + 2;
    }
    assert GUIDE[0] != GUIDE[1] && GUIDE[0] != GUIDE[2] && GUIDE[0] != GUIDE[3];
    assert GUIDE[1] != GUIDE[2] && GUIDE[1] != GUIDE[3] && GUIDE[2] != GUIDE[3];
  }

  function IndexOf(s: seq<string>, x: string): (i: nat)
    requires x in s
    ensures i < |s| && s[i] == x
  {
    if s[0] == x then 0 else 1 + IndexOf(s[1..], x)
  }

  /** The next file name in the rotation, or None at its end. */
  function RotateOption(file: string): Option<string>
    requires |file| >= 2 && file[|file| - 2..] in GUIDE
  {
    var stem, end := file[..|file| - 2], file[|file| - 2..];
    if end == GUIDE[3] then None
    else
      var i := IndexOf(GUIDE, end);
      if i + 1 < |GUIDE| then Some(stem + GUIDE[i + 1]) else None
  }

  lemma RotateSlot(path: string, i: nat)
    requires i < |GUIDE|
    ensures |Slot(path, i)| >= 2 && Slot(path, i)[|Slot(path, i)| - 2..] in GUIDE
    ensures RotateOption(Slot(path, i)) == if i == 3 then None else Some(Slot(path, i + 1))
  {
    var file := Slot(path, i);
    assert file[|file| - 2..] == GUIDE[i] && file[..|file| - 2] == path;
    assert IndexOf(GUIDE, GUIDE[i]) == i by {
      assert GUIDE[0] != GUIDE[1] && GUIDE[0] != GUIDE[2] && GUIDE[0] != GUIDE[3];
      assert GUIDE[1] != GUIDE[2] && GUIDE[1] != GUIDE[3] && GUIDE[2] != GUIDE[3];
      assert GUIDE[1..][0] == GUIDE[1] && GUIDE[1..][1..][0] == GUIDE[2] && GUIDE[1..][1..][1..][0] == GUIDE[3];
    }
  }

  datatype Config = Config(minRotateSize: int, maxCopytruncate: int, tailLines: int)

  function Unlines(lines: seq<string>): string
  {
    if lines == [] then "" else lines[0] + [NEWLINE] + Unlines(lines[1..])
  }

  /** A text with its last line ended. */
  function Ended(s: string): string
  {
    if s == "" || s[|s| - 1] == NEWLINE then s else s + [NEWLINE]
  }

  lemma {:induction false} UnlinesFrom(data: string, p: nat)
    requires p <= |data|
    ensures Unlines(StripAll(LinesFrom(data, p))) == Ended(data[p..])
    decreases |data| - p
  {
    if p < |data| {
      var e := LineEnd(data, p);
      var line, rest := data[p..e], LinesFrom(data, e);
      UnlinesFrom(data, e);
      UnlinesCons(line, rest);
      assert data[p..] == line + data[e..];
      WriteLine(line, data[e..]);
    }
  }

  lemma UnlinesCons(line: string, rest: seq<string>)
    ensures Unlines(StripAll([line] + rest)) == Strip(line) + [NEWLINE] + Unlines(StripAll(rest))
  {
    assert StripAll([line] + rest) == [Strip(line)] + StripAll(rest);
    assert ([Strip(line)] + StripAll(rest))[1..] == StripAll(rest);
  }

  lemma LastStripped(lines: seq<string>, n: nat)
    ensures StripAll(Last(lines, n)) == Last(StripAll(lines), n)
  {
  }

  lemma WriteLine(line: string, rest: string)
    requires line != "" && (rest != "" ==> line[|line| - 1] == NEWLINE)
    ensures Strip(line) + [NEWLINE] + Ended(rest) == Ended(line + rest)
  {
    if line[|line| - 1] == NEWLINE {
      assert Strip(line) + [NEWLINE] == line;
    }
  }

  lemma {:induction false} LastFrom(data: string, q: nat, n: nat) returns (p: nat)
    requires q <= |data| && (q < |data| ==> IsStart(data, q))
    ensures q <= p <= |data| && (p < |data| ==> IsStart(data, p))
    ensures Last(LinesFrom(data, q), n) == LinesFrom(data, p)
    decreases |data| - q
  {
    p := q;
    if n < |LinesFrom(data, q)| {
      var e := LineEnd(data, q);
      p := LastFrom(data, e, n);
      LastOfRest(data[q..e], LinesFrom(data, e), n);
    }
  }

  lemma LastOfRest<T>(x: T, rest: seq<T>, n: nat)
    requires n <= |rest|
    ensures Last([x] + rest, n) == Last(rest, n)
  {
    assert ([x] + rest)[1..] == rest;
    assert [x] + rest == [x] + rest[..|rest| - n] + rest[|rest| - n..];
  }

  /** Written out line by line, the last lines of a log are its end from the start of one of them on,
      with the last line ended. */
  lemma TailIsTheEnd(data: string, n: nat) returns (p: nat)
    ensures p <= |data| && (p < |data| ==> IsStart(data, p))
    ensures |LinesFrom(data, p)| == if n < |Lines(data)| then n else |Lines(data)|
    ensures Unlines(Last(SplitLines(data), n)) == Ended(data[p..])
  {
    p := LastFrom(data, 0, n);
    UnlinesFrom(data, p);
    LastStripped(Lines(data), n);
  }

  /** What a run moves to the first slot, if it rotates the log at all. */
  function Rotated(c: Config, content: string, rotationDay: bool): Option<string>
  {
    if |content| < c.minRotateSize then None
    else if c.maxCopytruncate != 0 && |content| > c.maxCopytruncate then
      Some(Unlines(if c.tailLines <= 0 then [] else Last(SplitLines(content), c.tailLines)))
    else if rotationDay then Some(content)
    else None
  }

  /** Slots from `k` on have been moved: `k` is empty, and each later one holds what the one
      before it held. */
  ghost predicate Moved(before: map<string, string>, files: map<string, string>, path: string, k: nat)
    requires k <= |GUIDE|
  {
    && (forall i :: 0 <= i < k ==> Contents(files, Slot(path, i)) == Contents(before, Slot(path, i)))
    && (k < |GUIDE| ==> Contents(files, Slot(path, k)) == None)
    && (forall i :: k < i < |GUIDE| ==> Contents(files, Slot(path, i)) == Contents(before, Slot(path, i - 1)))
    && (forall f :: Foreign(path, f) || f == path ==> Contents(files, f) == Contents(before, f))
  }

  /** Stage `k` is renamed to the next one, or removed if it is the last. */
  ghost predicate OneStage(files: map<string, string>, after: map<string, string>, path: string, k: nat)
    requires k < |GUIDE|
  {
    && Contents(after, Slot(path, k)) == None
    && (k + 1 < |GUIDE| ==> Contents(after, Slot(path, k + 1)) == Contents(files, Slot(path, k)))
    && forall f :: f != Slot(path, k) && (k + 1 < |GUIDE| ==> f != Slot(path, k + 1)) ==> Contents(after, f) == Contents(files, f)
  }

  lemma MovedFurther(before: map<string, string>, files: map<string, string>, after: map<string, string>, path: string, k: nat)
    requires k < |GUIDE| && Moved(before, files, path, k + 1) && OneStage(files, after, path, k)
    ensures Moved(before, after, path, k)
  {
    SlotsDiffer(path);
    forall i | 0 <= i < |GUIDE|
      ensures Contents(after, Slot(path, i)) ==
              if i < k then Contents(before, Slot(path, i)) else if i == k then None else Contents(before, Slot(path, i - 1))
    {
    }
    forall f | Foreign(path, f) || f == path ensures Contents(after, f) == Contents(before, f) {
      assert f != Slot(path, k) && (k + 1 < |GUIDE| ==> f != Slot(path, k + 1));
    }
  }

  lemma AllMoved(before: map<string, string>, files: map<string, string>, path: string)
    requires Moved(before, files, path, 0)
    ensures Slots(files, path) == [None] + Slots(before, path)[..3]
  {
    assert Slot(path, 0) == path + ".1" && Slot(path, 1) == path + ".2" && Slot(path, 2) == path + ".3" && Slot(path, 3) == path + ".4";
  }

  /** What one run does to a log: if it rotates, the slots move on by one, the first gets what is
      rotated and the log is emptied; no other file changes. */
  ghost predicate Processed(c: Config, path: string, before: map<string, string>, after: map<string, string>, rotationDay: bool)
  {
    && path in before
    && (var r := Rotated(c, before[path], rotationDay);
        && Slots(after, path) == (if r.None? then Slots(before, path) else [r] + Slots(before, path)[..3])
        && Contents(after, path) == Some(if r.None? then before[path] else ""))
    && forall f :: Foreign(path, f) ==> Contents(after, f) == Contents(before, f)
  }

  class LogDirectory {
    var files: map<string, string>
    const c: Config

    constructor (files: map<string, string>, c: Config)
      ensures this.files == files && this.c == c
    {
      this.files, this.c := files, c;
    }

    /** One round of the loop of rotation_forward. */
    method MoveStage(path: string, k: nat)
      requires k < |GUIDE| && (k + 1 < |GUIDE| ==> Contents(files, Slot(path, k + 1)) == None)
      modifies this`files
      ensures OneStage(old(files), files, path, k)
    {
      SlotsDiffer(path);
      RotateSlot(path, k);
      var stage := Slot(path, k);
      if stage in files {
        var next := RotateOption(stage);
        if next.None? {
          files := files - {stage};
        } else {
          files := files[next.value := files[stage]] - {stage};
        }
      }
    }

    /** Moves every slot on by one, the last one out. */
    method RotationForward(path: string)
      modifies this`files
      ensures Slots(files, path) == [None] + Slots(old(files), path)[..3]
      ensures forall f :: Foreign(path, f) || f == path ==> Contents(files, f) == Contents(old(files), f)
    {
      var k := |GUIDE|;
      while k > 0
        invariant 0 <= k <= |GUIDE| && Moved(old(files), files, path, k)
      {
        ghost var before := files;
        MoveStage(path, k - 1);
        MovedFurther(old(files), before, files, path, k - 1);
        k := k - 1;
      }
      AllMoved(old(files), files, path);
    }

    /** One run on one log file: what is rotated goes to the first slot and the log is emptied. */
    method ProcessLogfile(path: string, rotationDay: bool)
      requires path in files
      modifies this`files
      ensures Processed(c, path, old(files), files, rotationDay)
    {
      var content := files[path];
      if |content| < c.minRotateSize { return; }
      if c.maxCopytruncate != 0 && |content| > c.maxCopytruncate {
        RotationForward(path);
        assert Contents(files, path) == Some(content) && Slots(files, path)[0] == None;
        var tailed := Tail(files[path], c.tailLines);
        Fill(path, Unlines(tailed));
      } else if rotationDay {
        RotationForward(path);
        assert Contents(files, path) == Some(content) && Slots(files, path)[0] == None;
        Fill(path, files[path]);
      }
    }

    /** Writes the first slot, which is free, and truncates the log. */
    method Fill(path: string, content: string)
      requires path in files && Contents(files, path + ".1") == None
      modifies this`files
      ensures Slots(files, path) == [Some(content)] + Slots(old(files), path)[1..]
      ensures Contents(files, path) == Some("")
      ensures forall f :: Foreign(path, f) ==> Contents(files, f) == Contents(old(files), f)
    {
      SlotsDiffer(path);
      assert Slot(path, 0) == path + ".1" && Slot(path, 1) == path + ".2" && Slot(path, 2) == path + ".3" && Slot(path, 3) == path + ".4";
      files := files[path + ".1" := content];
      files := files[path := ""];
    }
  }

  // ---------------------------------------------------------------- many runs

  /** A run on the log, with the files it found and left, and whether it was a rotation day. */
  datatype Run = Run(before: map<string, string>, after: map<string, string>, rotationDay: bool)

  /** Runs one after the other: between them the log and other files may change as they like, but
      nobody else touches the slots. */
  ghost predicate History(c: Config, path: string, runs: seq<Run>)
  {
    && runs != []
    && (forall i :: 0 <= i < |runs| ==> Processed(c, path, runs[i].before, runs[i].after, runs[i].rotationDay))
    && forall i :: 0 < i < |runs| ==> Slots(runs[i].before, path) == Slots(runs[i - 1].after, path)
  }

  /** What a run rotated, if anything. */
  function RotatedIn(c: Config, path: string, r: Run): seq<Option<string>>
    requires path in r.before
  {
    var content := Rotated(c, r.before[path], r.rotationDay);
    if content.None? then [] else [content]
  }

  /** What the runs rotated, newest first. */
  function RotatedOver(c: Config, path: string, runs: seq<Run>): seq<Option<string>>
    requires forall i :: 0 <= i < |runs| ==> path in runs[i].before
  {
    if runs == [] then []
    else
      RotatedIn(c, path, runs[|runs| - 1]) + RotatedOver(c, path, runs[..|runs| - 1])
  }

  /** After any number of runs the slots hold the contents rotated most recently, newest first, and
      behind them what they held at the start. */
  lemma {:induction false} SlotsAreMostRecent(c: Config, path: string, runs: seq<Run>)
    requires History(c, path, runs)
    ensures Slots(runs[|runs| - 1].after, path) == (RotatedOver(c, path, runs) + Slots(runs[0].before, path))[..4]
    decreases |runs|
  {
    var n := |runs| - 1;
    var last, start := runs[n], Slots(runs[0].before, path);
    var now, older := RotatedIn(c, path, last), RotatedOver(c, path, runs[..n]);
    OneRun(c, path, last);
    if n == 0 {
      assert older == [];
    } else {
      SlotsAreMostRecent(c, path, runs[..n]);
    }
    PushFront(now, older, start);
  }

  lemma OneRun(c: Config, path: string, r: Run)
    requires Processed(c, path, r.before, r.after, r.rotationDay)
    ensures Slots(r.after, path) == (RotatedIn(c, path, r) + Slots(r.before, path))[..4]
  {
    var now, old4 := RotatedIn(c, path, r), Slots(r.before, path);
    assert |old4| == 4 && (now == [] ==> (now + old4)[..4] == old4);
    assert now != [] ==> (now + old4)[..4] == now + old4[..3];
  }

  lemma PushFront<T>(now: seq<T>, older: seq<T>, start: seq<T>)
    requires |start| >= 4
    ensures (now + (older + start)[..4])[..4] == (now + older + start)[..4]
    ensures older == [] ==> (now + start)[..4] == (now + older + start)[..4]
  {
    if older == [] { assert now + older + start == now + start; }
  }
}
