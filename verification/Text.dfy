/** Lines of a file and the byte-wise order of strings, shared by the models that read files.
    A line keeps its terminating newline; the last one may lack it. */
module Text {

  const NEWLINE: char := '\n'

  // ---------------------------------------------------------------- order

  /** `a <= b` as Python compares strings. */
  predicate LexLe(a: string, b: string)
  {
    a == "" || (b != "" && (a[0] < b[0] || (a[0] == b[0] && LexLe(a[1..], b[1..]))))
  }

  predicate LexLt(a: string, b: string)
  {
    a != b && LexLe(a, b)
  }

  lemma {:induction false} LexTotal(a: string, b: string)
    ensures LexLe(a, b) || LexLe(b, a)
  {
    if a != "" && b != "" { LexTotal(a[1..], b[1..]); }
  }

  lemma {:induction false} LexAntisymmetric(a: string, b: string)
    requires LexLe(a, b) && LexLe(b, a)
    ensures a == b
  {
    if a != "" {
      LexAntisymmetric(a[1..], b[1..]);
      assert a == [a[0]] + a[1..] && b == [b[0]] + b[1..];
    }
  }

  lemma {:induction false} LexTransitive(a: string, b: string, c: string)
    requires LexLe(a, b) && LexLe(b, c)
    ensures LexLe(a, c)
  {
    if a != "" && a[0] == b[0] == c[0] { LexTransitive(a[1..], b[1..], c[1..]); }
  }

  // ---------------------------------------------------------------- lines by offset

  /** `s` is the offset of the first byte of a line. */
  predicate IsStart(data: string, s: int)
  {
    0 <= s < |data| && (s == 0 || data[s - 1] == NEWLINE)
  }

  /** The offset just past the line that the byte at `p` belongs to. */
  function LineEnd(data: string, p: nat): (e: nat)
    requires p < |data|
    ensures p < e <= |data|
    ensures e == |data| || IsStart(data, e)
    ensures forall s :: p < s < e ==> !IsStart(data, s)
    decreases |data| - p
  {
    if data[p] == NEWLINE || p + 1 == |data| then p + 1 else LineEnd(data, p + 1)
  }

  lemma EndsBefore(data: string, p: nat, t: int)
    requires p < t && IsStart(data, t)
    ensures LineEnd(data, p) <= t
  {
  }

  /** The offset of the first byte of the line that the byte at `p` belongs to. */
  function LineStart(data: string, p: nat): (s: nat)
    requires p < |data|
    ensures s <= p && IsStart(data, s)
    ensures forall t :: s < t <= p ==> !IsStart(data, t)
  {
    if p == 0 || data[p - 1] == NEWLINE then p else LineStart(data, p - 1)
  }

  // ---------------------------------------------------------------- lines as a sequence

  /** The lines of `data` from the line starting at `p` on. */
  function LinesFrom(data: string, p: nat): (lines: seq<string>)
    requires p <= |data|
    decreases |data| - p
  {
    if p == |data| then [] else [data[p..LineEnd(data, p)]] + LinesFrom(data, LineEnd(data, p))
  }

  function Lines(data: string): (lines: seq<string>)
  {
    LinesFrom(data, 0)
  }

  function Join(parts: seq<string>): (s: string)
  {
    if parts == [] then "" else parts[0] + Join(parts[1..])
  }

  lemma JoinCons(head: string, tail: seq<string>)
    ensures Join([head] + tail) == head + Join(tail)
  {
    assert ([head] + tail)[1..] == tail;
  }
}
