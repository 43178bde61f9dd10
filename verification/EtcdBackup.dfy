/** modules/etcd/files/etcd-backup.py: rotating numbered backup directories, which the program
    orders by name. A directory is known here by its number: 0 for the unnumbered one. */
module EtcdBackup {
  import opened Arithmetic
  import opened Common
  import opened Text

  /** Backup directories by number, with what they hold. */
  type Dirs = map<nat, string>

  function Digits(n: nat): string
  {
    (if n < 10 then "" else Digits(n / 10)) + ["0123456789"[n % 10]]
  }

  function Suffix(n: nat): string
  {
    if n == 0 then "" else "." + Digits(n)
  }

  function Name(base: string, n: nat): string
  {
    base + Suffix(n)
  }

  /** `i` comes before `j` when the directories are sorted by name. */
  predicate Before(i: nat, j: nat)
  {
    LexLt(Suffix(i), Suffix(j))
  }

  lemma {:induction false} SharedPrefix(base: string, a: string, b: string)
    ensures LexLe(base + a, base + b) <==> LexLe(a, b)
  {
    if base == "" {
      assert base + a == a && base + b == b;
    } else {
      SharedPrefix(base[1..], a, b);
      assert (base + a)[1..] == base[1..] + a && (base + b)[1..] == base[1..] + b;
    }
  }

  /** The order does not depend on what the directories are called. */
  lemma BeforeIsByName(base: string, i: nat, j: nat)
    ensures Before(i, j) <==> LexLt(Name(base, i), Name(base, j))
  {
    SharedPrefix(base, Suffix(i), Suffix(j));
    assert Name(base, i)[|base|..] == Suffix(i) && Name(base, j)[|base|..] == Suffix(j);
  }

  lemma SuffixValue(n: nat)
    requires 0 < n <= 10
    ensures n < 10 ==> Suffix(n) == ['.', "0123456789"[n]]
    ensures n == 10 ==> Suffix(n) == ['.', '1', '0']
  {
    if n == 10 { assert Digits(1) == "1" && Digits(10) == Digits(1) + "0"; }
  }

  lemma CompareTwo(p: char, x: char, y: char)
    ensures LexLe([p, x], [p, y]) <==> x <= y
  {
    assert [p, x][1..] == [x] && [p, y][1..] == [y] && [x][1..] == "" && [y][1..] == "";
    assert LexLe([x], [y]) <==> x <= y;
  }

  lemma CompareThree(p: char, x: char, y: char, z: char)
    ensures LexLe([p, x], [p, y, z]) <==> x <= y
    ensures LexLe([p, y, z], [p, x]) <==> y < x
  {
    assert [p, x][1..] == [x] && [p, y, z][1..] == [y, z] && [x][1..] == "" && [y, z][1..] == [z];
    assert LexLe([x], [y, z]) <==> x <= y;
    assert LexLe([y, z], [x]) <==> y < x;
  }

  /** Up to 9 the order by name is that of the numbers; 10 comes between 1 and 2. */
  lemma NameOrder(i: nat, j: nat)
    requires i <= 10 && j <= 10
    ensures Before(i, j) <==> if i == 10 then 2 <= j <= 9 else if j == 10 then i <= 1 else i < j
  {
    if i > 0 { SuffixValue(i); }
    if j > 0 { SuffixValue(j); }
    if i == j {
    } else if 0 < i < 10 && 0 < j < 10 {
      CompareTwo('.', "0123456789"[i], "0123456789"[j]);
    } else if 0 < i < 10 && j == 10 {
      CompareThree('.', "0123456789"[i], '1', '0');
    } else if i == 10 && 0 < j < 10 {
      CompareThree('.', "0123456789"[j], '1', '0');
    }
  }

  // ---------------------------------------------------------------- what a rotation does

  /** Sorted by name and reversed, without repetition. */
  ghost predicate Descending(q: seq<nat>)
  {
    forall a, b :: 0 <= a < b < |q| ==> Before(q[b], q[a])
  }

  /** `q` is the listing of the directories in reverse order of their names. */
  ghost predicate Listing(q: seq<nat>, d: Dirs)
  {
    Descending(q) && forall n: nat :: n in q <==> n in d
  }

  /** Renames each directory to the next number; None if that number is taken. */
  function RenameAll(d: Dirs, q: seq<nat>): Option<Dirs>
    decreases |q|
  {
    if q == [] then Some(d)
    else if q[0] !in d || q[0] + 1 in d then None
    else RenameAll(Renamed(d, q[0]), q[1..])
  }

  function Renamed(d: Dirs, n: nat): Dirs
    requires n in d
  {
    map m | m in d.Keys + {n + 1} && m != n :: if m == n + 1 then d[n] else d[m]
  }

  function Drop(d: Dirs, q: seq<nat>): Dirs
  {
    map n | n in d && n !in q :: d[n]
  }

  /** rotate_logs on the listing `q`; None for the OSError of a rename. */
  function Rotate(d: Dirs, q: seq<nat>, keep: nat): Option<Dirs>
  {
    var gone := if |q| > keep then |q| - keep else 0;
    var left := Drop(d, q[..gone]);
    if q == [] || q[|q| - 1] != 0 then Some(left) else RenameAll(left, q[gone..])
  }

  /** A series of renames has come as far as number `i` and found its target taken. */
  ghost predicate StuckAt(d: Dirs, q: seq<nat>, i: nat, after: Dirs)
  {
    i < |q| && RenameAll(d, q[..i]) == Some(after) && (q[i] !in after || q[i] + 1 in after)
  }

  /** A rotation has removed the surplus and got stuck in renaming. */
  ghost predicate RotationStuck(d: Dirs, q: seq<nat>, keep: nat, after: Dirs)
  {
    var gone := if |q| > keep then |q| - keep else 0;
    q != [] && q[|q| - 1] == 0 && exists i :: StuckAt(Drop(d, q[..gone]), q[gone..], i, after)
  }

  lemma {:induction false} RenameOneMore(d: Dirs, q: seq<nat>, x: nat)
    ensures var r := RenameAll(d, q);
            RenameAll(d, q + [x]) == if r.None? || x !in r.value || x + 1 in r.value then None else Some(Renamed(r.value, x))
    decreases |q|
  {
    if q == [] {
      assert q + [x] == [x];
      assert (q + [x])[1..] == [];
    } else if q[0] in d && q[0] + 1 !in d {
      RenameOneMore(Renamed(d, q[0]), q[1..], x);
      assert (q + [x])[1..] == q[1..] + [x];
    }
  }

  /** Directories 0, 1, ..., k and no others. */
  ghost predicate Contiguous(d: Dirs, k: nat)
  {
    forall n: nat :: n in d <==> n <= k
  }

  /** Every survivor is one older, the newest is `content`, and only the oldest are gone. */
  ghost predicate Aged(d: Dirs, content: string, after: Dirs, k: nat)
  {
    && Contiguous(after, k)
    && after[0] == content
    && forall n: nat :: 0 < n <= k ==> n - 1 in d && after[n] == d[n - 1]
  }

  /** k, ..., 1, 0. */
  function Down(k: nat): (q: seq<nat>)
  {
    seq(k + 1, (i: nat) requires i <= k => k - i)
  }

  lemma DownFrom(k: nat, i: nat)
    requires i <= k
    ensures Down(k)[i..] == Down(k - i)
  {
  }

  /** Up to number 9 the listing is by decreasing number. */
  lemma {:induction false} DescendingIsDown(q: seq<nat>, k: nat)
    requires k <= 9 && Descending(q) && forall n: nat :: n in q <==> n <= k
    ensures q == Down(k)
    decreases k
  {
    FirstIsLargest(q, k);
    var rest := q[1..];
    assert q == [k] + rest;
    forall j | 0 <= j < |rest| ensures rest[j] < k {
      assert rest[j] == q[j + 1] && q[j + 1] in q && Before(q[j + 1], q[0]);
      NameOrder(q[j + 1], q[0]);
    }
    if k > 0 {
      forall n: nat | n <= k - 1 ensures n in rest {
        assert n in q;
      }
      DescendingIsDown(rest, k - 1);
      assert q == Down(k);
    } else {
      OnlyZero(q);
    }
  }

  lemma OnlyZero(q: seq<nat>)
    requires q != [] && Descending(q) && forall i :: 0 <= i < |q| ==> q[i] == 0
    ensures |q| == 1
  {
    ghost var twice := |q| > 1 && Before(q[1], q[0]);
  }

  lemma FirstIsLargest(q: seq<nat>, k: nat)
    requires k <= 9 && Descending(q) && forall n: nat :: n in q <==> n <= k
    ensures q != [] && q[0] == k
  {
    assert k in q;
    var i :| 0 <= i < |q| && q[i] == k;
    if i > 0 {
      assert q[0] in q && Before(q[i], q[0]);
      NameOrder(q[i], q[0]);
    }
  }

  /** `r` is `d` with the directories in `q` renamed to the next number, as far as `n` goes. */
  ghost predicate ShiftedAt(d: Dirs, q: seq<nat>, r: Dirs, n: nat)
  {
    if n > 0 && n - 1 in q then n - 1 in d && n in r && r[n] == d[n - 1]
    else if n in d && n !in q then n in r && r[n] == d[n]
    else n !in r
  }

  ghost predicate Shifted(d: Dirs, q: seq<nat>, r: Dirs)
  {
    forall n: nat :: ShiftedAt(d, q, r, n)
  }

  ghost predicate AllIn(q: seq<nat>, d: Dirs)
  {
    forall i :: 0 <= i < |q| ==> q[i] in d
  }

  lemma InHeadOrRest(q: seq<nat>, n: nat)
    requires q != []
    ensures n in q <==> n == q[0] || n in q[1..]
  {
    assert q == [q[0]] + q[1..];
  }

  /** A rename run that comes through has moved every directory on by one. */
  lemma {:induction false} RenamedAreShifted(d: Dirs, q: seq<nat>)
    requires RenameAll(d, q).Some? && Distinct(q) && AllIn(q, d)
    ensures Shifted(d, q, RenameAll(d, q).value)
    decreases |q|
  {
    if q != [] {
      var d', rest := Renamed(d, q[0]), q[1..];
      forall i | 0 <= i < |rest| ensures rest[i] in d' { assert q[i + 1] in d; }
      RenamedAreShifted(d', rest);
      forall n: nat ensures ShiftedAt(d, q, RenameAll(d, q).value, n) {
        OneMoreShift(d, q, RenameAll(d', rest).value, n);
      }
    }
  }

  lemma OneMoreShift(d: Dirs, q: seq<nat>, r: Dirs, n: nat)
    requires q != [] && Distinct(q) && AllIn(q, d) && q[0] + 1 !in d
    requires ShiftedAt(Renamed(d, q[0]), q[1..], r, n)
    ensures ShiftedAt(d, q, r, n)
  {
    InHeadOrRest(q, n);
    if n > 0 { InHeadOrRest(q, n - 1); }
    assert q[0] !in q[1..];
  }

  /** The new number of every directory is free, or was freed by an earlier rename. */
  ghost predicate Clear(d: Dirs, q: seq<nat>)
  {
    forall i :: 0 <= i < |q| ==> q[i] + 1 !in d || q[i] + 1 in q[..i]
  }

  /** That is exactly when the renames all come through. */
  lemma {:induction false} RenamesWhenClear(d: Dirs, q: seq<nat>)
    requires Distinct(q) && AllIn(q, d)
    ensures RenameAll(d, q).Some? <==> Clear(d, q)
    decreases |q|
  {
    if q != [] {
      if q[0] + 1 in d {
        assert q[..0] == [];
      } else {
        var d', rest := Renamed(d, q[0]), q[1..];
        forall i | 0 <= i < |rest| ensures rest[i] in d' { assert q[i + 1] in d; }
        RenamesWhenClear(d', rest);
        ClearFromRest(d, q);
      }
    }
  }

  lemma ClearAt(d: Dirs, q: seq<nat>, i: nat)
    requires Distinct(q) && AllIn(q, d) && i + 1 < |q| && q[0] + 1 !in d
    ensures var (d', rest) := (Renamed(d, q[0]), q[1..]);
            (q[i + 1] + 1 !in d || q[i + 1] + 1 in q[..i + 1]) <==> (rest[i] + 1 !in d' || rest[i] + 1 in rest[..i])
  {
    assert q[..i + 1] == [q[0]] + q[1..][..i];
  }

  lemma ClearFromRest(d: Dirs, q: seq<nat>)
    requires q != [] && Distinct(q) && AllIn(q, d) && q[0] + 1 !in d
    ensures Clear(d, q) <==> Clear(Renamed(d, q[0]), q[1..])
  {
    var d', rest := Renamed(d, q[0]), q[1..];
    if Clear(d, q) {
      forall i | 0 <= i < |rest| ensures rest[i] + 1 !in d' || rest[i] + 1 in rest[..i] { ClearAt(d, q, i); }
    }
    if Clear(d', rest) {
      forall j | 0 <= j < |q| ensures q[j] + 1 !in d || q[j] + 1 in q[..j] {
        if j > 0 { ClearAt(d, q, j - 1); }
      }
    }
  }

  /** Renaming from the top down never meets a taken number. */
  lemma RenameDownWorks(d: Dirs, k: nat)
    requires Contiguous(d, k)
    ensures Distinct(Down(k)) && AllIn(Down(k), d) && RenameAll(d, Down(k)).Some?
  {
    DownMembers(k);
    forall i | 0 <= i < |Down(k)| ensures Down(k)[i] + 1 !in d || Down(k)[i] + 1 in Down(k)[..i] {
      if i > 0 {
        assert Down(k)[..i][i - 1] == Down(k)[i] + 1;
      }
    }
    forall i | 0 <= i < |Down(k)| ensures Down(k)[i] in d { assert Down(k)[i] in Down(k); }
    RenamesWhenClear(d, Down(k));
  }

  lemma DownMembers(k: nat)
    ensures |Down(k)| == k + 1
    ensures forall n: nat :: n in Down(k) <==> n <= k
    ensures Distinct(Down(k))
  {
    forall n: nat | n <= k ensures n in Down(k) { assert Down(k)[k - n] == n; }
  }

  /** What is left of 0, ..., k when the first `gone` of the listing are removed. */
  lemma DropOldest(d: Dirs, k: nat, gone: nat)
    requires Contiguous(d, k) && gone <= k + 1
    ensures |Down(k)| == k + 1
    ensures forall n: nat :: n in Drop(d, Down(k)[..gone]) <==> n + gone <= k
  {
    forall n: nat ensures n in Drop(d, Down(k)[..gone]) <==> n + gone <= k {
      if n in Down(k)[..gone] {
        var i :| 0 <= i < gone && Down(k)[i] == n;
      }
      if n <= k < n + gone {
        assert Down(k)[..gone][k - n] == n;
      }
    }
  }

  /** The first `count` directories of `d`, and no others. */
  ghost predicate Newest(d: Dirs, left: Dirs, count: nat)
  {
    && (forall n: nat :: n in left <==> n < count)
    && (forall n: nat :: n in left ==> n in d && left[n] == d[n])
  }

  function DownBelow(count: nat): seq<nat>
  {
    if count == 0 then [] else Down(count - 1)
  }

  /** Renaming what is left ages it. */
  lemma AgeLeft(d: Dirs, left: Dirs, count: nat, content: string)
    requires Newest(d, left, count)
    ensures var r := RenameAll(left, DownBelow(count)); r.Some? && Aged(d, content, r.value[0 := content], count)
  {
    if count > 0 {
      RenameDownWorks(left, count - 1);
      DownMembers(count - 1);
      RenamedAreShifted(left, Down(count - 1));
      ShiftedIsAged(d, left, count - 1, RenameAll(left, Down(count - 1)).value, content);
    }
  }

  lemma RotateDown(d: Dirs, k: nat, keep: nat)
    ensures var gone := if k + 1 > keep then k + 1 - keep else 0;
            |Down(k)| == k + 1 && Rotate(d, Down(k), keep) == RenameAll(Drop(d, Down(k)[..gone]), DownBelow(k + 1 - gone))
  {
    var q, gone := Down(k), if k + 1 > keep then k + 1 - keep else 0;
    assert q[gone..] == DownBelow(k + 1 - gone) by {
      if gone <= k { DownFrom(k, gone); }
    }
    assert q != [] && q[|q| - 1] == 0;
  }

  /** From 0, ..., k with k at most 9, a rotation and a backup give 0, ..., min(k + 1, keep),
      everything aged by one, whatever is dropped being the oldest. */
  lemma RotationAges(d: Dirs, k: nat, keep: nat, q: seq<nat>, content: string)
    requires Contiguous(d, k) && k <= 9 && Listing(q, d)
    ensures Rotate(d, q, keep).Some?
    ensures Aged(d, content, Rotate(d, q, keep).value[0 := content], Min(k + 1, keep))
  {
    DescendingIsDown(q, k);
    AgesDown(d, k, keep, content);
  }

  lemma AgesDown(d: Dirs, k: nat, keep: nat, content: string)
    requires Contiguous(d, k)
    ensures Rotate(d, Down(k), keep).Some?
    ensures Aged(d, content, Rotate(d, Down(k), keep).value[0 := content], Min(k + 1, keep))
  {
    RotateDown(d, k, keep);
    var gone := if k + 1 > keep then k + 1 - keep else 0;
    Remains(d, k, gone);
    var left, count := Drop(d, Down(k)[..gone]), k + 1 - gone;
    assert count == Min(k + 1, keep) && Rotate(d, Down(k), keep) == RenameAll(left, DownBelow(count));
    AgeLeft(d, left, count, content);
  }

  lemma Remains(d: Dirs, k: nat, gone: nat)
    requires Contiguous(d, k) && gone <= k + 1
    ensures |Down(k)| == k + 1 && Newest(d, Drop(d, Down(k)[..gone]), k + 1 - gone)
  {
    DropOldest(d, k, gone);
  }

  lemma ShiftedIsAged(d: Dirs, left: Dirs, k: nat, r: Dirs, content: string)
    requires Newest(d, left, k + 1) && Shifted(left, Down(k), r)
    ensures Aged(d, content, r[0 := content], k + 1)
  {
    DownMembers(k);
    forall n: nat ensures n in r <==> 1 <= n <= k + 1 {
      assert ShiftedAt(left, Down(k), r, n);
      assert n in Down(k) <==> n <= k;
      if n > 0 { assert n - 1 in Down(k) <==> n - 1 <= k; }
    }
    forall n: nat | 0 < n <= k + 1 ensures n - 1 in d && r[n] == d[n - 1] {
      assert ShiftedAt(left, Down(k), r, n);
      assert n - 1 in Down(k);
    }
  }

  // ---------------------------------------------------------------- number 10

  /** The listing of 0, ..., 10 is 9, 8, ..., 2, 10, 1, 0: ".10" sorts between ".1" and ".2". */
  function WithTen(): (q: seq<nat>)
  {
    seq(11, (i: nat) requires i < 11 => if i < 8 then 9 - i else if i == 8 then 10 else 10 - i)
  }

  lemma ListingWithTen(d: Dirs)
    requires Contiguous(d, 10)
    ensures Listing(WithTen(), d)
  {
    var q := WithTen();
    forall a, b | 0 <= a < b < |q| ensures Before(q[b], q[a]) {
      NameOrder(q[b], q[a]);
    }
    forall n: nat | n <= 10 ensures n in q {
      assert q[if n == 10 then 8 else if n >= 2 then 9 - n else 10 - n] == n;
    }
  }

  /** Digits, of which the first is not zero. */
  predicate Numeral(d: string)
  {
    d != "" && d[0] > '0' && forall i :: 0 <= i < |d| ==> '0' <= d[i]
  }

  lemma {:induction false} DigitsAreNumeral(n: nat)
    requires n > 0
    ensures Numeral(Digits(n))
  {
    if n >= 10 { DigitsAreNumeral(n / 10); }
  }

  lemma LexHead(c: char, a: string, b: string)
    ensures LexLt([c] + a, [c] + b) <==> LexLt(a, b)
  {
    assert ([c] + a)[1..] == a && ([c] + b)[1..] == b;
  }

  /** No numeral sorts before "1", and only "1" before "10". */
  lemma NumeralsFromTen(d: string)
    requires Numeral(d)
    ensures !LexLt(d, "1")
    ensures LexLt(d, "10") ==> d == "1"
  {
    if d[0] == '1' {
      var t := d[1..];
      assert d == ['1'] + t && "1" == ['1'] + "" && "10" == ['1'] + "0";
      LexHead('1', t, "");
      LexHead('1', t, "0");
      if t != "" && t[0] == '0' {
        assert t == ['0'] + t[1..] && "0" == ['0'] + "";
        LexHead('0', t[1..], "");
      }
    }
  }

  /** By name, only numbers 0 and 1 come before 10, only 0 before 1, and none before 0. */
  lemma BeforeTen(n: nat)
    ensures !Before(n, 0) && (n > 0 ==> Before(0, n))
    ensures Before(n, 1) ==> n == 0
    ensures Before(n, 10) ==> n <= 1
  {
    if n > 1 {
      TenByDigits(n);
      DigitsAreNumeral(n);
      NumeralsFromTen(Digits(n));
      if Digits(n) == "1" {
        assert Digits(1) == "1";
        DigitsDiffer(n, 1);
      }
    }
  }

  lemma TenByDigits(n: nat)
    requires n > 0
    ensures (Before(n, 1) <==> LexLt(Digits(n), "1")) && (Before(n, 10) <==> LexLt(Digits(n), "10"))
  {
    SuffixValue(1);
    SuffixValue(10);
    assert Suffix(n) == ['.'] + Digits(n) && Suffix(1) == ['.'] + "1" && Suffix(10) == ['.'] + "10";
    LexHead('.', Digits(n), "1");
    LexHead('.', Digits(n), "10");
  }

  /** In a listing, an element that none of the first `e` comes before, and that is one of
      them, is the last of them. */
  lemma JustBefore(q: seq<nat>, x: nat, e: nat)
    requires Descending(q) && x in q && e <= |q|
    requires forall j :: 0 <= j < e ==> !Before(q[j], x)
    requires forall j :: e <= j < |q| ==> q[j] != x
    ensures e > 0 && q[e - 1] == x
  {
    var i :| 0 <= i < |q| && q[i] == x;
    assert i < e && !Before(q[e - 1], x);
    PlacedByName(q, e - 1, i);
  }

  lemma PlacedByName(q: seq<nat>, i: nat, j: nat)
    requires Descending(q) && i < |q| && j < |q| && !Before(q[i], q[j])
    ensures i <= j
  {
  }

  lemma DescendingIsDistinct(q: seq<nat>)
    requires Descending(q)
    ensures Distinct(q)
  {
    forall i, j | 0 <= i < j < |q| ensures q[i] != q[j] {
      assert Before(q[j], q[i]);
    }
  }

  lemma LastIsZero(q: seq<nat>)
    requires Descending(q) && 0 in q
    ensures |q| >= 1 && q[|q| - 1] == 0
  {
    forall j | 0 <= j < |q| ensures !Before(q[j], 0) { BeforeTen(q[j]); }
    JustBefore(q, 0, |q|);
  }

  lemma ThenOne(q: seq<nat>)
    requires Descending(q) && Distinct(q) && 1 in q && q[|q| - 1] == 0
    ensures |q| >= 2 && q[|q| - 2] == 1
  {
    forall j | 0 <= j < |q| - 1 ensures !Before(q[j], 1) { BeforeTen(q[j]); }
    JustBefore(q, 1, |q| - 1);
  }

  lemma ThenTen(q: seq<nat>)
    requires Descending(q) && Distinct(q) && 10 in q && |q| >= 2 && q[|q| - 1] == 0 && q[|q| - 2] == 1
    ensures |q| >= 3 && q[|q| - 3] == 10
  {
    forall j | 0 <= j < |q| - 2 ensures !Before(q[j], 10) { BeforeTen(q[j]); }
    JustBefore(q, 10, |q| - 2);
  }

  /** The end of the listing of 0, ..., k when there is a number 10. */
  lemma ListingEnds(d: Dirs, k: nat, q: seq<nat>)
    requires Contiguous(d, k) && k >= 10 && Listing(q, d)
    ensures Distinct(q) && |q| >= 3 && q[|q| - 1] == 0 && q[|q| - 2] == 1 && q[|q| - 3] == 10
  {
    DescendingIsDistinct(q);
    assert 0 in q && 1 in q && 10 in q;
    LastIsZero(q);
    ThenOne(q);
    ThenTen(q);
  }

  /** With three or more left, a rotation that does not fail leaves something else than the aged
      survivors. */
  lemma TenSpoilsRotation(d: Dirs, k: nat, q: seq<nat>, gone: nat, content: string, m: nat)
    requires Contiguous(d, k) && k >= 10 && Listing(q, d) && gone + 3 <= |q|
    requires RenameAll(Drop(d, q[..gone]), q[gone..]).Some?
    ensures !Aged(d, content, RenameAll(Drop(d, q[..gone]), q[gone..]).value[0 := content], m)
  {
    ListingEnds(d, k, q);
    RestIsLeft(d, q, gone);
    assert q[gone..][|q| - 3 - gone] == 10;
    TenLeft(d, Drop(d, q[..gone]), q[gone..], content, m);
  }

  lemma TenLeft(d: Dirs, left: Dirs, rest: seq<nat>, content: string, m: nat)
    requires Descending(rest) && AllIn(rest, left) && 10 in rest && RenameAll(left, rest).Some?
    ensures !Aged(d, content, RenameAll(left, rest).value[0 := content], m)
  {
    DescendingIsDistinct(rest);
    RenamesWhenClear(left, rest);
    RenamedAreShifted(left, rest);
    if Aged(d, content, RenameAll(left, rest).value[0 := content], m) {
      NineSurvives(d, left, rest, RenameAll(left, rest).value, content, m);
      NineBlocks(left, rest);
    }
  }

  /** Where 10 becomes 11 and there is no gap, 9 has become 10. */
  lemma NineSurvives(d: Dirs, left: Dirs, rest: seq<nat>, r: Dirs, content: string, m: nat)
    requires Shifted(left, rest, r) && AllIn(rest, left) && 10 in rest
    requires Aged(d, content, r[0 := content], m)
    ensures 9 in rest
  {
    assert ShiftedAt(left, rest, r, 11) && 11 in r;
    assert 11 in r[0 := content] && 10 in r[0 := content] && 10 in r;
    assert ShiftedAt(left, rest, r, 10);
  }

  lemma RestIsLeft(d: Dirs, q: seq<nat>, gone: nat)
    requires Descending(q) && Distinct(q) && AllIn(q, d) && gone <= |q|
    ensures Descending(q[gone..]) && Distinct(q[gone..]) && AllIn(q[gone..], Drop(d, q[..gone]))
  {
  }

  /** With 9 before 10 in the listing, number 9 finds its new number taken. */
  lemma NineBlocks(left: Dirs, rest: seq<nat>)
    requires Descending(rest) && AllIn(rest, left) && 9 in rest && 10 in rest
    ensures !Clear(left, rest)
  {
    var i :| 0 <= i < |rest| && rest[i] == 9;
    var j :| 0 <= j < |rest| && rest[j] == 10;
    NameOrder(9, 10);
    DescendingIsDistinct(rest);
    PlacedByName(rest, i, j);
    assert 10 in left && 10 !in rest[..i];
  }

  /** Keeping at most two, the directories left are the newest even so. */
  lemma FewSurvive(d: Dirs, k: nat, keep: nat, q: seq<nat>, content: string)
    requires Contiguous(d, k) && k >= 10 && keep <= 2 && Listing(q, d)
    ensures Rotate(d, q, keep).Some? && Aged(d, content, Rotate(d, q, keep).value[0 := content], keep)
  {
    ListingEnds(d, k, q);
    var gone := |q| - keep;
    var left, rest := Drop(d, q[..gone]), q[gone..];
    assert rest == DownBelow(keep);
    NewestLeft(d, q, keep);
    AgeLeft(d, left, keep, content);
  }

  lemma InTakeOrDrop(q: seq<nat>, i: nat, n: nat)
    requires i <= |q|
    ensures n in q <==> n in q[..i] || n in q[i..]
  {
    assert q == q[..i] + q[i..];
  }

  /** The directories that a rotation keeps: the last `keep` of the listing. */
  function Staying(q: seq<nat>, keep: nat): seq<nat>
  {
    if |q| > keep then q[|q| - keep..] else q
  }

  /** Each of them finds its next number free, or freed by one renamed before it. */
  ghost predicate FreeAhead(stay: seq<nat>)
  {
    forall i :: 0 <= i < |stay| ==> stay[i] + 1 !in stay || stay[i] + 1 in stay[..i]
  }

  /** `after` has the directories of `d` in `stay`, moved on by `on`, and no others. */
  ghost predicate Carried(d: Dirs, stay: seq<nat>, on: nat, after: Dirs)
  {
    && (forall n: nat :: n in after <==> n >= on && n - on in stay)
    && forall n: nat :: n in after ==> n - on in d && after[n] == d[n - on]
  }

  lemma LeftStays(d: Dirs, q: seq<nat>, gone: nat, n: nat)
    requires Listing(q, d) && gone <= |q|
    ensures n in Drop(d, q[..gone]) <==> n in q[gone..]
  {
    DescendingIsDistinct(q);
    InTakeOrDrop(q, gone, n);
  }

  lemma AllShift(left: Dirs, stay: seq<nat>)
    requires Distinct(stay) && AllIn(stay, left) && forall n: nat :: n in left <==> n in stay
    ensures RenameAll(left, stay).Some? <==> FreeAhead(stay)
    ensures RenameAll(left, stay).Some? ==> Carried(left, stay, 1, RenameAll(left, stay).value)
  {
    RenamesWhenClear(left, stay);
    if RenameAll(left, stay).Some? {
      RenamedAreShifted(left, stay);
      AllMoved(left, stay, RenameAll(left, stay).value);
    }
  }

  lemma AllMoved(left: Dirs, stay: seq<nat>, r: Dirs)
    requires Shifted(left, stay, r) && forall n: nat :: n in left <==> n in stay
    ensures Carried(left, stay, 1, r)
  {
    forall n: nat ensures n in r <==> n >= 1 && n - 1 in stay { assert ShiftedAt(left, stay, r, n); }
    forall n: nat | n in r ensures n - 1 in left && r[n] == left[n - 1] { assert ShiftedAt(left, stay, r, n); }
  }

  lemma KeptAre(d: Dirs, q: seq<nat>, keep: nat) returns (left: Dirs)
    requires Listing(q, d)
    ensures Rotate(d, q, keep) == if 0 in d then RenameAll(left, Staying(q, keep)) else Some(left)
    ensures Distinct(Staying(q, keep)) && AllIn(Staying(q, keep), left) && Carried(d, Staying(q, keep), 0, left)
  {
    var gone := if |q| > keep then |q| - keep else 0;
    left := Drop(d, q[..gone]);
    assert q[gone..] == Staying(q, keep);
    ZeroIsLast(d, q);
    DescendingIsDistinct(q);
    RestIsLeft(d, q, gone);
    forall n: nat ensures n in left <==> n in q[gone..] { LeftStays(d, q, gone, n); }
  }

  /** Whatever directories there are: without an unnumbered one only the surplus is removed. */
  lemma NothingMoves(d: Dirs, q: seq<nat>, keep: nat)
    requires Listing(q, d) && 0 !in d
    ensures Rotate(d, q, keep).Some? && Carried(d, Staying(q, keep), 0, Rotate(d, q, keep).value)
  {
    var left := KeptAre(d, q, keep);
  }

  /** With one, the rotation comes through exactly if each next number is free in time, and then all
      that stay have moved on by one. */
  lemma AllMoveOn(d: Dirs, q: seq<nat>, keep: nat)
    requires Listing(q, d) && 0 in d
    ensures Rotate(d, q, keep).Some? <==> FreeAhead(Staying(q, keep))
    ensures Rotate(d, q, keep).Some? ==> Carried(d, Staying(q, keep), 1, Rotate(d, q, keep).value)
  {
    var left := KeptAre(d, q, keep);
    AllShift(left, Staying(q, keep));
  }

  lemma ZeroIsLast(d: Dirs, q: seq<nat>)
    requires Listing(q, d)
    ensures 0 in d <==> q != [] && q[|q| - 1] == 0
  {
    if 0 in d { LastIsZero(q); }
    assert q != [] ==> q[|q| - 1] in q;
  }

  lemma NewestLeft(d: Dirs, q: seq<nat>, keep: nat)
    requires keep <= |q| && Distinct(q) && AllIn(q, d) && (forall n: nat :: n in d ==> n in q) && q[|q| - keep..] == DownBelow(keep)
    ensures Newest(d, Drop(d, q[..|q| - keep]), keep)
  {
    var gone := |q| - keep;
    var rest := q[gone..];
    if keep > 0 { DownMembers(keep - 1); }
    forall n: nat ensures n in Drop(d, q[..gone]) <==> n < keep {
      assert n in rest <==> n < keep;
      if n < keep {
        var i :| 0 <= i < |rest| && rest[i] == n;
        assert q[gone + i] == n;
      }
      InTakeOrDrop(q, gone, n);
    }
  }

  /** From 0, ..., k a rotation and a backup do what is meant, for every listing by name, exactly
      when there is no number 10 yet or at most two directories are kept. */
  lemma RotationAgesIff(d: Dirs, k: nat, keep: nat, q: seq<nat>, content: string)
    requires Contiguous(d, k) && Listing(q, d)
    ensures Rotate(d, q, keep).Some? && Aged(d, content, Rotate(d, q, keep).value[0 := content], Min(k + 1, keep))
            <==> k <= 9 || keep <= 2
  {
    if k <= 9 {
      RotationAges(d, k, keep, q, content);
    } else if keep <= 2 {
      FewSurvive(d, k, keep, q, content);
    } else {
      ListingEnds(d, k, q);
      var gone := if |q| > keep then |q| - keep else 0;
      assert Rotate(d, q, keep) == RenameAll(Drop(d, q[..gone]), q[gone..]);
      if Rotate(d, q, keep).Some? { TenSpoilsRotation(d, k, q, gone, content, Min(k + 1, keep)); }
    }
  }

  /** With room for more than 10, the first rename, of number 9, finds 10 taken and fails. */
  lemma TenCollides(d: Dirs, keep: nat)
    requires Contiguous(d, 10) && keep >= 11
    ensures Rotate(d, WithTen(), keep) == None
  {
    assert WithTen()[..0] == [] && WithTen()[0..] == WithTen() && Drop(d, []) == d;
  }

  /** With room for exactly 10, the renames come through but number 9 is removed in place of the
      oldest: a gap at 10 and a number 11 result. */
  lemma TenDropsWrong(d: Dirs)
    requires Contiguous(d, 10)
    ensures var r := Rotate(d, WithTen(), 10); r.Some? && 10 !in r.value && 11 in r.value && r.value[11] == d[10]
  {
    var q := WithTen();
    var left, rest := Drop(d, q[..1]), q[1..];
    assert q[..1] == [9];
    TenRestIsClear(left, rest);
    RenamesWhenClear(left, rest);
    RenamedAreShifted(left, rest);
    var r := RenameAll(left, rest).value;
    assert ShiftedAt(left, rest, r, 10) && ShiftedAt(left, rest, r, 11);
    assert rest[7] == 10 && 9 !in rest;
  }

  lemma TenRestIsClear(left: Dirs, rest: seq<nat>)
    requires rest == WithTen()[1..] && forall n: nat :: n in left <==> n <= 10 && n != 9
    ensures Distinct(rest) && AllIn(rest, left) && Clear(left, rest)
  {
    forall i | 0 <= i < |rest| ensures rest[i] + 1 !in left || rest[i] + 1 in rest[..i] {
      if i == 8 {
        assert rest[..8][6] == 2;
      } else if i == 9 {
        assert rest[..9][8] == 1;
      } else if 0 < i < 7 {
        assert rest[..i][i - 1] == rest[i] + 1;
      }
    }
  }

  /** Rotations that came through, each with the backup after it. */
  ghost predicate Runs(states: seq<Dirs>, keep: nat)
  {
    && states != []
    && forall i :: 0 < i < |states| ==> BackedUp(states[i - 1], states[i], keep)
  }

  ghost predicate BackedUp(d: Dirs, after: Dirs, keep: nat)
  {
    exists q, content :: Round(d, q, content, after, keep)
  }

  /** One run: the rotation comes through and etcdctl fills directory 0 with `content`. */
  ghost predicate Round(d: Dirs, q: seq<nat>, content: string, after: Dirs, keep: nat)
  {
    Listing(q, d) && Rotate(d, q, keep).Some? && after == Rotate(d, q, keep).value[0 := content]
  }

  /** With --keep at most 9 all histories stay contiguous, and the next rotation comes through. */
  lemma {:induction false} KeepsItsShape(states: seq<Dirs>, keep: nat, k: nat, i: nat)
    requires Runs(states, keep) && keep <= 9 && k <= 9 && Contiguous(states[0], k) && i < |states|
    ensures exists m: nat :: m <= 9 && Contiguous(states[i], m)
    ensures forall q :: Listing(q, states[i]) ==> Rotate(states[i], q, keep).Some?
    decreases i
  {
    var m := k;
    if i > 0 {
      KeepsItsShape(states, keep, k, i - 1);
      var m': nat :| m' <= 9 && Contiguous(states[i - 1], m');
      assert BackedUp(states[i - 1], states[i], keep);
      var q, content :| Round(states[i - 1], q, content, states[i], keep);
      RotationAges(states[i - 1], m', keep, q, content);
      m := Min(m' + 1, keep);
    }
    assert Contiguous(states[i], m);
    forall q | Listing(q, states[i]) ensures Rotate(states[i], q, keep).Some? {
      RotationAges(states[i], m, keep, q, "");
    }
  }

  // ---------------------------------------------------------------- the program

  lemma DigitIs(a: nat, b: nat)
    requires a < 10 && b < 10 && "0123456789"[a] == "0123456789"[b]
    ensures a == b
  {
  }

  lemma DigitsSplit(i: nat)
    ensures |Digits(i)| > 0 && (i >= 10 <==> |Digits(i)| > 1)
    ensures Digits(i)[|Digits(i)| - 1] == "0123456789"[i % 10]
    ensures Digits(i)[..|Digits(i)| - 1] == if i < 10 then "" else Digits(i / 10)
  {
  }

  lemma {:induction false} DigitsDiffer(i: nat, j: nat)
    requires Digits(i) == Digits(j)
    ensures i == j
  {
    DigitsSplit(i);
    DigitsSplit(j);
    DigitIs(i % 10, j % 10);
    if i >= 10 && j >= 10 {
      DigitsDiffer(i / 10, j / 10);
    }
  }

  lemma NamesAreOrdered(i: nat, j: nat)
    requires i != j
    ensures Before(i, j) || Before(j, i)
  {
    LexTotal(Suffix(i), Suffix(j));
    if Suffix(i) == Suffix(j) {
      assert i > 0 && j > 0;
      assert Suffix(i)[1..] == Digits(i) && Suffix(j)[1..] == Digits(j);
      DigitsDiffer(i, j);
    }
  }

  lemma BeforeIsTransitive(i: nat, j: nat, k: nat)
    requires Before(i, j) && Before(j, k)
    ensures Before(i, k)
  {
    LexTransitive(Suffix(i), Suffix(j), Suffix(k));
    if Suffix(i) == Suffix(k) { LexAntisymmetric(Suffix(i), Suffix(j)); }
  }

  ghost predicate IsLast(m: nat, s: set<nat>)
  {
    m in s && forall n: nat :: n in s ==> n == m || Before(n, m)
  }

  lemma {:induction false} HasLast(s: set<nat>)
    requires s != {}
    ensures exists m: nat :: IsLast(m, s)
    decreases |s|
  {
    var x: nat :| x in s;
    var rest := s - {x};
    if rest == {} {
      assert s == {x};
      assert IsLast(x, s);
    } else {
      HasLast(rest);
      var m: nat :| IsLast(m, rest);
      assert forall n: nat :: n in s ==> n == x || n in rest;
      NamesAreOrdered(m, x);
      if Before(x, m) {
        assert IsLast(m, s);
      } else {
        forall n: nat | n in rest && n != m ensures Before(n, x) { BeforeIsTransitive(n, m, x); }
        assert IsLast(x, s);
      }
    }
  }

  /** `q` lists what is not in `todo`, and all that is in `todo` comes before it by name. */
  ghost predicate ListedSoFar(q: seq<nat>, todo: set<nat>, all: set<nat>)
  {
    && Descending(q) && todo <= all
    && (forall n: nat :: n in all <==> n in q || n in todo)
    && (forall i, n: nat :: 0 <= i < |q| && n in todo ==> Before(n, q[i]))
  }

  lemma OneMoreListed(q: seq<nat>, todo: set<nat>, all: set<nat>, m: nat)
    requires ListedSoFar(q, todo, all) && IsLast(m, todo)
    ensures ListedSoFar(q + [m], todo - {m}, all)
  {
    var longer := q + [m];
    forall n: nat ensures n in longer <==> n in q || n == m {}
    forall i, n: nat | 0 <= i < |longer| && n in todo - {m} ensures Before(n, longer[i]) {
      assert n in todo;
    }
  }

  class BackupRoot {
    var dirs: Dirs

    constructor (dirs: Dirs)
      ensures this.dirs == dirs
    {
      this.dirs := dirs;
    }

    /** The last of some numbers by name. */
    method Last(s: set<nat>) returns (m: nat)
      requires s != {}
      ensures IsLast(m, s)
    {
      HasLast(s);
      m :| m in s && forall n: nat :: n in s ==> n == m || Before(n, m);
    }

    /** The directories sorted by name, last one first. */
    method List() returns (q: seq<nat>)
      ensures Listing(q, dirs)
    {
      q := [];
      var todo := dirs.Keys;
      while todo != {}
        invariant ListedSoFar(q, todo, dirs.Keys)
        decreases todo
      {
        var m := Last(todo);
        OneMoreListed(q, todo, dirs.Keys, m);
        q := q + [m];
        todo := todo - {m};
      }
    }

    /** rotate_logs; false stands for the OSError of a rename onto a directory that exists. */
    method RotateLogs(keep: nat) returns (ok: bool, ghost q: seq<nat>)
      modifies this
      ensures Listing(q, old(dirs))
      ensures ok <==> Rotate(old(dirs), q, keep).Some?
      ensures ok ==> dirs == Rotate(old(dirs), q, keep).value
      ensures !ok ==> RotationStuck(old(dirs), q, keep, dirs)
    {
      var backupdirs := List();
      q := backupdirs;
      var gone := if |backupdirs| > keep then |backupdirs| - keep else 0;
      RemoveEach(backupdirs[..gone]);
      ok := true;
      if |backupdirs| == 0 || backupdirs[|backupdirs| - 1] != 0 { return; }
      ok := RenameEach(backupdirs[gone..]);
    }

    method RemoveEach(todo: seq<nat>)
      modifies this
      ensures dirs == Drop(old(dirs), todo)
    {
      for i := 0 to |todo|
        invariant dirs == Drop(old(dirs), todo[..i])
      {
        dirs := dirs - {todo[i]};
        assert todo[..i + 1] == todo[..i] + [todo[i]];
      }
      assert todo[..|todo|] == todo;
    }

    method RenameEach(todo: seq<nat>) returns (ok: bool)
      modifies this
      ensures ok <==> RenameAll(old(dirs), todo).Some?
      ensures ok ==> dirs == RenameAll(old(dirs), todo).value
      ensures !ok ==> exists i :: StuckAt(old(dirs), todo, i, dirs)
    {
      for i := 0 to |todo|
        invariant RenameAll(old(dirs), todo) == RenameAll(dirs, todo[i..])
        invariant RenameAll(old(dirs), todo[..i]) == Some(dirs)
      {
        assert todo[i..][1..] == todo[i + 1..];
        if todo[i] !in dirs || todo[i] + 1 in dirs {
          assert StuckAt(old(dirs), todo, i, dirs);
          return false;
        }
        RenameOneMore(old(dirs), todo[..i], todo[i]);
        assert todo[..i + 1] == todo[..i] + [todo[i]];
        dirs := Renamed(dirs, todo[i]);
      }
      ok := true;
    }

    /** The program: a rotation, then a backup into directory 0. */
    method Backup(keep: nat, content: string) returns (ok: bool)
      modifies this
      ensures ok ==> BackedUp(old(dirs), dirs, keep)
      ensures !ok ==> exists q :: Listing(q, old(dirs)) && Rotate(old(dirs), q, keep) == None && RotationStuck(old(dirs), q, keep, dirs)
    {
      ghost var q;
      ok, q := RotateLogs(keep);
      if ok {
        dirs := dirs[0 := content];
        assert Round(old(dirs), q, content, dirs, keep);
      }
    }
  }
}
