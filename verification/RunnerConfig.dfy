/** modules/gitlab_runner/files/gitlab-runner-merge-configs.py: merging parsed runner configs. */
module RunnerConfig {
  import opened Common

  /** A parsed TOML value; the order of keys is not kept, as the program does not keep it. */
  datatype Value = Scalar(text: string) | List(items: seq<Value>) | Dict(fields: map<string, Value>)

  /** A list under this key is merged index by index. */
  const RUNNERS := Some("runners")

  function Get(d: map<string, Value>, k: string): Option<Value>
  {
    if k in d then Some(d[k]) else None
  }

  function ItemOrNone(s: seq<Value>, i: nat): Option<Value>
  {
    if i < |s| then Some(s[i]) else None
  }

  function Longer(a: nat, b: nat): nat
  {
    if a < b then b else a
  }

  /** merge with both values present; `field` is the key they stand under, if any. */
  function MergeValues(a: Value, b: Value, field: Option<string>): Value
    decreases b
  {
    if a.List? && b.List? then
      if field == RUNNERS then
        List(seq(Longer(|a.items|, |b.items|), (i: nat) requires i < Longer(|a.items|, |b.items|) =>
          if i < |a.items| && i < |b.items| then MergeValues(a.items[i], b.items[i], None)
          else if i < |b.items| then b.items[i] else a.items[i]))
      else List(a.items + b.items)
    else if a.Dict? && b.Dict? then
      Dict(map k | k in a.fields.Keys + b.fields.Keys ::
        if k in a.fields && k in b.fields then MergeValues(a.fields[k], b.fields[k], Some(k))
        else if k in b.fields then b.fields[k] else a.fields[k])
    else b
  }

  function Merge(a: Option<Value>, b: Option<Value>, field: Option<string>): Option<Value>
  {
    if b.None? then a else if a.None? then b else Some(MergeValues(a.value, b.value, field))
  }

  // ---------------------------------------------------------------- level by level

  /** Every key of either side, merged under that key; nothing else. */
  lemma MergeGet(a: Value, b: Value, field: Option<string>, k: string)
    requires a.Dict? && b.Dict?
    ensures MergeValues(a, b, field).Dict?
    ensures Get(MergeValues(a, b, field).fields, k) == Merge(Get(a.fields, k), Get(b.fields, k), Some(k))
  {
  }

  /** Every runner of either side, merged by index; nothing else. */
  lemma MergeItem(a: Value, b: Value, i: nat)
    requires a.List? && b.List?
    ensures MergeValues(a, b, RUNNERS).List?
    ensures |MergeValues(a, b, RUNNERS).items| == Longer(|a.items|, |b.items|)
    ensures ItemOrNone(MergeValues(a, b, RUNNERS).items, i) == Merge(ItemOrNone(a.items, i), ItemOrNone(b.items, i), None)
  {
  }

  /** Any other two lists are joined, the first file's items before the second's. */
  lemma ListsJoin(a: Value, b: Value, field: Option<string>)
    requires a.List? && b.List? && field != RUNNERS
    ensures var m := MergeValues(a, b, field);
            m.List? && m.items[..|a.items|] == a.items && m.items[|a.items|..] == b.items
  {
  }

  predicate SameContainer(a: Value, b: Value)
  {
    (a.List? && b.List?) || (a.Dict? && b.Dict?)
  }

  /** Where the two are not both lists or both tables, the second file's value stands. */
  lemma OthersReplaced(a: Value, b: Value, field: Option<string>)
    requires !SameContainer(a, b)
    ensures MergeValues(a, b, field) == b
  {
  }

  // ---------------------------------------------------------------- when merge is associative

  /** `a` holds nothing that merging it below `c` would add to `c`. */
  ghost predicate AddsNothing(a: Value, c: Value, field: Option<string>)
    decreases c
  {
    if a.List? && c.List? then
      if field == RUNNERS then
        |a.items| <= |c.items| && forall i: nat :: i < |a.items| ==> AddsNothing(a.items[i], c.items[i], None)
      else a.items == []
    else if a.Dict? && c.Dict? then
      a.fields.Keys <= c.fields.Keys && forall k :: k in a.fields ==> AddsNothing(a.fields[k], c.fields[k], Some(k))
    else true
  }

  /** Where all three files have a value and the outer two are lists, or tables, that the middle
      one replaces by something else, the first adds nothing to the third. */
  ghost predicate Agree(a: Value, b: Value, c: Value, field: Option<string>)
    decreases a
  {
    if SameContainer(a, c) && !SameContainer(a, b) then AddsNothing(a, c, field)
    else if a.List? && b.List? && c.List? then
      field == RUNNERS ==>
        forall i: nat :: i < |a.items| && i < |b.items| && i < |c.items| ==> Agree(a.items[i], b.items[i], c.items[i], None)
    else if a.Dict? && b.Dict? && c.Dict? then
      forall k :: k in a.fields && k in b.fields && k in c.fields ==> Agree(a.fields[k], b.fields[k], c.fields[k], Some(k))
    else true
  }

  lemma DictsEqual(d: Value, e: Value)
    requires d.Dict? && e.Dict?
    ensures d == e <==> forall k :: Get(d.fields, k) == Get(e.fields, k)
  {
    if forall k :: Get(d.fields, k) == Get(e.fields, k) {
      forall k ensures k in d.fields <==> k in e.fields {
        assert Get(d.fields, k) == Get(e.fields, k);
      }
      forall k | k in d.fields ensures d.fields[k] == e.fields[k] {
        assert Get(d.fields, k) == Get(e.fields, k);
      }
      assert d.fields == e.fields;
    }
  }

  lemma ListsEqual(d: Value, e: Value)
    requires d.List? && e.List?
    ensures d == e <==> forall i: nat :: ItemOrNone(d.items, i) == ItemOrNone(e.items, i)
  {
    if forall i: nat :: ItemOrNone(d.items, i) == ItemOrNone(e.items, i) {
      assert ItemOrNone(d.items, |d.items|) == ItemOrNone(e.items, |d.items|);
      assert ItemOrNone(d.items, |e.items|) == ItemOrNone(e.items, |e.items|);
      forall i | 0 <= i < |d.items| ensures d.items[i] == e.items[i] {
        assert ItemOrNone(d.items, i) == ItemOrNone(e.items, i);
      }
      assert d.items == e.items;
    }
  }

  lemma {:induction false} AbsorbedIffAddsNothing(a: Value, c: Value, field: Option<string>)
    ensures MergeValues(a, c, field) == c <==> AddsNothing(a, c, field)
    decreases c
  {
    var m := MergeValues(a, c, field);
    if a.List? && c.List? {
      if field == RUNNERS {
        forall i: nat | i < |a.items| && i < |c.items|
          ensures MergeValues(a.items[i], c.items[i], None) == c.items[i] <==> AddsNothing(a.items[i], c.items[i], None)
        {
          AbsorbedIffAddsNothing(a.items[i], c.items[i], None);
        }
        ListsEqual(m, c);
      } else {
        assert |m.items| == |a.items| + |c.items|;
      }
    } else if a.Dict? && c.Dict? {
      forall k | k in a.fields && k in c.fields
        ensures MergeValues(a.fields[k], c.fields[k], Some(k)) == c.fields[k] <==> AddsNothing(a.fields[k], c.fields[k], Some(k))
      {
        AbsorbedIffAddsNothing(a.fields[k], c.fields[k], Some(k));
      }
      AbsorbedDicts(a, c, field);
    }
  }

  lemma AbsorbedDicts(a: Value, c: Value, field: Option<string>)
    requires a.Dict? && c.Dict?
    ensures MergeValues(a, c, field) == c <==>
            && a.fields.Keys <= c.fields.Keys
            && forall k :: k in a.fields ==> MergeValues(a.fields[k], c.fields[k], Some(k)) == c.fields[k]
  {
    var m := MergeValues(a, c, field);
    if m == c {
      forall k | k in a.fields ensures k in c.fields && MergeValues(a.fields[k], c.fields[k], Some(k)) == c.fields[k] {
        assert k in m.fields;
      }
    }
  }

  ghost predicate Associates(a: Value, b: Value, c: Value, field: Option<string>)
  {
    MergeValues(MergeValues(a, b, field), c, field) == MergeValues(a, MergeValues(b, c, field), field)
  }

  /** Merging left to right or right to left gives the same exactly when the three agree. */
  lemma {:induction false} AssociativeIffAgree(a: Value, b: Value, c: Value, field: Option<string>)
    ensures Associates(a, b, c, field) <==> Agree(a, b, c, field)
    decreases a
  {
    if SameContainer(a, c) && !SameContainer(a, b) {
      AbsorbedIffAddsNothing(a, c, field);
    } else if a.List? && b.List? && c.List? {
      if field == RUNNERS {
        forall i: nat | i < |a.items| && i < |b.items| && i < |c.items|
          ensures Associates(a.items[i], b.items[i], c.items[i], None) <==> Agree(a.items[i], b.items[i], c.items[i], None)
        {
          AssociativeIffAgree(a.items[i], b.items[i], c.items[i], None);
        }
        RunnersAssociate(a, b, c);
      } else {
        assert a.items + b.items + c.items == a.items + (b.items + c.items);
      }
    } else if a.Dict? && b.Dict? && c.Dict? {
      forall k | k in a.fields && k in b.fields && k in c.fields
        ensures Associates(a.fields[k], b.fields[k], c.fields[k], Some(k)) <==> Agree(a.fields[k], b.fields[k], c.fields[k], Some(k))
      {
        AssociativeIffAgree(a.fields[k], b.fields[k], c.fields[k], Some(k));
      }
      DictsAssociate(a, b, c, field);
    }
  }

  lemma DictsAssociate(a: Value, b: Value, c: Value, field: Option<string>)
    requires a.Dict? && b.Dict? && c.Dict?
    ensures Associates(a, b, c, field) <==>
            forall k :: k in a.fields && k in b.fields && k in c.fields ==> Associates(a.fields[k], b.fields[k], c.fields[k], Some(k))
  {
    var ab, bc := MergeValues(a, b, field), MergeValues(b, c, field);
    var l, r := MergeValues(ab, c, field), MergeValues(a, bc, field);
    forall k
      ensures Get(l.fields, k) == Get(r.fields, k) <==>
              (k in a.fields && k in b.fields && k in c.fields ==> Associates(a.fields[k], b.fields[k], c.fields[k], Some(k)))
    {
      MergeGet(a, b, field, k);
      MergeGet(b, c, field, k);
      MergeGet(ab, c, field, k);
      MergeGet(a, bc, field, k);
    }
    DictsEqual(l, r);
  }

  lemma RunnersAssociate(a: Value, b: Value, c: Value)
    requires a.List? && b.List? && c.List?
    ensures Associates(a, b, c, RUNNERS) <==>
            forall i: nat :: i < |a.items| && i < |b.items| && i < |c.items| ==> Associates(a.items[i], b.items[i], c.items[i], None)
  {
    var ab, bc := MergeValues(a, b, RUNNERS), MergeValues(b, c, RUNNERS);
    var l, r := MergeValues(ab, c, RUNNERS), MergeValues(a, bc, RUNNERS);
    forall i: nat
      ensures ItemOrNone(l.items, i) == ItemOrNone(r.items, i) <==>
              (i < |a.items| && i < |b.items| && i < |c.items| ==> Associates(a.items[i], b.items[i], c.items[i], None))
    {
      MergeItem(a, b, i);
      MergeItem(b, c, i);
      MergeItem(ab, c, i);
      MergeItem(a, bc, i);
    }
    ListsEqual(l, r);
  }

  // ---------------------------------------------------------------- folding the files

  /** Wherever both files have a value, it is of the same kind. */
  ghost predicate Alike(a: Value, b: Value, field: Option<string>)
    decreases a
  {
    && (a.Scalar? <==> b.Scalar?) && (a.List? <==> b.List?)
    && (a.List? && field == RUNNERS ==> forall i: nat :: i < |a.items| && i < |b.items| ==> Alike(a.items[i], b.items[i], None))
    && (a.Dict? ==> forall k :: k in a.fields && k in b.fields ==> Alike(a.fields[k], b.fields[k], Some(k)))
  }

  lemma {:induction false} AlikeAgree(a: Value, b: Value, c: Value, field: Option<string>)
    requires Alike(a, b, field) && Alike(b, c, field) && Alike(a, c, field)
    ensures Agree(a, b, c, field)
    decreases a
  {
    if a.List? && field == RUNNERS {
      forall i: nat | i < |a.items| && i < |b.items| && i < |c.items| ensures Agree(a.items[i], b.items[i], c.items[i], None) {
        AlikeAgree(a.items[i], b.items[i], c.items[i], None);
      }
    } else if a.Dict? {
      forall k | k in a.fields && k in b.fields && k in c.fields ensures Agree(a.fields[k], b.fields[k], c.fields[k], Some(k)) {
        AlikeAgree(a.fields[k], b.fields[k], c.fields[k], Some(k));
      }
    }
  }

  /** A file that is like two files is like their merge. */
  lemma {:induction false} AlikeMerged(a: Value, b: Value, c: Value, field: Option<string>)
    requires Alike(a, b, field) && Alike(a, c, field)
    ensures Alike(a, MergeValues(b, c, field), field)
    decreases a
  {
    var m := MergeValues(b, c, field);
    if a.List? && field == RUNNERS {
      forall i: nat | i < |a.items| && i < |m.items| ensures Alike(a.items[i], m.items[i], None) {
        MergeItem(b, c, i);
        if i < |b.items| && i < |c.items| { AlikeMerged(a.items[i], b.items[i], c.items[i], None); }
      }
    } else if a.Dict? {
      forall k | k in a.fields && k in m.fields ensures Alike(a.fields[k], m.fields[k], Some(k)) {
        MergeGet(b, c, field, k);
        if k in b.fields && k in c.fields { AlikeMerged(a.fields[k], b.fields[k], c.fields[k], Some(k)); }
      }
    }
  }

  lemma {:induction false} AlikeSymmetric(a: Value, b: Value, field: Option<string>)
    requires Alike(a, b, field)
    ensures Alike(b, a, field)
    decreases a
  {
    if a.List? && field == RUNNERS {
      forall i: nat | i < |a.items| && i < |b.items| ensures Alike(b.items[i], a.items[i], None) {
        AlikeSymmetric(a.items[i], b.items[i], None);
      }
    } else if a.Dict? {
      forall k | k in a.fields && k in b.fields ensures Alike(b.fields[k], a.fields[k], Some(k)) {
        AlikeSymmetric(a.fields[k], b.fields[k], Some(k));
      }
    }
  }

  /** The program's fold: each file is merged into what came before it. */
  function Fold(files: seq<Value>): Value
    requires files != []
  {
    var last := |files| - 1;
    if last == 0 then files[0] else MergeValues(Fold(files[..last]), files[last], None)
  }

  method MergeFiles(files: seq<Value>) returns (config: Value)
    requires files != []
    ensures config == Fold(files)
  {
    config := files[0];
    for i := 1 to |files|
      invariant config == Fold(files[..i])
    {
      config := MergeValues(config, files[i], None);
      assert files[..i + 1][..i] == files[..i];
    }
    assert files[..|files|] == files;
  }

  ghost predicate AllAlike(files: seq<Value>)
  {
    forall i, j :: 0 <= i < j < |files| ==> Alike(files[i], files[j], None)
  }

  lemma {:induction false} AlikeFold(files: seq<Value>, a: Value)
    requires files != [] && forall i :: 0 <= i < |files| ==> Alike(a, files[i], None)
    ensures Alike(a, Fold(files), None)
    decreases |files|
  {
    var last := |files| - 1;
    if last > 0 {
      AlikeFold(files[..last], a);
      AlikeMerged(a, Fold(files[..last]), files[last], None);
    }
  }

  lemma FoldsAlike(xs: seq<Value>, ys: seq<Value>)
    requires xs != [] && ys != [] && AllAlike(xs + ys)
    ensures Alike(Fold(xs), Fold(ys), None)
  {
    forall j | 0 <= j < |ys| ensures Alike(Fold(xs), ys[j], None) {
      forall i | 0 <= i < |xs| ensures Alike(ys[j], xs[i], None) {
        assert (xs + ys)[i] == xs[i] && (xs + ys)[|xs| + j] == ys[j];
        AlikeSymmetric(xs[i], ys[j], None);
      }
      AlikeFold(xs, ys[j]);
      AlikeSymmetric(ys[j], Fold(xs), None);
    }
    AlikeFold(ys, Fold(xs));
  }

  lemma FoldLast(front: seq<Value>, last: Value, all: seq<Value>)
    requires front != [] && all == front + [last]
    ensures Fold(all) == MergeValues(Fold(front), last, None)
  {
    assert all[..|all| - 1] == front;
  }

  /** Folding two groups of files apart and merging the results is folding them all. */
  lemma {:induction false} FoldSplits(xs: seq<Value>, ys: seq<Value>)
    requires xs != [] && ys != [] && AllAlike(xs + ys)
    ensures Fold(xs + ys) == MergeValues(Fold(xs), Fold(ys), None)
    decreases |ys|
  {
    var last := |ys| - 1;
    var all := xs + ys;
    var front := ys[..last];
    FoldLast(xs + front, ys[last], all);
    if last == 0 {
      assert xs + front == xs && ys == [ys[0]];
    } else {
      FoldLast(front, ys[last], ys);
      assert AllAlike(xs + front) by { assert forall i :: 0 <= i < |xs + front| ==> (xs + front)[i] == all[i]; }
      FoldSplits(xs, front);
      FoldsAlike(xs, front);
      LastAlike(xs, front, ys[last], all);
      AlikeAgree(Fold(xs), Fold(front), ys[last], None);
      AssociativeIffAgree(Fold(xs), Fold(front), ys[last], None);
    }
  }

  lemma LastAlike(xs: seq<Value>, front: seq<Value>, last: Value, all: seq<Value>)
    requires xs != [] && front != [] && all == xs + front + [last] && AllAlike(all)
    ensures Alike(Fold(xs), last, None) && Alike(Fold(front), last, None)
  {
    forall i | 0 <= i < |xs| ensures Alike(last, xs[i], None) {
      assert all[i] == xs[i] && all[|all| - 1] == last;
      AlikeSymmetric(xs[i], last, None);
    }
    forall i | 0 <= i < |front| ensures Alike(last, front[i], None) {
      assert all[|xs| + i] == front[i] && all[|all| - 1] == last;
      AlikeSymmetric(front[i], last, None);
    }
    AlikeFold(xs, last);
    AlikeFold(front, last);
    AlikeSymmetric(last, Fold(xs), None);
    AlikeSymmetric(last, Fold(front), None);
  }

  /** Any way of bracketing a sequence of merges. */
  datatype Bracketing = File(config: Value) | Both(left: Bracketing, right: Bracketing)

  function Files(t: Bracketing): seq<Value>
  {
    match t
    case File(config) => [config]
    case Both(left, right) => Files(left) + Files(right)
  }

  function Evaluate(t: Bracketing): Value
  {
    match t
    case File(config) => config
    case Both(left, right) => MergeValues(Evaluate(left), Evaluate(right), None)
  }

  lemma {:induction false} FilesNonEmpty(t: Bracketing)
    ensures Files(t) != []
  {
    if t.Both? { FilesNonEmpty(t.left); }
  }

  /** For files of like kinds the result does not depend on how the merges are bracketed. */
  lemma {:induction false} BracketingIsIrrelevant(t: Bracketing)
    requires AllAlike(Files(t))
    ensures Files(t) != [] && Evaluate(t) == Fold(Files(t))
  {
    FilesNonEmpty(t);
    match t
    case File(_) =>
    case Both(left, right) =>
      var xs, ys := Files(left), Files(right);
      assert forall i :: 0 <= i < |xs| ==> (xs + ys)[i] == xs[i];
      assert forall i :: 0 <= i < |ys| ==> (xs + ys)[|xs| + i] == ys[i];
      BracketingIsIrrelevant(left);
      BracketingIsIrrelevant(right);
      FoldSplits(xs, ys);
  }

  /** Files of unlike kinds: the outcome depends on the bracketing. */
  lemma UnlikeKindsDoNotAssociate()
    ensures var a, b, c := List([Scalar("1")]), Scalar("x"), List([Scalar("2")]);
            !Associates(a, b, c, Some("tags")) && !Agree(a, b, c, Some("tags"))
  {
    var a, b, c := List([Scalar("1")]), Scalar("x"), List([Scalar("2")]);
    AssociativeIffAgree(a, b, c, Some("tags"));
    assert a.items != [];
  }

  // ---------------------------------------------------------------- what the files come to

  /** One step into a configuration: to the value of a key, or to a runner. */
  datatype Step = Key(k: string) | Runner(i: nat)

  function Next(v: Value, step: Step): Option<Value>
  {
    match step
    case Key(k) => if v.Dict? then Get(v.fields, k) else None
    case Runner(i) => if v.List? then ItemOrNone(v.items, i) else None
  }

  function FieldOf(step: Step): Option<string>
  {
    if step.Key? then Some(step.k) else None
  }

  /** What a configuration has at the end of a path. */
  function At(v: Option<Value>, path: seq<Step>): Option<Value>
    decreases |path|
  {
    if v.None? || path == [] then v else At(Next(v.value, path[0]), path[1..])
  }

  /** The key that a path ends under. */
  function LastField(path: seq<Step>, field: Option<string>): Option<string>
  {
    if path == [] then field else FieldOf(path[|path| - 1])
  }

  /** As far as the value goes along the path, keys lead into tables and indexes into runner lists. */
  predicate Leads(v: Option<Value>, path: seq<Step>, field: Option<string>)
    decreases |path|
  {
    v.Some? && path != [] ==>
      && (if path[0].Key? then v.value.Dict? else v.value.List? && field == RUNNERS)
      && Leads(Next(v.value, path[0]), path[1..], FieldOf(path[0]))
  }

  /** Merging acts on what stands at the end of each path alone. */
  lemma {:induction false} MergeAt(a: Option<Value>, b: Option<Value>, path: seq<Step>, field: Option<string>)
    requires Leads(a, path, field) && Leads(b, path, field)
    ensures Leads(Merge(a, b, field), path, field)
    ensures At(Merge(a, b, field), path) == Merge(At(a, path), At(b, path), LastField(path, field))
    decreases |path|
  {
    if path != [] && a.Some? && b.Some? {
      var step, rest := path[0], path[1..];
      assert LastField(path, field) == LastField(rest, FieldOf(step));
      MergeAt(Next(a.value, step), Next(b.value, step), rest, FieldOf(step));
      match step
      case Key(k) => MergeGet(a.value, b.value, field, k);
      case Runner(i) => MergeItem(a.value, b.value, i);
    }
  }

  /** The path leads through all files. */
  predicate LeadsAll(files: seq<Value>, path: seq<Step>)
  {
    forall i :: 0 <= i < |files| ==> Leads(Some(files[i]), path, None)
  }

  predicate ListOrNone(v: Option<Value>)
  {
    v.Some? ==> v.value.List?
  }

  function ItemsOf(v: Option<Value>): seq<Value>
  {
    if v.Some? && v.value.List? then v.value.items else []
  }

  /** The lists that the files have at the end of the path, one behind the other. */
  function Joined(files: seq<Value>, path: seq<Step>): seq<Value>
  {
    if files == [] then []
    else
      var last := |files| - 1;
      Joined(files[..last], path) + ItemsOf(At(Some(files[last]), path))
  }

  /** The value at the end of the path in the last file that has one. */
  function Latest(files: seq<Value>, path: seq<Step>): Option<Value>
  {
    if files == [] then None
    else
      var last := |files| - 1;
      var v := At(Some(files[last]), path);
      if v.Some? then v else Latest(files[..last], path)
  }

  lemma {:induction false} FoldLeads(files: seq<Value>, path: seq<Step>)
    requires files != [] && LeadsAll(files, path)
    ensures Leads(Some(Fold(files)), path, None)
    decreases |files|
  {
    var last := |files| - 1;
    if last > 0 {
      FoldLeads(files[..last], path);
      MergeAt(Some(Fold(files[..last])), Some(files[last]), path, None);
    }
  }

  lemma FoldAt(files: seq<Value>, path: seq<Step>)
    requires |files| > 1 && LeadsAll(files, path)
    ensures var last := |files| - 1;
            At(Some(Fold(files)), path) == Merge(At(Some(Fold(files[..last])), path), At(Some(files[last]), path), LastField(path, None))
  {
    var last := |files| - 1;
    FoldLeads(files[..last], path);
    MergeAt(Some(Fold(files[..last])), Some(files[last]), path, None);
  }

  lemma MergedLists(a: Option<Value>, b: Option<Value>, field: Option<string>)
    requires ListOrNone(a) && ListOrNone(b) && field != RUNNERS
    ensures var m := Merge(a, b, field);
            if a.None? && b.None? then m.None? else m == Some(List(ItemsOf(a) + ItemsOf(b)))
  {
    if a.Some? && b.Some? {
      ListsJoin(a.value, b.value, field);
      var m := MergeValues(a.value, b.value, field).items;
      assert m == m[..|a.value.items|] + m[|a.value.items|..];
    } else {
      assert ItemsOf(a) + [] == ItemsOf(a) && [] + ItemsOf(b) == ItemsOf(b);
    }
  }

  ghost predicate NoneHas(files: seq<Value>, path: seq<Step>)
  {
    forall i :: 0 <= i < |files| ==> At(Some(files[i]), path).None?
  }

  ghost predicate AllLists(files: seq<Value>, path: seq<Step>)
  {
    forall i :: 0 <= i < |files| ==> ListOrNone(At(Some(files[i]), path))
  }

  lemma Fronts(files: seq<Value>, path: seq<Step>)
    requires files != []
    ensures var (front, last) := (files[..|files| - 1], files[|files| - 1]);
            && (LeadsAll(files, path) ==> LeadsAll(front, path))
            && (AllLists(files, path) ==> AllLists(front, path) && ListOrNone(At(Some(last), path)))
            && (NoneHas(files, path) <==> NoneHas(front, path) && At(Some(last), path).None?)
  {
    forall i | 0 <= i < |files| ensures files[i] == if i < |files| - 1 then files[..|files| - 1][i] else files[|files| - 1] {}
  }

  /** An ordinary list, however deep, is in the end what the files have there, joined in their order. */
  lemma {:induction false} ListsInFileOrder(files: seq<Value>, path: seq<Step>)
    requires files != [] && LeadsAll(files, path) && LastField(path, None) != RUNNERS && AllLists(files, path)
    ensures At(Some(Fold(files)), path) == if NoneHas(files, path) then None else Some(List(Joined(files, path)))
    decreases |files|
  {
    var last := |files| - 1;
    var v, front := At(Some(files[last]), path), files[..last];
    Fronts(files, path);
    assert Joined(files, path) == Joined(front, path) + ItemsOf(v);
    if last == 0 {
      assert [] + ItemsOf(v) == ItemsOf(v);
    } else {
      FoldAt(files, path);
      ListsInFileOrder(front, path);
      if NoneHas(front, path) { NothingJoined(front, path); }
      MergedLists(At(Some(Fold(front)), path), v, LastField(path, None));
    }
  }

  lemma {:induction false} NothingJoined(files: seq<Value>, path: seq<Step>)
    requires NoneHas(files, path)
    ensures Joined(files, path) == []
    decreases |files|
  {
    if files != [] {
      Fronts(files, path);
      NothingJoined(files[..|files| - 1], path);
    }
  }

  /** A plain value, however deep, is in the end that of the last file that has one. */
  lemma {:induction false} LastFileWins(files: seq<Value>, path: seq<Step>)
    requires files != [] && LeadsAll(files, path)
    requires forall i :: 0 <= i < |files| ==> var v := At(Some(files[i]), path); v.Some? ==> v.value.Scalar?
    ensures At(Some(Fold(files)), path) == Latest(files, path)
    ensures Latest(files, path).Some? ==> Latest(files, path).value.Scalar?
    decreases |files|
  {
    var last := |files| - 1;
    if last > 0 {
      FoldAt(files, path);
      LastFileWins(files[..last], path);
      var v, before := At(Some(files[last]), path), At(Some(Fold(files[..last])), path);
      if v.Some? && before.Some? { OthersReplaced(before.value, v.value, LastField(path, None)); }
    }
  }
}
