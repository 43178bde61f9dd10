/** modules/k8s/files/sync_kubelet_node_labels.py: keeping a node's labels as a file lists them,
    with a state file that remembers which keys were set. */
module NodeLabels {
  import opened Common

  type Labels = map<string, string>

  /** A merge patch on labels: a null value removes its key. */
  type Patch = map<string, Option<string>>

  /** Merge patch as in section 2 of RFC 7396, on a flat object. */
  function MergePatch(labels: Labels, patch: Patch): Labels
  {
    map k | k in labels.Keys + patch.Keys && (k in patch ==> patch[k].Some?) ::
      if k in patch then patch[k].value else labels[k]
  }

  function Without(labels: Labels, keys: set<string>): Labels
  {
    map k | k in labels && k !in keys :: labels[k]
  }

  // ---------------------------------------------------------------- the labels file

  /** Where the first "=" stands, or the length if there is none. */
  function FirstEquals(pair: string): (i: nat)
    ensures i <= |pair| && (i < |pair| ==> pair[i] == '=') && '=' !in pair[..i]
  {
    if pair == "" || pair[0] == '=' then 0 else
      var i := FirstEquals(pair[1..]);
      assert pair[..i + 1] == [pair[0]] + pair[1..][..i];
      i + 1
  }

  function Key(pair: string): string
  {
    pair[..FirstEquals(pair)]
  }

  function ValueOf(pair: string): string
  {
    var i := FirstEquals(pair);
    if i == |pair| then "" else pair[i + 1..]
  }

  /** A pair is its key and its value with the first "=" between them, or its key alone. */
  lemma PairSplits(pair: string)
    ensures pair == (if '=' in pair then Key(pair) + "=" + ValueOf(pair) else Key(pair))
    ensures '=' !in Key(pair) && ('=' !in pair ==> ValueOf(pair) == "")
  {
    var i := FirstEquals(pair);
    assert pair == pair[..i] + pair[i..];
    assert i == |pair| ==> pair[..i] == pair;
  }

  /** What the last pair for a key says. */
  function LastValue(pairs: seq<string>, k: string): Option<string>
  {
    if pairs == [] then None
    else if Key(pairs[|pairs| - 1]) == k then Some(ValueOf(pairs[|pairs| - 1]))
    else LastValue(pairs[..|pairs| - 1], k)
  }

  function Get(labels: Labels, k: string): Option<string>
  {
    if k in labels then Some(labels[k]) else None
  }

  method ParseLabels(pairs: seq<string>) returns (labels: Labels)
    ensures forall k :: Get(labels, k) == LastValue(pairs, k)
  {
    labels := map[];
    for n := 0 to |pairs|
      invariant forall k :: Get(labels, k) == LastValue(pairs[..n], k)
    {
      assert pairs[..n + 1][..n] == pairs[..n];
      labels := labels[Key(pairs[n]) := ValueOf(pairs[n])];
    }
    assert pairs[..|pairs|] == pairs;
  }

  // ---------------------------------------------------------------- one run

  datatype StateFile = Absent | Unreadable | Recorded(node: Option<string>, keys: set<string>)

  /** load_managed_labels; None for NodeNameMismatch: the file names another node. */
  function LoadManaged(f: StateFile, node: string): (keys: Option<set<string>>)
    ensures keys.None? <==> exists other, ks :: f == Recorded(Some(other), ks) && other != node
    ensures f == Absent || f == Unreadable ==> keys == Some({})
    ensures forall ks :: f == Recorded(Some(node), ks) || f == Recorded(None, ks) ==> keys == Some(ks)
  {
    match f
    case Absent => Some({})
    case Unreadable => Some({})
    case Recorded(recorded, keys) => if recorded.Some? && recorded.value != node then None else Some(keys)
  }

  /** The labels of the node and the keys that the state file lists for it. */
  datatype World = World(labels: Labels, managed: set<string>)

  /** A run that goes through: managed keys that are not wanted any more go, the rest is set. */
  function Run(w: World, desired: Labels): World
  {
    World(Without(w.labels, w.managed) + desired, desired.Keys)
  }

  class Syncer {
    var labels: Labels        // on the node
    var stateFile: StateFile

    constructor (labels: Labels, stateFile: StateFile)
      ensures this.labels == labels && this.stateFile == stateFile
    {
      this.labels, this.stateFile := labels, stateFile;
    }

    /** The program without --dry-run; `accepted` is the API server's answer to the patch. */
    method Sync(node: string, desired: Labels, accepted: bool) returns (rc: int)
      modifies this
      ensures var managed := LoadManaged(old(stateFile), node);
              if desired == map[] || managed.None? || !accepted then labels == old(labels) && stateFile == old(stateFile)
              else World(labels, desired.Keys) == Run(World(old(labels), managed.value), desired)
                   && stateFile == Recorded(Some(node), desired.Keys) && LoadManaged(stateFile, node) == Some(desired.Keys)
      ensures rc == if desired == map[] then 0 else if LoadManaged(old(stateFile), node).None? || !accepted then 1 else 0
    {
      if desired == map[] { return 0; }
      var managed := LoadManaged(stateFile, node);
      if managed.None? { return 1; }
      var patch: Patch := map k | k in desired :: Some(desired[k]);
      var todo := managed.value - desired.Keys;
      while todo != {}
        invariant todo <= managed.value - desired.Keys
        invariant patch.Keys == desired.Keys + (managed.value - desired.Keys - todo)
        invariant forall k :: k in patch ==> patch[k] == if k in desired then Some(desired[k]) else None
        decreases todo
      {
        var k :| k in todo;
        patch := patch[k := None];
        todo := todo - {k};
      }
      if !accepted { return 1; }
      labels := MergePatch(labels, patch);
      assert labels == Without(old(labels), managed.value) + desired;
      stateFile := Recorded(Some(node), desired.Keys);
      return 0;
    }
  }

  // ---------------------------------------------------------------- many runs

  function RunAll(w: World, wanted: seq<Labels>): World
  {
    if wanted == [] then w else Run(RunAll(w, wanted[..|wanted| - 1]), wanted[|wanted| - 1])
  }

  function EverWanted(wanted: seq<Labels>): set<string>
  {
    if wanted == [] then {} else EverWanted(wanted[..|wanted| - 1]) + wanted[|wanted| - 1].Keys
  }

  /** After any number of runs the node has the labels last wanted, and of its first labels those
      that no run ever wanted and the state file did not claim. */
  lemma {:induction false} LastWantedPlusForeign(w: World, wanted: seq<Labels>)
    requires wanted != []
    ensures var last := wanted[|wanted| - 1];
            && RunAll(w, wanted).managed == last.Keys
            && RunAll(w, wanted).labels == Without(w.labels, w.managed + EverWanted(wanted)) + last
    decreases |wanted|
  {
    var n := |wanted| - 1;
    var last, front := wanted[n], wanted[..n];
    if n == 0 {
      assert RunAll(w, front) == w && EverWanted(front) == {};
      assert w.managed + EverWanted(wanted) == w.managed + last.Keys;
      OverwrittenAnyway(w.labels, w.managed, last);
    } else {
      LastWantedPlusForeign(w, front);
      KeysWereWanted(front);
      RunOnce(w.labels, w.managed + EverWanted(front), wanted[n - 1], last);
      assert w.managed + EverWanted(front) + last.Keys == w.managed + EverWanted(wanted);
    }
  }

  lemma OverwrittenAnyway(labels: Labels, gone: set<string>, last: Labels)
    ensures Without(labels, gone) + last == Without(labels, gone + last.Keys) + last
  {
  }

  /** A run that takes away what the one before it set. */
  lemma RunOnce(labels: Labels, gone: set<string>, set0: Labels, last: Labels)
    requires set0.Keys <= gone
    ensures Without(Without(labels, gone) + set0, set0.Keys) + last == Without(labels, gone + last.Keys) + last
  {
  }

  lemma KeysWereWanted(wanted: seq<Labels>)
    requires wanted != []
    ensures wanted[|wanted| - 1].Keys <= EverWanted(wanted)
  {
  }

  /** Running again changes nothing. */
  lemma RunTwice(w: World, desired: Labels)
    ensures Run(Run(w, desired), desired) == Run(w, desired)
  {
    assert Run(Run(w, desired), desired).labels == Run(w, desired).labels;
  }

  /** A run that patched the node and stopped before it wrote the state file. */
  function Interrupted(w: World, desired: Labels): World
  {
    Run(w, desired).(managed := w.managed)
  }

  /** The next run makes up for that exactly when every label set was managed before or is still
      wanted; otherwise the others stay on the node unmanaged. */
  lemma InterruptionHeals(w: World, desired: Labels, next: Labels)
    ensures Run(Interrupted(w, desired), next) == Run(Run(w, desired), next) <==> desired.Keys <= w.managed + next.Keys
  {
    var a, b := Run(Interrupted(w, desired), next).labels, Run(Run(w, desired), next).labels;
    if !(desired.Keys <= w.managed + next.Keys) {
      var k :| k in desired && k !in w.managed + next.Keys;
      assert k in a && k !in b;
    }
  }
}
