/** utils/audit.py: which puppet resources are used, from a graph of which resource contains which. */
module ResourceAudit {

  /** A resource and the resources it contains; one without an entry contains none. */
  type Graph = map<string, set<string>>

  function Contents(g: Graph, x: string): set<string>
  {
    if x in g then g[x] else {}
  }

  // ---------------------------------------------------------------- reachability

  /** Each resource on the path contains the next. */
  ghost predicate Path(g: Graph, p: seq<string>)
  {
    p != [] && forall i :: 0 <= i < |p| - 1 ==> p[i + 1] in Contents(g, p[i])
  }

  ghost predicate Links(g: Graph, p: seq<string>, x: string, y: string)
  {
    Path(g, p) && p[0] == x && p[|p| - 1] == y
  }

  ghost predicate Reaches(g: Graph, x: string, y: string)
  {
    exists p :: Links(g, p, x, y)
  }

  lemma ReachesItself(g: Graph, x: string)
    ensures Reaches(g, x, x)
  {
    assert Links(g, [x], x, x);
  }

  lemma ReachesFurther(g: Graph, x: string, y: string, z: string)
    requires y in Contents(g, x) && Reaches(g, y, z)
    ensures Reaches(g, x, z)
  {
    var p :| Links(g, p, y, z);
    assert Links(g, [x] + p, x, z);
  }

  /** Everything a resource in `s` contains is in `s`. */
  ghost predicate Closed(g: Graph, s: set<string>)
  {
    forall x :: x in s ==> Contents(g, x) <= s
  }

  lemma {:induction false} ClosedHoldsPath(g: Graph, s: set<string>, p: seq<string>, i: nat)
    requires Closed(g, s) && Path(g, p) && p[0] in s && i < |p|
    ensures p[i] in s
  {
    if i > 0 { ClosedHoldsPath(g, s, p, i - 1); }
  }

  lemma ClosedHoldsReachable(g: Graph, s: set<string>, x: string, y: string)
    requires Closed(g, s) && x in s && Reaches(g, x, y)
    ensures y in s
  {
    var p :| Links(g, p, x, y);
    ClosedHoldsPath(g, s, p, |p| - 1);
  }

  /** Every resource that the graph mentions. */
  function Mentioned(g: Graph): set<string>
  {
    g.Keys + set x, y | x in g && y in g[x] :: y
  }

  // ---------------------------------------------------------------- the depth-first search

  class Search {
    const g: Graph
    var all: set<string>  // the visited set, shared by every root

    constructor (g: Graph)
      ensures this.g == g && all == {}
    {
      this.g, all := g, {};
    }

    /** Nothing visited twice; what is added is reachable, and has its contents visited too. */
    method ContainedResources(title: string, ghost nodes: set<string>)
      requires Mentioned(g) <= nodes && title in nodes
      modifies this
      ensures old(all) <= all && title in all
      ensures forall y :: y in all && y !in old(all) ==> Reaches(g, title, y) && Contents(g, y) <= all
      decreases nodes - all
    {
      if title in all { return; }
      all := all + {title};
      ReachesItself(g, title);
      var todo := Contents(g, title);
      while todo != {}
        invariant todo <= Contents(g, title) && old(all) + {title} <= all
        invariant Contents(g, title) <= all + todo
        invariant forall y :: y in all && y !in old(all) ==> Reaches(g, title, y)
        invariant forall y :: y in all && y !in old(all) && y != title ==> Contents(g, y) <= all
        decreases todo
      {
        var resource :| resource in todo;
        todo := todo - {resource};
        if resource !in all {
          ghost var before := all;
          ContainedResources(resource, nodes);
          forall y | y in all && y !in before ensures Reaches(g, title, y) {
            ReachesFurther(g, title, resource, y);
          }
        }
      }
    }

    /** From a visited set that is closed, a search adds exactly what its root reaches. */
    method Visit(title: string)
      requires Closed(g, all)
      modifies this
      ensures Closed(g, all)
      ensures forall y :: y in all <==> y in old(all) || Reaches(g, title, y)
    {
      ContainedResources(title, Mentioned(g) + {title});
      forall y | Reaches(g, title, y) ensures y in all {
        ClosedHoldsReachable(g, all, title, y);
      }
    }

    /** audit: the classes that no root reaches, whatever the order of the roots. */
    method Audit(roots: set<string>) returns (unused: set<string>)
      requires all == {}
      modifies this
      ensures forall x :: x in unused <==> x in g && !exists r :: r in roots && Reaches(g, r, x)
    {
      var todo := roots;
      while todo != {}
        invariant todo <= roots && Closed(g, all)
        invariant forall y :: y in all <==> exists r :: r in roots && r !in todo && Reaches(g, r, y)
        decreases todo
      {
        var title :| title in todo;
        todo := todo - {title};
        Visit(title);
      }
      unused := g.Keys - all;
    }
  }

  /** audit1, the laxer check: a class is unused if it is no root and nothing contains it. */
  method Audit1(g: Graph, roles: set<string>, keystone: set<string>) returns (unused: set<string>)
    ensures unused == set x | x in g && x !in roles && x !in keystone && !Contained(g, x)
  {
    unused := {};
    var todo := g.Keys;
    while todo != {}
      invariant todo <= g.Keys
      invariant unused == set x | x in g && x !in todo && x !in roles && x !in keystone && !Contained(g, x)
      decreases todo
    {
      var title :| title in todo;
      todo := todo - {title};
      if title in roles { continue; }
      if title in keystone { continue; }
      var implementors := set x | x in g && title in g[x];
      assert Contained(g, title) <==> implementors != {} by {
        if Contained(g, title) { var x :| x in g && title in g[x]; assert x in implementors; }
      }
      if implementors != {} { continue; }
      unused := unused + {title};
    }
  }

  predicate Contained(g: Graph, x: string)
  {
    exists y :: y in g && x in g[y]
  }

  lemma ReachedFromElsewhere(g: Graph, r: string, x: string)
    requires Reaches(g, r, x)
    ensures r == x || Contained(g, x)
  {
    var p :| Links(g, p, r, x);
    if |p| > 1 {
      var i := |p| - 2;
      assert p[i + 1] in Contents(g, p[i]);
    }
  }

  /** What the lax check calls unused, the strict one does too. */
  lemma LaxImpliesStrict(g: Graph, roles: set<string>, keystone: set<string>, x: string)
    requires x in g && x !in roles && x !in keystone && !Contained(g, x)
    ensures !exists r :: r in roles + keystone && Reaches(g, r, x)
  {
    forall r | r in roles + keystone && Reaches(g, r, x) ensures r == x || Contained(g, x) {
      ReachedFromElsewhere(g, r, x);
    }
  }

  // ---------------------------------------------------------------- reverse dependencies

  predicate Edge(g: Graph, x: string, y: string)
  {
    y in Contents(g, x)
  }

  /** `r` has an edge for every edge of `g`, turned around. */
  ghost predicate Reversed(g: Graph, r: Graph)
  {
    forall x, y :: Edge(g, x, y) <==> Edge(r, y, x)
  }

  method GetRdepends(resources: Graph) returns (rdepends: Graph)
    ensures Reversed(resources, rdepends)
    ensures forall y :: y in rdepends <==> Contained(resources, y)
  {
    rdepends := map[];
    var todo := resources.Keys;
    while todo != {}
      invariant todo <= resources.Keys
      invariant forall x, y :: Edge(rdepends, y, x) <==> Edge(resources, x, y) && x !in todo
      invariant forall y :: y in rdepends <==> exists x :: x in resources && x !in todo && y in resources[x]
      decreases todo
    {
      var resource :| resource in todo;
      rdepends := AddReverse(resources, rdepends, resource);
      todo := todo - {resource};
    }
  }

  /** The inner loop: `resource` becomes a reverse dependency of all it contains. */
  method AddReverse(resources: Graph, before: Graph, resource: string) returns (rdepends: Graph)
    requires resource in resources
    ensures forall x, y :: Edge(rdepends, y, x) <==> Edge(before, y, x) || (x == resource && Edge(resources, x, y))
    ensures forall y :: y in rdepends <==> y in before || y in resources[resource]
  {
    rdepends := before;
    var left := resources[resource];
    while left != {}
      invariant left <= resources[resource]
      invariant forall x, y :: Edge(rdepends, y, x) <==> Edge(before, y, x) || (x == resource && Edge(resources, x, y) && y !in left)
      invariant forall y :: y in rdepends <==> y in before || (y in resources[resource] && y !in left)
      decreases left
    {
      var depend :| depend in left;
      AddsEdge(rdepends, depend, resource);
      rdepends := rdepends[depend := Contents(rdepends, depend) + {resource}];
      left := left - {depend};
    }
  }

  lemma AddsEdge(g: Graph, x: string, y: string)
    ensures var h := g[x := Contents(g, x) + {y}];
            forall u, v :: Edge(h, u, v) <==> Edge(g, u, v) || (u == x && v == y)
  {
  }

  function Backwards(p: seq<string>): seq<string>
  {
    seq(|p|, (i: nat) requires i < |p| => p[|p| - 1 - i])
  }

  lemma ReversedLinks(g: Graph, r: Graph, p: seq<string>, x: string, y: string)
    requires Reversed(g, r) && Links(g, p, x, y)
    ensures Links(r, Backwards(p), y, x)
  {
    var q := Backwards(p);
    forall i | 0 <= i < |q| - 1 ensures q[i + 1] in Contents(r, q[i]) {
      var j := |p| - 2 - i;
      assert Edge(g, p[j], p[j + 1]);
    }
  }

  /** x is found from y in the graph exactly when y is found from x in its reverse. */
  lemma ReverseReaches(g: Graph, r: Graph, x: string, y: string)
    requires Reversed(g, r)
    ensures Reaches(g, x, y) <==> Reaches(r, y, x)
  {
    if Reaches(g, x, y) {
      var p :| Links(g, p, x, y);
      ReversedLinks(g, r, p, x, y);
    }
    if Reaches(r, y, x) {
      var p :| Links(r, p, y, x);
      ReversedLinks(r, g, p, y, x);
    }
  }

  /** --rdepends: a forward search over the reversed graph finds all that a resource is reached from. */
  method Rdepends(g: Graph, title: string) returns (found: set<string>)
    ensures forall x :: x in found <==> Reaches(g, x, title)
  {
    var r := GetRdepends(g);
    var search := new Search(r);
    search.Visit(title);
    found := search.all;
    forall x ensures x in found <==> Reaches(g, x, title) {
      ReverseReaches(g, r, x, title);
    }
  }
}
