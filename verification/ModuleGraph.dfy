/** Module factories and the dependencies their modules list. */
module ModuleGraph {
  type Factory = nat

  /** For every factory, the list that ListDependencies of its module fills in. */
  type Dependencies = map<Factory, seq<Factory>>

  ghost predicate Closed(g: Dependencies) {
    forall f, d :: f in g && d in g[f] ==> d in g
  }

  /** A path follows listed dependencies. */
  ghost predicate IsPath(g: Dependencies, p: seq<Factory>) {
    && p != []
    && (forall i :: 0 <= i < |p| ==> p[i] in g)
    && (forall i :: 0 < i < |p| ==> p[i] in g[p[i - 1]])
  }

  ghost predicate Acyclic(g: Dependencies) {
    forall p :: IsPath(g, p) && 1 < |p| ==> p[0] != p[|p| - 1]
  }

  ghost predicate Reaches(g: Dependencies, f: Factory, d: Factory) {
    exists p :: IsPath(g, p) && p[0] == f && p[|p| - 1] == d
  }

  /** The module and its transitive dependencies. */
  ghost function Needs(g: Dependencies, f: Factory): set<Factory> {
    set d | d in g && Reaches(g, f, d)
  }

  lemma {:induction false} SubPath(g: Dependencies, p: seq<Factory>, i: nat, j: nat)
    requires IsPath(g, p) && i < j <= |p|
    ensures IsPath(g, p[i..j])
  {
    var q := p[i..j];
    assert forall k :: 0 <= k < |q| ==> q[k] == p[i + k];
  }

  lemma {:induction false} Extend(g: Dependencies, p: seq<Factory>, d: Factory)
    requires IsPath(g, p) && d in g && d in g[p[|p| - 1]]
    ensures IsPath(g, p + [d])
  {
  }

  lemma {:induction false} Prepend(g: Dependencies, f: Factory, p: seq<Factory>)
    requires IsPath(g, p) && f in g && p[0] in g[f]
    ensures IsPath(g, [f] + p)
  {
    var q := [f] + p;
    assert forall k :: 0 < k < |q| ==> q[k] == p[k - 1];
    forall k | 0 < k < |q| ensures q[k] in g[q[k - 1]] {
      if 1 < k { assert p[k - 1] in g[p[k - 2]]; }
    }
  }

  /** On an acyclic graph the stack of nested Start calls never holds a factory twice. */
  lemma {:induction false} PathIsShort(g: Dependencies, p: seq<Factory>)
    requires Acyclic(g) && IsPath(g, p)
    ensures |p| <= |g|
  {
    forall i, j | 0 <= i < j < |p| ensures p[i] != p[j] {
      SubPath(g, p, i, j + 1);
      assert p[i..j + 1][0] == p[i] && p[i..j + 1][j - i] == p[j];
    }
    DistinctInSet(p, g.Keys);
  }

  lemma {:induction false} DistinctInSet(p: seq<Factory>, s: set<Factory>)
    requires forall i, j :: 0 <= i < j < |p| ==> p[i] != p[j]
    requires forall i :: 0 <= i < |p| ==> p[i] in s
    ensures |p| <= |s|
  {
    if p != [] {
      var n := |p| - 1;
      DistinctInSet(p[..n], s - {p[n]});
    }
  }

  /** What a module needs is itself and what its dependencies need. */
  lemma {:induction false} NeedsUnfold(g: Dependencies, f: Factory)
    requires Closed(g) && f in g
    ensures f in Needs(g, f)
    ensures forall d :: d in g[f] ==> Needs(g, d) <= Needs(g, f)
    ensures forall x :: x in Needs(g, f) && x != f ==> exists d :: d in g[f] && x in Needs(g, d)
  {
    assert IsPath(g, [f]) && [f][0] == f && [f][|[f]| - 1] == f;
    forall d, x | d in g[f] && x in Needs(g, d) ensures x in Needs(g, f) {
      var p :| IsPath(g, p) && p[0] == d && p[|p| - 1] == x;
      Prepend(g, f, p);
      assert ([f] + p)[0] == f && ([f] + p)[|p|] == x;
    }
    forall x | x in Needs(g, f) && x != f ensures exists d :: d in g[f] && x in Needs(g, d) {
      var p :| IsPath(g, p) && p[0] == f && p[|p| - 1] == x;
      assert p[1] in g[p[0]];
      SubPath(g, p, 1, |p|);
      assert p[1..][0] == p[1] && p[1..][|p| - 2] == x;
      assert x in Needs(g, p[1]);
    }
  }

  /** A set that contains the dependencies of its members contains everything they need. */
  lemma {:induction false} ClosedUnderNeeds(g: Dependencies, s: set<Factory>, f: Factory, x: Factory)
    requires s <= g.Keys && f in s && x in Needs(g, f)
    requires forall a, d :: a in s && d in g[a] ==> d in s
    ensures x in s
  {
    var p :| IsPath(g, p) && p[0] == f && p[|p| - 1] == x;
    PathStays(g, s, p, |p| - 1);
  }

  lemma {:induction false} PathStays(g: Dependencies, s: set<Factory>, p: seq<Factory>, i: nat)
    requires s <= g.Keys && IsPath(g, p) && p[0] in s && i < |p|
    requires forall a, d :: a in s && d in g[a] ==> d in s
    ensures p[i] in s
  {
    if i > 0 {
      PathStays(g, s, p, i - 1);
      assert p[i] in g[p[i - 1]];
    }
  }

  /** On an acyclic graph no dependency needs the module that lists it. */
  lemma {:induction false} NoNeedBack(g: Dependencies, f: Factory, d: Factory)
    requires Acyclic(g) && f in g && d in g[f]
    ensures f !in Needs(g, d)
  {
    if f in Needs(g, d) {
      var p :| IsPath(g, p) && p[0] == d && p[|p| - 1] == f;
      Prepend(g, f, p);
    }
  }
}
