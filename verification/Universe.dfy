// The causal graph of a set of batches, and what the model assumes of such a set.
module Universe {
  import opened Batches
  import opened Graphs

  ghost function DependencyTable(u: set<Batch>): Deps {
    map b | b in u :: set x | x in u && DependsOn(b, x)
  }

  ghost function LinkTable(u: set<Batch>): Deps {
    map b | b in u :: set x | x in u && Links(b, x)
  }

  // all causal ancestors of b within u
  ghost function Past(u: set<Batch>, b: Batch): set<Batch>
    requires b in u
  {
    Reach(DependencyTable(u), b)
  }

  ghost function CausalGraph(u: set<Batch>): Graph {
    Graph(u, map b | b in u :: Past(u, b))
  }

  ghost predicate Acyclic(u: set<Batch>) {
    DistinctHeads(u) && forall b :: b in u ==> b !in Past(u, b)
  }

  // b's citation adds nothing to what b already links, directly or not
  ghost predicate CitationCovered(u: set<Batch>, b: Batch)
    requires b in u
  {
    forall x :: x in u && DependsOn(b, x) ==> x in Reach(LinkTable(u), b)
  }

  // s holds the dependencies of all its members
  ghost predicate DownClosed(u: set<Batch>, s: set<Batch>) {
    s <= u && forall b, x :: b in s && x in u && DependsOn(b, x) ==> x in s
  }

  lemma CausalGraphIsCausal(u: set<Batch>)
    requires Acyclic(u)
    ensures Causal(CausalGraph(u))
  {
    forall a, b | a in u && b in Past(u, a)
      ensures Past(u, b) <= Past(u, a)
    {
      ReachTransitive(DependencyTable(u), a, b);
    }
  }

  // A set closed under dependencies sees the same past as any larger set.
  lemma PastRestrict(u: set<Batch>, s: set<Batch>, b: Batch)
    requires DownClosed(u, s) && b in s
    ensures Past(s, b) == Past(u, b)
  {
    var d, e := DependencyTable(s), DependencyTable(u);
    forall x | x in s ensures d[x] == e[x] {
    }
    ReachRestrict(d, e, b);
  }

  // The last step of a dependency chain from n needs no citation but n's own, if the citations
  // of all its ancestors are covered.
  lemma PastLastStep(u: set<Batch>, n: Batch, x: Batch)
    requires n in u && x in Past(u, n)
    requires forall y :: y in Past(u, n) ==> CitationCovered(u, y)
    ensures DependsOn(n, x) || exists y :: y in Past(u, n) && Links(y, x)
  {
    var d, l := DependencyTable(u), LinkTable(u);
    var p := Past(u, n);
    var t := set z | z in p && (DependsOn(n, z) || exists y :: y in p && Links(y, z));
    ReachClosed(d, n);
    forall z, w | z in t && w in d[z]
      ensures w in t
    {
      ReachLastStep(l, z, w);
      if !Links(z, w) {
        var y :| y in Reach(l, z) && w in l[y];
        LinkReachInPast(u, z);
        ReachTransitive(d, n, z);
      }
    }
    assert Closed(d, t);
    ReachLeast(d, n, t);
  }

  lemma LinkReachInPast(u: set<Batch>, b: Batch)
    requires b in u
    ensures Reach(LinkTable(u), b) <= Past(u, b)
  {
    var d, l := DependencyTable(u), LinkTable(u);
    ReachClosed(d, b);
    assert Closed(l, Past(u, b));
    ReachLeast(l, b, Past(u, b));
  }
}
