// Causal graphs, and the flat "anti-Kahn" order that both the incremental walk and the
// stratified reference definition are proved equal to.
module Graphs {
  import opened Batches

  // ----- transitive dependencies -----

  // A dependency table sends every batch to the batches it directly depends on.
  type Deps = map<Batch, set<Batch>>

  ghost predicate WellFormed(d: Deps) {
    forall b :: b in d ==> d[b] <= d.Keys
  }

  ghost predicate Closed(d: Deps, s: set<Batch>) {
    s <= d.Keys && forall b :: b in s ==> d[b] <= s
  }

  // everything n transitively depends on: the least closed set holding its direct dependencies
  ghost function Reach(d: Deps, n: Batch): set<Batch>
    requires n in d
  {
    set x | x in d.Keys && forall s: set<Batch> :: Closed(d, s) && d[n] <= s ==> x in s
  }

  lemma ReachLeast(d: Deps, n: Batch, s: set<Batch>)
    requires n in d && Closed(d, s) && d[n] <= s
    ensures Reach(d, n) <= s
  {
  }

  lemma ReachClosed(d: Deps, n: Batch)
    requires n in d && WellFormed(d)
    ensures d[n] <= Reach(d, n)
    ensures Closed(d, Reach(d, n))
  {
    forall b, x | b in Reach(d, n) && x in d[b]
      ensures x in Reach(d, n)
    {
      forall s: set<Batch> | Closed(d, s) && d[n] <= s
        ensures x in s
      {
        assert b in s;
      }
    }
  }

  lemma ReachTransitive(d: Deps, n: Batch, y: Batch)
    requires n in d && WellFormed(d)
    requires y in Reach(d, n)
    ensures y in d && Reach(d, y) <= Reach(d, n)
  {
    ReachClosed(d, n);
    ReachLeast(d, y, Reach(d, n));
  }

  // the last step of a dependency chain
  lemma ReachLastStep(d: Deps, n: Batch, x: Batch)
    requires n in d && WellFormed(d)
    requires x in Reach(d, n)
    ensures x in d[n] || exists y :: y in Reach(d, n) && x in d[y]
  {
    var s := set z | z in Reach(d, n) && (z in d[n] || exists y :: y in Reach(d, n) && z in d[y]);
    ReachClosed(d, n);
    assert Closed(d, s);
    ReachLeast(d, n, s);
  }

  // A set closed in the larger table has the same transitive dependencies in the smaller one.
  lemma ReachRestrict(d: Deps, e: Deps, n: Batch)
    requires WellFormed(d) && WellFormed(e) && n in d
    requires d.Keys <= e.Keys && forall b :: b in d ==> e[b] == d[b]
    ensures Reach(d, n) == Reach(e, n)
  {
    ReachClosed(d, n);
    ReachLeast(e, n, Reach(d, n));
    ReachClosed(e, n);
    var s := Reach(e, n) * d.Keys;
    assert Closed(d, s);
    ReachLeast(d, n, s);
  }

  // ----- causal graphs -----

  datatype Graph = Graph(nodes: set<Batch>, past: map<Batch, set<Batch>>)

  // past is a strict partial order on the nodes
  ghost predicate Causal(g: Graph) {
    && g.past.Keys == g.nodes
    && DistinctHeads(g.nodes)
    && (forall a :: a in g.nodes ==> g.past[a] <= g.nodes && a !in g.past[a])
    && (forall a, b :: a in g.nodes && b in g.past[a] ==> g.past[b] <= g.past[a])
  }

  ghost predicate IsMaximal(g: Graph, r: set<Batch>, m: Batch)
    requires r <= g.past.Keys
  {
    m in r && forall y :: y in r ==> m !in g.past[y]
  }

  // m is the greatest of the causally maximal members of r
  ghost predicate IsLast(g: Graph, r: set<Batch>, m: Batch)
    requires r <= g.past.Keys
  {
    IsMaximal(g, r, m) && forall x :: IsMaximal(g, r, x) && x != m ==> Before(x, m)
  }

  lemma MaximalAbove(g: Graph, r: set<Batch>, x: Batch) returns (m: Batch)
    requires Causal(g) && r <= g.nodes && x in r
    ensures IsMaximal(g, r, m)
    ensures m == x || x in g.past[m]
    decreases r
  {
    m := x;
    if y :| y in r && x in g.past[y] {
      var above := set z | z in r && x in g.past[z];
      assert x !in above;
      m := MaximalAbove(g, above, y);
      forall z | z in r
        ensures m !in g.past[z]
      {
        if z in above {
        } else {
          assert x !in g.past[z];
        }
      }
    }
  }

  lemma GreatestExists(s: set<Batch>) returns (m: Batch)
    requires s != {} && DistinctHeads(s)
    ensures m in s && forall x :: x in s && x != m ==> Before(x, m)
  {
    var x0 :| x0 in s;
    m := x0;
    var rest := s - {x0};
    assert forall x :: x in s ==> x in rest || x == x0;
    if rest != {} {
      var k := GreatestExists(rest);
      BeforeTotal(m, k);
      if Before(m, k) {
        m := k;
      } else {
        assert Before(k, m);
        forall x | x in rest && x != k
          ensures Before(x, m)
        {
          BeforeTransitive(x, k, m);
        }
      }
    }
  }

  lemma LastExists(g: Graph, r: set<Batch>) returns (m: Batch)
    requires Causal(g) && r <= g.nodes && r != {}
    ensures IsLast(g, r, m)
  {
    var x :| x in r;
    var top := MaximalAbove(g, r, x);
    var maxima := set y | y in r && IsMaximal(g, r, y);
    assert top in maxima;
    m := GreatestExists(maxima);
  }

  // Repeatedly take the greatest causally maximal member, filling the sequence from its end.
  ghost function AntiKahn(g: Graph, r: set<Batch>): seq<Batch>
    requires Causal(g) && r <= g.nodes
    decreases r
  {
    if r == {} then [] else
      assert exists m :: IsLast(g, r, m) by { var m := LastExists(g, r); }
      var m :| IsLast(g, r, m);
      AntiKahn(g, r - {m}) + [m]
  }

  lemma LastUnique(g: Graph, r: set<Batch>, m: Batch, k: Batch)
    requires r <= g.past.Keys && IsLast(g, r, m) && IsLast(g, r, k)
    ensures m == k
  {
    if m != k {
      BeforeTransitive(m, k, m);
    }
  }

  lemma {:induction false} AntiKahnElems(g: Graph, r: set<Batch>)
    requires Causal(g) && r <= g.nodes
    ensures Elems(AntiKahn(g, r)) == r
    ensures |AntiKahn(g, r)| == |r|
    decreases r
  {
    if r != {} {
      var s := AntiKahn(g, r);
      var m, front := s[|s| - 1], s[..|s| - 1];
      AntiKahnElems(g, r - {m});
      ElemsAppend(front, m);
      assert r - {m} + {m} == r;
    }
  }

  lemma AntiKahnStep(g: Graph, r: set<Batch>, m: Batch)
    requires Causal(g) && r <= g.nodes && IsLast(g, r, m)
    ensures AntiKahn(g, r) == AntiKahn(g, r - {m}) + [m]
  {
    var s := AntiKahn(g, r);
    LastUnique(g, r, m, s[|s| - 1]);
  }

  // s is the anti-Kahn order of its members
  ghost predicate Canonical(g: Graph, s: seq<Batch>) {
    Causal(g) && Elems(s) <= g.nodes && s == AntiKahn(g, Elems(s))
  }

  lemma CanonicalAppend(g: Graph, s: seq<Batch>, m: Batch)
    requires Canonical(g, s) && m in g.nodes && m !in s
    requires IsLast(g, Elems(s) + {m}, m)
    ensures Canonical(g, s + [m])
  {
    ElemsAppend(s, m);
    AntiKahnStep(g, Elems(s) + {m}, m);
    assert Elems(s) + {m} - {m} == Elems(s);
  }

  lemma CanonicalSplit(g: Graph, s: seq<Batch>) returns (front: seq<Batch>, m: Batch)
    requires Canonical(g, s) && s != []
    ensures front == s[..|s| - 1] && m == s[|s| - 1] && s == front + [m]
    ensures Canonical(g, front) && IsLast(g, Elems(s), m)
    ensures Elems(front) == Elems(s) - {m} && m in s
  {
    front, m := s[..|s| - 1], s[|s| - 1];
    assert m in Elems(s);
    m := LastExists(g, Elems(s));
    AntiKahnStep(g, Elems(s), m);
    AntiKahnElems(g, Elems(s) - {m});
  }
}
