// Where a set of batches settles: the incremental walk, folded over any causal arrival order,
// reaches the canonical order of the set.
module Settle {
  import opened Batches
  import opened Graphs
  import opened Universe
  import opened Topo
  import opened Strata

  // the canonical order of a set of batches
  ghost function CanonicalOf(u: set<Batch>): seq<Batch>
    requires Acyclic(u)
  {
    CausalGraphIsCausal(u);
    AntiKahn(CausalGraph(u), u)
  }

  ghost predicate CitationsCovered(u: set<Batch>) {
    forall b :: b in u ==> CitationCovered(u, b)
  }

  // n is a new batch that no batch of s depends on
  ghost predicate Fresh(s: set<Batch>, n: Batch) {
    n !in s && DistinctHeads(s + {n}) && forall b :: b in s ==> !DependsOn(b, n)
  }

  // ----- growing the set -----

  // Only the past of the members of r matters.
  lemma {:induction false} AntiKahnCongruence(g: Graph, h: Graph, r: set<Batch>)
    requires Causal(g) && Causal(h) && r <= g.nodes && r <= h.nodes
    requires forall x :: x in r ==> g.past[x] == h.past[x]
    ensures AntiKahn(g, r) == AntiKahn(h, r)
    decreases r
  {
    if r != {} {
      var m := LastExists(g, r);
      assert forall x :: IsMaximal(g, r, x) <==> IsMaximal(h, r, x);
      AntiKahnStep(g, r, m);
      AntiKahnStep(h, r, m);
      AntiKahnCongruence(g, h, r - {m});
    }
  }

  lemma FreshPast(s: set<Batch>, n: Batch)
    requires Acyclic(s) && Fresh(s, n)
    ensures DownClosed(s + {n}, s)
    ensures forall b :: b in s ==> Past(s + {n}, b) == Past(s, b)
    ensures Past(s + {n}, n) <= s
    ensures Acyclic(s + {n})
  {
    var u := s + {n};
    forall b | b in s
      ensures Past(u, b) == Past(s, b)
    {
      PastRestrict(u, s, b);
    }
    var d := DependencyTable(u);
    assert d[n] <= s;
    ReachLeast(d, n, s);
  }

  lemma CoveredSame(s: set<Batch>, n: Batch, b: Batch)
    requires Fresh(s, n) && b in s
    ensures CitationCovered(s, b) <==> CitationCovered(s + {n}, b)
  {
    var u := s + {n};
    var d, e := LinkTable(s), LinkTable(u);
    forall x | x in s ensures d[x] == e[x] {
    }
    ReachRestrict(d, e, b);
    assert forall x :: x in u && DependsOn(b, x) ==> x in s;
  }

  lemma SoundGraph(s: set<Batch>, n: Batch)
    requires Acyclic(s) && CitationsCovered(s) && Fresh(s, n)
    ensures Acyclic(s + {n}) && Sound(CausalGraph(s + {n}))
  {
    var u := s + {n};
    FreshPast(s, n);
    CausalGraphIsCausal(u);
    var g := CausalGraph(u);
    forall b, x | b in u && x in u && DependsOn(b, x)
      ensures x in g.past[b]
    {
      ReachClosed(DependencyTable(u), b);
    }
    forall b, x | b in u && x in g.past[b]
      ensures DependsOn(b, x) || LinkedFrom(g.past[b], x)
    {
      forall y | y in Past(u, b) ensures CitationCovered(u, y) {
        PastWithin(s, n, b);
        CoveredSame(s, n, y);
      }
      PastLastStep(u, b, x);
    }
  }

  lemma PastWithin(s: set<Batch>, n: Batch, b: Batch)
    requires Acyclic(s) && Fresh(s, n) && b in s + {n}
    ensures Past(s + {n}, b) <= s
  {
    FreshPast(s, n);
  }

  // ----- the main theorem -----

  // Inserting a batch that nothing depends on into the canonical order of a set gives the
  // canonical order of the larger set.
  lemma InsertSettles(s: set<Batch>, n: Batch)
    requires Acyclic(s) && CitationsCovered(s) && Fresh(s, n)
    ensures Acyclic(s + {n})
    ensures Insert(CanonicalOf(s), n) == CanonicalOf(s + {n})
  {
    var u, list := s + {n}, CanonicalOf(s);
    SoundGraph(s, n);
    FreshPast(s, n);
    CausalGraphIsCausal(s);
    CausalGraphIsCausal(u);
    var g := CausalGraph(u);
    AntiKahnElems(CausalGraph(s), s);
    AntiKahnCongruence(CausalGraph(s), g, s);
    forall x | x in s ensures g.past[x] <= s {
      PastWithin(s, n, x);
    }
    InsertCanonical(g, list, n);
  }

  // The batches in the order they arrive: no batch repeats, and dependencies come first.
  ghost predicate CausalArrivals(arrivals: seq<Batch>) {
    && DistinctHeads(Elems(arrivals))
    && forall i :: 0 <= i < |arrivals| ==>
         arrivals[i] !in arrivals[..i] && forall b :: b in arrivals[..i] ==> !DependsOn(b, arrivals[i])
  }

  // lib/topo.js linearize, as a fold of the walk.
  function Settled(arrivals: seq<Batch>): seq<Batch> {
    if arrivals == [] then []
    else Insert(Settled(arrivals[..|arrivals| - 1]), arrivals[|arrivals| - 1])
  }

  lemma ArrivalsFront(arrivals: seq<Batch>) returns (front: seq<Batch>, n: Batch)
    requires CausalArrivals(arrivals) && arrivals != []
    ensures front == arrivals[..|arrivals| - 1] && n == arrivals[|arrivals| - 1]
    ensures CausalArrivals(front) && Fresh(Elems(front), n)
    ensures Elems(arrivals) == Elems(front) + {n}
  {
    front, n := arrivals[..|arrivals| - 1], arrivals[|arrivals| - 1];
    assert arrivals == front + [n];
    ElemsAppend(front, n);
    forall i | 0 <= i < |front|
      ensures front[i] !in front[..i] && forall b :: b in front[..i] ==> !DependsOn(b, front[i])
    {
      assert front[..i] == arrivals[..i];
    }
  }

  lemma {:induction false} ArrivalsAcyclic(arrivals: seq<Batch>)
    requires CausalArrivals(arrivals)
    ensures Acyclic(Elems(arrivals))
    decreases |arrivals|
  {
    if arrivals != [] {
      var front, n := ArrivalsFront(arrivals);
      ArrivalsAcyclic(front);
      FreshPast(Elems(front), n);
    }
  }

  lemma {:induction false} ArrivalsCaused(u: set<Batch>, list: seq<Batch>)
    requires Acyclic(u) && DownClosed(u, Elems(list)) && CausalArrivals(list)
    ensures CausesFirst(CausalGraph(u), list)
    decreases |list|
  {
    if list != [] {
      var front, n := ArrivalsFront(list);
      forall b, x | b in front && x in u && DependsOn(b, x)
        ensures x in front
      {
        assert b in Elems(list);
        assert x in Elems(list);
      }
      ArrivalsCaused(u, front);
      ReachLeast(DependencyTable(u), n, Elems(front));
      assert list == front + [n];
      LadderAppend(CausalGraph(u), {}, front, n);
    }
  }

  lemma CoveredBefore(s: set<Batch>, n: Batch)
    requires Fresh(s, n) && CitationsCovered(s + {n})
    ensures CitationsCovered(s)
  {
    forall b | b in s
      ensures CitationCovered(s, b)
    {
      CoveredSame(s, n, b);
    }
  }

  // Batches that come after their causes settle in the canonical order, as long as the clock can
  // trace every dependency.
  lemma {:induction false} CausesSettle(g: Graph, arrivals: seq<Batch>)
    requires Sound(g) && CausesFirst(g, arrivals)
    ensures Canonical(g, Settled(arrivals)) && Elems(Settled(arrivals)) == Elems(arrivals)
    decreases |arrivals|
  {
    if arrivals != [] {
      var front, n := CausesFirstFront(g, arrivals);
      CausesFirstClosed(g, front);
      CausesSettle(g, front);
      InsertCanonical(g, Settled(front), n);
    }
  }

  // The walk, folded over any causal arrival order of a set, gives its canonical order.
  lemma SoundSettles(arrivals: seq<Batch>)
    requires CausalArrivals(arrivals) && Sound(CausalGraph(Elems(arrivals)))
    ensures Acyclic(Elems(arrivals)) && Settled(arrivals) == CanonicalOf(Elems(arrivals))
  {
    ArrivalsAcyclic(arrivals);
    ArrivalsCaused(Elems(arrivals), arrivals);
    CausesSettle(CausalGraph(Elems(arrivals)), arrivals);
  }

  // Covered citations are enough for that, but not needed: what matters is that no later batch
  // has to be traced through them.
  lemma CoveredIsSound(u: set<Batch>)
    requires Acyclic(u) && CitationsCovered(u)
    ensures Sound(CausalGraph(u))
  {
    CausalGraphIsCausal(u);
    var g := CausalGraph(u);
    forall b, x | b in u && x in u && DependsOn(b, x)
      ensures x in g.past[b]
    {
      ReachClosed(DependencyTable(u), b);
    }
    forall b, x | b in u && x in g.past[b]
      ensures DependsOn(b, x) || LinkedFrom(g.past[b], x)
    {
      PastLastStep(u, b, x);
    }
  }

  lemma LinearizeIsCanonical(arrivals: seq<Batch>)
    requires CausalArrivals(arrivals) && CitationsCovered(Elems(arrivals))
    ensures Acyclic(Elems(arrivals))
    ensures Settled(arrivals) == CanonicalOf(Elems(arrivals))
  {
    ArrivalsAcyclic(arrivals);
    CoveredIsSound(Elems(arrivals));
    SoundSettles(arrivals);
  }

  // The incremental walk realizes exactly the stratified reference order.
  lemma LinearizeIsReference(arrivals: seq<Batch>, t: Tree)
    requires CausalArrivals(arrivals) && Sound(CausalGraph(Elems(arrivals)))
    requires Explains(CausalGraph(Elems(arrivals)), Elems(arrivals), t)
    ensures Settled(arrivals) == Flatten(t)
  {
    SoundSettles(arrivals);
    ExplainsFlattens(CausalGraph(Elems(arrivals)), Elems(arrivals), t);
  }

  lemma ArrivalOrderIrrelevant(a: seq<Batch>, b: seq<Batch>)
    requires CausalArrivals(a) && CausalArrivals(b) && Elems(a) == Elems(b)
    requires Sound(CausalGraph(Elems(a)))
    ensures Settled(a) == Settled(b)
  {
    SoundSettles(a);
    SoundSettles(b);
  }
}
