// What does not move: consequences of the canonical order for re-applied and untouched batches.
module Stability {
  import opened Batches
  import opened Graphs
  import opened Universe
  import opened Topo
  import opened Strata
  import opened Settle
  import opened Causes

  // ----- prefixes -----

  lemma {:induction false} ArrivalsPrefix(arrivals: seq<Batch>, i: nat)
    requires CausalArrivals(arrivals) && CitationsCovered(Elems(arrivals)) && i <= |arrivals|
    ensures CausalArrivals(arrivals[..i]) && CitationsCovered(Elems(arrivals[..i]))
    decreases |arrivals|
  {
    if i == |arrivals| {
      assert arrivals[..i] == arrivals;
    } else {
      var front, n := ArrivalsFront(arrivals);
      CoveredBefore(Elems(front), n);
      ArrivalsPrefix(front, i);
      assert front[..i] == arrivals[..i];
    }
  }

  // The canonical order is itself a causal arrival order of the set.
  lemma CanonicalArrivals(u: set<Batch>)
    requires Acyclic(u)
    ensures Elems(CanonicalOf(u)) == u && CausalArrivals(CanonicalOf(u))
  {
    var g, s := CausalGraph(u), CanonicalOf(u);
    CausalGraphIsCausal(u);
    AntiKahnElems(g, u);
    forall i | 0 <= i < |s|
      ensures s[i] !in s[..i] && forall b :: b in s[..i] ==> !DependsOn(b, s[i])
    {
      CanonicalPrefix(g, s, i);
      forall b | b in s[..i]
        ensures !DependsOn(b, s[i])
      {
        var j :| 0 <= j < i && s[j] == b;
        CanonicalTopological(g, s, j, i);
        ReachClosed(DependencyTable(u), b);
        assert s[i] in Elems(s);
      }
    }
  }

  // Every prefix of the canonical order is the canonical order of its members.
  lemma PrefixCanonical(u: set<Batch>, i: nat)
    requires Acyclic(u) && i <= |CanonicalOf(u)|
    ensures var p := CanonicalOf(u)[..i];
            Acyclic(Elems(p)) && p == CanonicalOf(Elems(p))
  {
    var g, s := CausalGraph(u), CanonicalOf(u);
    var p := s[..i];
    CausalGraphIsCausal(u);
    CanonicalArrivals(u);
    CanonicalPrefix(g, s, i);
    PrefixDownClosed(u, i);
    forall b | b in p
      ensures Past(Elems(p), b) == Past(u, b)
    {
      PastRestrict(u, Elems(p), b);
    }
    CausalGraphIsCausal(Elems(p));
    AntiKahnCongruence(g, CausalGraph(Elems(p)), Elems(p));
  }

  lemma PrefixDownClosed(u: set<Batch>, i: nat)
    requires Acyclic(u) && i <= |CanonicalOf(u)|
    ensures DownClosed(u, Elems(CanonicalOf(u)[..i]))
  {
    var g, s := CausalGraph(u), CanonicalOf(u);
    CausalGraphIsCausal(u);
    CanonicalArrivals(u);
    ArrivalsAreCaused(u, s);
    CausesFirstPrefix(g, s, i);
    CausesFirstClosed(g, s[..i]);
    PastClosedIsDownClosed(u, Elems(s[..i]));
  }

  lemma PastClosedIsDownClosed(u: set<Batch>, p: set<Batch>)
    requires Acyclic(u) && Causal(CausalGraph(u)) && PastClosed(CausalGraph(u), p)
    ensures DownClosed(u, p)
  {
    forall b, x | b in p && x in u && DependsOn(b, x)
      ensures x in p
    {
      ReachClosed(DependencyTable(u), b);
    }
  }

  // Feeding a canonical order back in order never moves anything: each insertion is an append.
  lemma RedoOnlyAppends(u: set<Batch>, i: nat)
    requires Acyclic(u) && CitationsCovered(u) && i < |CanonicalOf(u)|
    ensures var s := CanonicalOf(u); Insert(s[..i], s[i]) == s[..i] + [s[i]]
  {
    PrefixSettles(u, i);
    PrefixSettles(u, i + 1);
    SettledStep(CanonicalOf(u), i);
  }

  lemma SettledStep(s: seq<Batch>, i: nat)
    requires i < |s| && Settled(s[..i]) == s[..i] && Settled(s[..i + 1]) == s[..i + 1]
    ensures Insert(s[..i], s[i]) == s[..i] + [s[i]]
  {
    assert s[..i + 1] == s[..i] + [s[i]];
    assert s[..i + 1][..i] == s[..i];
  }

  // In particular linearizing a linearized sequence changes nothing.
  lemma LinearizeIdempotent(u: set<Batch>)
    requires Acyclic(u) && CitationsCovered(u)
    ensures Settled(CanonicalOf(u)) == CanonicalOf(u)
  {
    CanonicalArrivals(u);
    LinearizeIsCanonical(CanonicalOf(u));
  }

  lemma PrefixSettles(u: set<Batch>, i: nat)
    requires Acyclic(u) && CitationsCovered(u) && i <= |CanonicalOf(u)|
    ensures var s := CanonicalOf(u); Settled(s[..i]) == s[..i]
  {
    var s := CanonicalOf(u);
    CanonicalArrivals(u);
    ArrivalsPrefix(s, i);
    LinearizeIsCanonical(s[..i]);
    PrefixCanonical(u, i);
  }

  // A batch that has the whole set in its past is appended.
  lemma AcknowledgesAll(s: set<Batch>, n: Batch)
    requires Acyclic(s) && Fresh(s, n) && s <= Past(s + {n}, n)
    ensures Acyclic(s + {n}) && CanonicalOf(s + {n}) == CanonicalOf(s) + [n]
  {
    var u := s + {n};
    FreshPast(s, n);
    CausalGraphIsCausal(s);
    CausalGraphIsCausal(u);
    OnlyMaximal(CausalGraph(u), s, n);
    AntiKahnCongruence(CausalGraph(u), CausalGraph(s), s);
  }

  lemma OnlyMaximal(g: Graph, s: set<Batch>, n: Batch)
    requires Causal(g) && s + {n} <= g.nodes && n !in s && s <= g.past[n]
    requires forall x :: x in s ==> n !in g.past[x]
    ensures AntiKahn(g, s + {n}) == AntiKahn(g, s) + [n]
  {
    var u := s + {n};
    assert forall x :: IsMaximal(g, u, x) ==> x == n;
    assert IsLast(g, u, n);
    AntiKahnStep(g, u, n);
    assert u - {n} == s;
  }

  // ----- relative order -----

  // A part that holds everything depending on it is ordered as if it were alone.
  lemma {:induction false} UpSetOrder(g: Graph, r: set<Batch>, o: set<Batch>)
    requires Causal(g) && r <= g.nodes && o <= r
    requires forall x, y :: x in o && y in r && x in g.past[y] ==> y in o
    ensures Filter(AntiKahn(g, r), o) == AntiKahn(g, o)
    decreases r
  {
    if r != {} {
      var m := LastExists(g, r);
      AntiKahnStep(g, r, m);
      var rest := AntiKahn(g, r - {m});
      FilterAppend(rest, m, o);
      if m in o {
        assert forall x :: IsMaximal(g, o, x) ==> IsMaximal(g, r, x);
        assert IsLast(g, o, m);
        AntiKahnStep(g, o, m);
        UpSetOrder(g, r - {m}, o - {m});
        FilterSame(g, r - {m}, o, m);
      } else {
        UpSetOrder(g, r - {m}, o);
      }
    }
  }

  lemma FilterSame(g: Graph, r: set<Batch>, o: set<Batch>, m: Batch)
    requires Causal(g) && r <= g.nodes && m !in r
    ensures Filter(AntiKahn(g, r), o) == Filter(AntiKahn(g, r), o - {m})
  {
    AntiKahnElems(g, r);
    FilterWithout(AntiKahn(g, r), o, m);
  }

  lemma {:induction false} FilterWithout(s: seq<Batch>, o: set<Batch>, m: Batch)
    requires m !in s
    ensures Filter(s, o) == Filter(s, o - {m})
  {
    FilterUpToWithout(s, |s|, o, m);
  }

  lemma {:induction false} FilterUpToWithout(s: seq<Batch>, k: nat, o: set<Batch>, m: Batch)
    requires m !in s && k <= |s|
    ensures FilterUpTo(s, k, o) == FilterUpTo(s, k, o - {m})
  {
    if k > 0 {
      FilterUpToWithout(s, k - 1, o, m);
    }
  }

  // ----- who comes first -----

  // a before b: the heavier first, then the older, then the smaller key, then the shorter chain
  ghost predicate Ranks(a: Batch, b: Batch) {
    || a.weight > b.weight
    || (a.weight == b.weight && a.timestamp < b.timestamp)
    || (a.weight == b.weight && a.timestamp == b.timestamp && a.key < b.key)
    || (a.weight == b.weight && a.timestamp == b.timestamp && a.key == b.key && a.length < b.length)
  }

  lemma NothingAbove(g: Graph, s: seq<Batch>, i: nat, j: nat)
    requires Canonical(g, s) && i < |s| && j <= i
    ensures s[i] in g.nodes && s[j] in g.nodes && s[i] !in g.past[s[j]]
  {
    if j < i {
      CanonicalTopological(g, s, j, i);
    } else {
      CanonicalPrefix(g, s, i);
      assert s[i] in Elems(s[..i + 1]);
    }
  }

  // Unless the next one has it in its past, an entry is maximal up to there.
  lemma MaximalBelow(g: Graph, s: seq<Batch>, i: nat)
    requires Canonical(g, s) && i + 1 < |s| && Elems(s[..i + 2]) <= g.past.Keys
    ensures s[i] in g.past[s[i + 1]] || IsMaximal(g, Elems(s[..i + 2]), s[i])
  {
    forall j | 0 <= j <= i ensures s[i] !in g.past[s[j]] {
      NothingAbove(g, s, i, j);
    }
    var p := s[..i + 2];
    assert p[i] == s[i] && forall y :: y in p ==> exists j :: 0 <= j < i + 2 && s[j] == y;
  }

  lemma Neighbours(g: Graph, s: seq<Batch>, i: nat)
    requires Canonical(g, s) && i + 1 < |s|
    ensures s[i + 1] in g.nodes && (s[i] in g.past[s[i + 1]] || Before(s[i], s[i + 1]))
  {
    CanonicalPrefix(g, s, i + 1);
    CanonicalTopological(g, s, i, i + 1);
    assert s[..i + 2][i + 1] in Elems(s[..i + 2]);
    MaximalBelow(g, s, i);
  }

  // Of two neighbours in the canonical order the first is in the past of the second or ranks
  // before it.
  lemma NeighboursRank(u: set<Batch>, i: nat)
    requires Acyclic(u) && i + 1 < |CanonicalOf(u)|
    ensures var a, b := CanonicalOf(u)[i], CanonicalOf(u)[i + 1];
            a in u && b in u && (a in Past(u, b) || Ranks(a, b))
  {
    var g, s := CausalGraph(u), CanonicalOf(u);
    CausalGraphIsCausal(u);
    CanonicalArrivals(u);
    Neighbours(g, s, i);
    NothingAbove(g, s, i, i);
    CanonicalTopological(g, s, i, i + 1);
    BeforeRanks(s[i], s[i + 1]);
  }

  lemma BeforeRanks(a: Batch, b: Batch)
    ensures Before(a, b) && (a.key != b.key || a.length != b.length) ==> Ranks(a, b)
  {
  }

  // Two unrelated batches are in the order of their ranks.
  lemma PairRanks(a: Batch, b: Batch, u: set<Batch>)
    requires a != b && u == {a, b} && DistinctHeads(u) && !DependsOn(a, b) && !DependsOn(b, a)
    ensures Acyclic(u) && CanonicalOf(u) == if Ranks(a, b) then [a, b] else [b, a]
  {
    Unrelated(a, b, u);
    PairOrdered(a, b, u);
    PairOrdered(b, a, u);
  }

  lemma Unrelated(a: Batch, b: Batch, u: set<Batch>)
    requires u == {a, b} && DistinctHeads(u) && !DependsOn(a, b) && !DependsOn(b, a)
    ensures Acyclic(u) && Past(u, a) == {} && Past(u, b) == {}
  {
    forall x | x in u ensures Past(u, x) == {} {
      ReachLeast(DependencyTable(u), x, {});
    }
  }

  lemma PairOrdered(a: Batch, b: Batch, u: set<Batch>)
    requires a != b && u == {a, b} && Acyclic(u) && Past(u, a) == {} && Past(u, b) == {}
    ensures CanonicalOf(u) == [a, b] || CanonicalOf(u) == [b, a]
    ensures CanonicalOf(u) == [a, b] ==> Ranks(a, b) && !Ranks(b, a)
  {
    CausalGraphIsCausal(u);
    AntiKahnElems(CausalGraph(u), u);
    PairListed(CanonicalOf(u), u, a, b);
    if CanonicalOf(u) == [a, b] {
      FirstRanks(a, b, u);
    }
  }

  lemma FirstRanks(a: Batch, b: Batch, u: set<Batch>)
    requires Acyclic(u) && b in u && Past(u, b) == {} && CanonicalOf(u) == [a, b]
    ensures Ranks(a, b) && !Ranks(b, a)
  {
    NeighboursRank(u, 0);
    RanksOneWay(a, b);
  }

  lemma RanksOneWay(a: Batch, b: Batch)
    ensures !(Ranks(a, b) && Ranks(b, a))
  {
  }

  lemma PairListed(s: seq<Batch>, u: set<Batch>, a: Batch, b: Batch)
    requires a != b && u == {a, b} && Elems(s) == u && |s| == |u|
    ensures s == [a, b] || s == [b, a]
  {
    assert |u| == 2;
    assert a in Elems(s) && b in Elems(s);
    assert s[0] in Elems(s) && s[1] in Elems(s);
    assert s == [s[0], s[1]];
  }
}
