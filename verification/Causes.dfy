// Facts about the walk that hold of every list with causes first, whatever the weights and
// timestamps in it: causes stay first, and nothing outside the past of the new batch moves.
module Causes {
  import opened Batches
  import opened Graphs
  import opened Universe
  import opened Topo
  import opened Settle

  // In other words: s is closed, has no repeats, and no entry is in the past of an earlier one.
  lemma CausesFirstMeans(g: Graph, s: seq<Batch>)
    requires Causal(g)
    ensures CausesFirst(g, s) <==>
              PastClosed(g, Elems(s)) && Distinct(s) &&
              forall i, j :: 0 <= i < j < |s| ==> s[j] !in g.past[s[i]]
  {
    if CausesFirst(g, s) {
      CausesFirstClosed(g, s);
      forall i, j | 0 <= i < j < |s|
        ensures s[i] != s[j] && s[j] !in g.past[s[i]]
      {
        assert Rung(g, {}, s[..i], s[i]) && Rung(g, {}, s[..j], s[j]);
        assert s[..j][i] == s[i];
        assert Elems(s[..i]) <= Elems(s[..j]);
      }
    }
    if PastClosed(g, Elems(s)) && Distinct(s) && forall i, j :: 0 <= i < j < |s| ==> s[j] !in g.past[s[i]] {
      forall i | 0 <= i < |s|
        ensures Rung(g, {}, s[..i], s[i])
      {
        PastBefore(g, s, i);
      }
    }
  }

  lemma PastBefore(g: Graph, s: seq<Batch>, i: nat)
    requires Causal(g) && i < |s|
    requires PastClosed(g, Elems(s)) && Distinct(s)
    requires forall i, j :: 0 <= i < j < |s| ==> s[j] !in g.past[s[i]]
    ensures Rung(g, {}, s[..i], s[i])
  {
    assert s[i] in Elems(s);
    forall x | x in g.past[s[i]]
      ensures x in s[..i]
    {
      assert x in Elems(s);
      var j :| 0 <= j < |s| && s[j] == x;
      assert j < i;
    }
  }

  lemma CausesFirstPrefix(g: Graph, s: seq<Batch>, i: nat)
    requires CausesFirst(g, s) && i <= |s|
    ensures CausesFirst(g, s[..i])
  {
    forall k | 0 <= k < i
      ensures Rung(g, {}, s[..i][..k], s[..i][k])
    {
      assert s[..i][..k] == s[..k];
      assert Rung(g, {}, s[..k], s[k]);
    }
  }

  // The last entry is not in the past of any other.
  lemma DropCaused(g: Graph, list: seq<Batch>) returns (front: seq<Batch>, x: Batch)
    requires Causal(g) && CausesFirst(g, list) && list != []
    ensures front == list[..|list| - 1] && x == list[|list| - 1]
    ensures Elems(front) == Elems(list) - {x} && CausesFirst(g, front)
    ensures IsMaximal(g, Elems(list), x) && g.past[x] <= Elems(front)
  {
    front, x := CausesFirstFront(g, list);
    CausesFirstClosed(g, list);
    CausesFirstClosed(g, front);
  }

  // ----- what the walk hands over -----

  ghost predicate Parted(g: Graph, n: Batch, left: set<Batch>, w: Split)
    requires Causal(g) && n in g.nodes
  {
    var prefix, linked, tip := Elems(w.prefix), Elems(w.linked), Elems(w.tip);
    && left == prefix + linked + tip
    && linked <= g.past[n] && tip !! g.past[n]
    && CausesFirst(g, w.prefix) && Ladder(g, prefix, w.linked) && Ladder(g, prefix + linked, w.tip)
  }

  lemma {:induction false} WalkParts(g: Graph, n: Batch, list: seq<Batch>, ks: set<Batch>, clock: ClockMap)
    requires Walking(g, n, Elems(list), ks, clock) && CausesFirst(g, list)
    ensures Parted(g, n, Elems(list), Walk(list, n, clock))
    decreases |list|
  {
    if !(list == [] || Cmp(n, list[|list| - 1]) > 0) {
      var left := Elems(list);
      var front, x := DropCaused(g, list);
      HitIsPast(g, n, left, ks, clock, x);
      if Hit(clock, x) {
        WalkingLinked(g, n, left, ks, clock, x);
        WalkParts(g, n, front, ks + {x}, TickAll(clock, x.links));
        PartedLinked(g, n, left, x, Walk(front, n, TickAll(clock, x.links)));
      } else {
        WalkingTip(g, n, left, ks, clock, x);
        WalkParts(g, n, front, ks, clock);
        PartedTip(g, n, left, x, Walk(front, n, clock));
      }
    }
  }

  lemma PartedTip(g: Graph, n: Batch, left: set<Batch>, e: Batch, w: Split)
    requires Causal(g) && n in g.nodes && e in left && e !in g.past[n] && e in g.nodes
    requires g.past[e] <= left - {e} && Parted(g, n, left - {e}, w)
    ensures Parted(g, n, left, w.(tip := w.tip + [e]))
  {
    ElemsAppend(w.tip, e);
    assert left == left - {e} + {e};
    LadderAppend(g, Elems(w.prefix) + Elems(w.linked), w.tip, e);
  }

  lemma PartedLinked(g: Graph, n: Batch, left: set<Batch>, e: Batch, w: Split)
    requires Causal(g) && n in g.nodes && e in left && e in g.past[n]
    requires g.past[e] <= left - {e} && Parted(g, n, left - {e}, w)
    ensures Parted(g, n, left, w.(linked := w.linked + [e]))
  {
    ElemsAppend(w.linked, e);
    assert left == left - {e} + {e};
    LadderAppend(g, Elems(w.prefix), w.linked, e);
    var base := Elems(w.prefix) + Elems(w.linked);
    assert Elems(w.prefix) + Elems(w.linked + [e]) == base + {e};
    LadderGrow(g, base, base + {e}, w.tip);
  }

  lemma LadderGrow(g: Graph, base: set<Batch>, larger: set<Batch>, ks: seq<Batch>)
    requires Ladder(g, base, ks) && base <= larger && larger !! Elems(ks)
    ensures Ladder(g, larger, ks)
  {
    forall i | 0 <= i < |ks|
      ensures Rung(g, larger, ks[..i], ks[i])
    {
      assert Rung(g, base, ks[..i], ks[i]);
      assert ks[i] in Elems(ks);
    }
  }

  lemma {:induction false} LadderConcat(g: Graph, s: seq<Batch>, ks: seq<Batch>)
    requires CausesFirst(g, s) && Ladder(g, Elems(s), ks)
    ensures CausesFirst(g, s + ks) && Elems(s + ks) == Elems(s) + Elems(ks)
    decreases |ks|
  {
    if ks == [] {
      assert s + ks == s;
    } else {
      var front, k := ks[..|ks| - 1], ks[|ks| - 1];
      assert ks == front + [k];
      ElemsAppend(front, k);
      LadderAppend(g, Elems(s), front, k);
      LadderConcat(g, s, front);
      assert s + ks == (s + front) + [k];
      ElemsAppend(s + front, k);
      LadderAppend(g, {}, s + front, k);
    }
  }

  // ----- causes stay first -----

  // n is new and everything it depends on is in s
  ghost predicate Ready(g: Graph, s: set<Batch>, n: Batch) {
    Sound(g) && n in g.nodes && n !in s && g.past[n] <= s
  }

  lemma WalkStarts(g: Graph, n: Batch, list: seq<Batch>)
    requires Ready(g, Elems(list), n) && CausesFirst(g, list)
    ensures Walking(g, n, Elems(list), {}, StartClock(n))
    ensures Parted(g, n, Elems(list), Walk(list, n, StartClock(n)))
  {
    CausesFirstClosed(g, list);
    forall x | x in Elems(list)
      ensures Hit(StartClock(n), x) <==> DependsOn(n, x) || LinkedFrom({}, x)
    {
      HitStart(n, x);
    }
    WalkParts(g, n, list, {}, StartClock(n));
  }

  // Inserting a batch keeps causes first.
  lemma {:induction false} InsertKeepsCauses(g: Graph, list: seq<Batch>, n: Batch)
    requires Ready(g, Elems(list), n) && CausesFirst(g, list)
    ensures CausesFirst(g, Insert(list, n)) && Elems(Insert(list, n)) == Elems(list) + {n}
    decreases |list|, 1
  {
    var w := Walk(list, n, StartClock(n));
    WalkStarts(g, n, list);
    InsertAllKeepsCauses(g, w.prefix, w.linked);
    PutBack(g, n, Elems(list), w, InsertAll(w.prefix, w.linked));
  }

  lemma {:induction false} InsertAllKeepsCauses(g: Graph, list: seq<Batch>, linked: seq<Batch>)
    requires Sound(g) && CausesFirst(g, list) && Ladder(g, Elems(list), linked)
    ensures CausesFirst(g, InsertAll(list, linked))
    ensures Elems(InsertAll(list, linked)) == Elems(list) + Elems(linked)
    decreases |list| + |linked|, 0
  {
    if linked != [] {
      var front, e := LadderFront(g, Elems(list), linked);
      InsertAllKeepsCauses(g, list, front);
      InsertKeepsCauses(g, InsertAll(list, front), e);
    }
  }

  lemma LadderFront(g: Graph, base: set<Batch>, ks: seq<Batch>) returns (front: seq<Batch>, e: Batch)
    requires Sound(g) && Ladder(g, base, ks) && ks != []
    ensures front == ks[..|ks| - 1] && e == ks[|ks| - 1]
    ensures Ladder(g, base, front) && Elems(ks) == Elems(front) + {e}
    ensures Ready(g, base + Elems(front), e)
  {
    front, e := ks[..|ks| - 1], ks[|ks| - 1];
    assert ks == front + [e];
    ElemsAppend(front, e);
    LadderAppend(g, base, front, e);
  }

  // Whatever order the past of n has taken in s, n and the tip can follow.
  lemma PutBack(g: Graph, n: Batch, left: set<Batch>, w: Split, s: seq<Batch>)
    requires Ready(g, left, n) && Parted(g, n, left, w)
    requires CausesFirst(g, s) && Elems(s) == Elems(w.prefix) + Elems(w.linked)
    ensures CausesFirst(g, s + [n] + w.tip) && Elems(s + [n] + w.tip) == left + {n}
  {
    LadderAppend(g, {}, s, n);
    ElemsAppend(s, n);
    LadderGrow(g, Elems(s), Elems(s + [n]), w.tip);
    LadderConcat(g, s + [n], w.tip);
  }

  // ----- nothing else moves -----

  // the part of s that is kept, in the order of s
  function Filter(s: seq<Batch>, keep: set<Batch>): seq<Batch> {
    FilterUpTo(s, |s|, keep)
  }

  function FilterUpTo(s: seq<Batch>, k: nat, keep: set<Batch>): seq<Batch>
    requires k <= |s|
  {
    if k == 0 then [] else FilterUpTo(s, k - 1, keep) + if s[k - 1] in keep then [s[k - 1]] else []
  }

  lemma {:induction false} FilterPrefix(s: seq<Batch>, t: seq<Batch>, k: nat, keep: set<Batch>)
    requires k <= |s| && k <= |t| && forall i :: 0 <= i < k ==> s[i] == t[i]
    ensures FilterUpTo(s, k, keep) == FilterUpTo(t, k, keep)
  {
    if k > 0 {
      FilterPrefix(s, t, k - 1, keep);
    }
  }

  lemma FilterAppend(s: seq<Batch>, x: Batch, keep: set<Batch>)
    ensures Filter(s + [x], keep) == Filter(s, keep) + if x in keep then [x] else []
  {
    FilterPrefix(s + [x], s, |s|, keep);
  }

  lemma FilterFront(s: seq<Batch>, keep: set<Batch>)
    requires s != []
    ensures Filter(s, keep) == Filter(s[..|s| - 1], keep) + if s[|s| - 1] in keep then [s[|s| - 1]] else []
  {
    FilterPrefix(s, s[..|s| - 1], |s| - 1, keep);
  }

  lemma FilterTip(s: seq<Batch>, prefix: seq<Batch>, tip: seq<Batch>, keep: set<Batch>)
    requires s != []
    requires Filter(s[..|s| - 1], keep) == Filter(prefix, keep) + Filter(tip, keep)
    ensures Filter(s, keep) == Filter(prefix, keep) + Filter(tip + [s[|s| - 1]], keep)
  {
    FilterFront(s, keep);
    FilterAppend(tip, s[|s| - 1], keep);
  }

  lemma {:induction false} FilterConcat(s: seq<Batch>, t: seq<Batch>, keep: set<Batch>)
    ensures Filter(s + t, keep) == Filter(s, keep) + Filter(t, keep)
    decreases |t|
  {
    if t == [] {
      assert s + t == s;
    } else {
      var front, x := t[..|t| - 1], t[|t| - 1];
      assert t == front + [x] && s + t == (s + front) + [x];
      FilterConcat(s, front, keep);
      FilterAppend(s + front, x, keep);
      FilterAppend(front, x, keep);
    }
  }

  lemma FilterRestored(s: seq<Batch>, n: Batch, tip: seq<Batch>, keep: set<Batch>)
    requires n !in keep
    ensures Filter(s + [n] + tip, keep) == Filter(s, keep) + Filter(tip, keep)
  {
    FilterAppend(s, n, keep);
    FilterConcat(s + [n], tip, keep);
  }

  // What is kept is in the part left alone or on the tip.
  lemma {:induction false} WalkFilters(list: seq<Batch>, n: Batch, clock: ClockMap, keep: set<Batch>)
    requires Elems(Walk(list, n, clock).linked) !! keep
    ensures var w := Walk(list, n, clock);
            Filter(list, keep) == Filter(w.prefix, keep) + Filter(w.tip, keep)
    decreases |list|
  {
    if !(list == [] || Cmp(n, list[|list| - 1]) > 0) {
      var front, e := list[..|list| - 1], list[|list| - 1];
      if Hit(clock, e) {
        var w := Walk(front, n, TickAll(clock, e.links));
        ElemsAppend(w.linked, e);
        WalkFilters(front, n, TickAll(clock, e.links), keep);
        FilterFront(list, keep);
      } else {
        var w := Walk(front, n, clock);
        WalkFilters(front, n, clock, keep);
        FilterTip(list, w.prefix, w.tip, keep);
      }
    }
  }

  // Inserting a batch keeps the relative order of everything outside its past.
  lemma {:induction false} InsertKeepsOutside(g: Graph, list: seq<Batch>, n: Batch, keep: set<Batch>)
    requires Ready(g, Elems(list), n) && CausesFirst(g, list)
    requires keep !! g.past[n] && n !in keep
    ensures Filter(Insert(list, n), keep) == Filter(list, keep)
    decreases |list|, 1
  {
    var w := Walk(list, n, StartClock(n));
    WalkStarts(g, n, list);
    assert Elems(w.linked) !! keep;
    WalkFilters(list, n, StartClock(n), keep);
    InsertAllKeepsOutside(g, n, w.prefix, w.linked, keep);
    FilterRestored(InsertAll(w.prefix, w.linked), n, w.tip, keep);
  }

  lemma {:induction false} InsertAllKeepsOutside(g: Graph, n: Batch, list: seq<Batch>, linked: seq<Batch>, keep: set<Batch>)
    requires Sound(g) && n in g.nodes && CausesFirst(g, list) && Ladder(g, Elems(list), linked)
    requires keep !! g.past[n] && Elems(linked) <= g.past[n]
    ensures Filter(InsertAll(list, linked), keep) == Filter(list, keep)
    decreases |list| + |linked|, 0
  {
    if linked != [] {
      var front, e := LadderFront(g, Elems(list), linked);
      InsertAllKeepsOutside(g, n, list, front, keep);
      InsertAllKeepsCauses(g, list, front);
      InsertKeepsOutside(g, InsertAll(list, front), e, keep);
    }
  }

  // ----- any arrival order -----

  // A list with dependencies first has causes first in its causal graph, and conversely.
  lemma ArrivalsAreCaused(u: set<Batch>, list: seq<Batch>)
    requires Acyclic(u) && DownClosed(u, Elems(list))
    ensures CausalArrivals(list) <==> CausesFirst(CausalGraph(u), list)
  {
    var g, s := CausalGraph(u), Elems(list);
    CausalGraphIsCausal(u);
    if CausalArrivals(list) {
      ArrivalsCaused(u, list);
    }
    if CausesFirst(g, list) {
      CausesFirstMeans(g, list);
      forall i | 0 <= i < |list|
        ensures list[i] !in list[..i] && forall b :: b in list[..i] ==> !DependsOn(b, list[i])
      {
        assert list[i] in s;
        forall b | b in list[..i]
          ensures b != list[i] && !DependsOn(b, list[i])
        {
          var j :| 0 <= j < i && list[j] == b;
          assert b in s;
          ReachClosed(DependencyTable(u), b);
        }
      }
    }
  }

  // Into any list with dependencies first, canonical or not: dependencies stay first, and
  // everything outside the past of the new batch keeps its relative order.
  lemma InsertDisturbsOnlyPast(list: seq<Batch>, n: Batch)
    requires CausalArrivals(list) && CitationsCovered(Elems(list)) && Fresh(Elems(list), n)
    ensures CausalArrivals(Insert(list, n)) && Elems(Insert(list, n)) == Elems(list) + {n}
    ensures var outside := Elems(list) - Past(Elems(list) + {n}, n);
            Filter(Insert(list, n), outside) == Filter(list, outside)
  {
    var s := Elems(list);
    var u := s + {n};
    ArrivalsAcyclic(list);
    SoundGraph(s, n);
    FreshPast(s, n);
    ArrivalsAreCaused(u, list);
    InsertKeepsCauses(CausalGraph(u), list, n);
    ArrivalsAreCaused(u, Insert(list, n));
    InsertKeepsOutside(CausalGraph(u), list, n, s - Past(u, n));
  }
}
