// The incremental ordering walk of lib/topo.js.
module Topo {
  import opened Batches
  import opened Graphs

  // ----- clocks -----

  // the highest known length of every writer
  type ClockMap = map<Key, nat>

  function Tick(clock: ClockMap, l: Link): ClockMap {
    if l.key in clock && l.length <= clock[l.key] then clock else clock[l.key := l.length]
  }

  function TickAll(clock: ClockMap, links: seq<Link>): ClockMap {
    if links == [] then clock
    else Tick(TickAll(clock, links[..|links| - 1]), links[|links| - 1])
  }

  predicate Hit(clock: ClockMap, x: Batch) {
    x.key in clock && x.length <= clock[x.key]
  }

  function StartClock(b: Batch): ClockMap {
    var clock := TickAll(Tick(map[], Link(b.key, b.length)), b.links);
    if b.cited.Some? then Tick(clock, b.cited.value) else clock
  }

  lemma HitTick(clock: ClockMap, l: Link, x: Batch)
    ensures Hit(Tick(clock, l), x) <==> Hit(clock, x) || Covers(l, x)
  {
  }

  lemma {:induction false} HitTickAll(clock: ClockMap, links: seq<Link>, x: Batch)
    ensures Hit(TickAll(clock, links), x) <==>
            Hit(clock, x) || CoveredBy(links, x)
  {
    if links != [] {
      var front, l := links[..|links| - 1], links[|links| - 1];
      HitTickAll(clock, front, x);
      assert links == front + [l];
      CoveredByAppend(front, l, x);
      HitTick(TickAll(clock, front), l, x);
    }
  }

  // A fresh clock hits exactly the direct dependencies.
  lemma HitStart(b: Batch, x: Batch)
    requires x != b
    ensures Hit(StartClock(b), x) <==> DependsOn(b, x)
  {
    HitTickAll(Tick(map[], Link(b.key, b.length)), b.links, x);
  }

  // ----- the walk -----

  // How the walk divides the list: what it leaves alone, the causal past of the batch among what
  // it popped, and the rest of what it popped, all in list order.
  datatype Split = Split(prefix: seq<Batch>, linked: seq<Batch>, tip: seq<Batch>)

  function Walk(list: seq<Batch>, b: Batch, clock: ClockMap): (w: Split)
    ensures |w.prefix| + |w.linked| + |w.tip| == |list|
  {
    if list == [] || Cmp(b, list[|list| - 1]) > 0 then
      Split(list, [], [])
    else
      var front, e := list[..|list| - 1], list[|list| - 1];
      if !Hit(clock, e) then
        var w := Walk(front, b, clock);
        w.(tip := w.tip + [e])
      else
        var w := Walk(front, b, TickAll(clock, e.links));
        w.(linked := w.linked + [e])
  }

  // The list after a batch is inserted.
  function Insert(list: seq<Batch>, n: Batch): (r: seq<Batch>)
    ensures |r| == |list| + 1
    decreases |list|, 1
  {
    var w := Walk(list, n, StartClock(n));
    InsertAll(w.prefix, w.linked) + [n] + w.tip
  }

  function InsertAll(list: seq<Batch>, linked: seq<Batch>): (r: seq<Batch>)
    ensures |r| == |list| + |linked|
    decreases |list| + |linked|, 0
  {
    if linked == [] then list
    else Insert(InsertAll(list, linked[..|linked| - 1]), linked[|linked| - 1])
  }

  // ----- the walk keeps the canonical order -----

  ghost predicate LinkedFrom(ks: set<Batch>, x: Batch) {
    exists k :: k in ks && Links(k, x)
  }

  // The graph records every direct dependency, and every chain of dependencies from a node ends
  // with a dependency of the node itself or with a link of one of its ancestors.
  ghost predicate Sound(g: Graph) {
    && Causal(g)
    && (forall b, x :: b in g.nodes && x in g.nodes && DependsOn(b, x) ==> x in g.past[b])
    && (forall b, x :: b in g.nodes && x in g.past[b] ==> DependsOn(b, x) || LinkedFrom(g.past[b], x))
  }

  // s holds the past of all its members
  ghost predicate PastClosed(g: Graph, s: set<Batch>)
    requires Causal(g)
  {
    s <= g.nodes && forall x :: x in s ==> g.past[x] <= s
  }

  // Dropping the last batch of a canonical list.
  lemma DropLast(g: Graph, list: seq<Batch>) returns (front: seq<Batch>, x: Batch)
    requires list != [] && Causal(g)
    requires Canonical(g, list) && PastClosed(g, Elems(list))
    ensures front == list[..|list| - 1] && x == list[|list| - 1]
    ensures Elems(front) == Elems(list) - {x} && x in Elems(list)
    ensures Canonical(g, front) && PastClosed(g, Elems(front))
    ensures IsLast(g, Elems(list), x)
  {
    front, x := list[..|list| - 1], list[|list| - 1];
    assert list == front + [list[|list| - 1]];
    ElemsAppend(front, list[|list| - 1]);
    var f, m := CanonicalSplit(g, list);
  }

  // What the walk knows when it has popped the linked batches ks and the batches in left remain.
  ghost predicate Walking(g: Graph, n: Batch, left: set<Batch>, ks: set<Batch>, clock: ClockMap) {
    && Sound(g) && n in g.nodes
    && PastClosed(g, left)
    && ks <= g.past[n] && g.past[n] <= left + ks
    && ks !! left && n !in left
    && (forall x :: x in left ==> (Hit(clock, x) <==> DependsOn(n, x) || LinkedFrom(ks, x)))
  }

  // The clock hits a batch nothing left depends on exactly when it is an ancestor of the new one.
  lemma HitIsPast(g: Graph, n: Batch, left: set<Batch>, ks: set<Batch>, clock: ClockMap, x: Batch)
    requires Walking(g, n, left, ks, clock) && IsMaximal(g, left, x)
    ensures Hit(clock, x) <==> x in g.past[n]
  {
    if x in g.past[n] && !DependsOn(n, x) {
      var y :| y in g.past[n] && Links(y, x);
      assert DependsOn(y, x);
      assert y in ks;
    }
    if Hit(clock, x) && !DependsOn(n, x) {
      var k :| k in ks && Links(k, x);
      assert DependsOn(k, x);
    }
  }

  lemma LinkedFromAdd(ks: set<Batch>, k: Batch, x: Batch)
    ensures LinkedFrom(ks + {k}, x) <==> LinkedFrom(ks, x) || Links(k, x)
  {
    if Links(k, x) {
      assert k in ks + {k};
    }
  }

  // After ticking the links of a linked batch, the clock also hits what that batch links.
  lemma ClockGrows(ks: set<Batch>, n: Batch, k: Batch, clock: ClockMap, x: Batch)
    requires x != k && Hit(clock, k)
    requires Hit(clock, x) <==> DependsOn(n, x) || LinkedFrom(ks, x)
    ensures Hit(TickAll(clock, k.links), x) <==> DependsOn(n, x) || LinkedFrom(ks + {k}, x)
  {
    HitTickAll(clock, k.links, x);
    LinkedFromAdd(ks, k, x);
  }

  lemma WalkingLinked(g: Graph, n: Batch, left: set<Batch>, ks: set<Batch>, clock: ClockMap, k: Batch)
    requires Walking(g, n, left, ks, clock) && IsMaximal(g, left, k) && Hit(clock, k)
    ensures Walking(g, n, left - {k}, ks + {k}, TickAll(clock, k.links))
  {
    HitIsPast(g, n, left, ks, clock, k);
    forall x | x in left - {k}
      ensures Hit(TickAll(clock, k.links), x) <==> DependsOn(n, x) || LinkedFrom(ks + {k}, x)
    {
      ClockGrows(ks, n, k, clock, x);
    }
  }

  lemma WalkingTip(g: Graph, n: Batch, left: set<Batch>, ks: set<Batch>, clock: ClockMap, x: Batch)
    requires Walking(g, n, left, ks, clock) && IsMaximal(g, left, x) && !Hit(clock, x)
    ensures Walking(g, n, left - {x}, ks, clock)
  {
    HitIsPast(g, n, left, ks, clock, x);
  }

  // A batch popped onto the tip comes last among everything not yet on the tip.
  lemma TipIsLast(g: Graph, n: Batch, left: set<Batch>, ks: set<Batch>, clock: ClockMap, x: Batch)
    requires Walking(g, n, left, ks, clock) && IsLast(g, left, x) && !Hit(clock, x) && Before(n, x)
    ensures IsLast(g, left + ks + {n}, x)
  {
    HitIsPast(g, n, left, ks, clock, x);
    forall m | IsMaximal(g, left + ks + {n}, m) && m != x
      ensures Before(m, x)
    {
      if m in left {
        assert IsMaximal(g, left, m);
      }
    }
  }

  // Where the walk stops, the new batch comes last.
  lemma StopIsLast(g: Graph, n: Batch, left: set<Batch>, ks: set<Batch>, clock: ClockMap)
    requires Walking(g, n, left, ks, clock)
    requires left == {} || exists x :: IsLast(g, left, x) && Before(x, n)
    ensures IsLast(g, left + ks + {n}, n)
  {
    forall m | IsMaximal(g, left + ks + {n}, m) && m != n
      ensures Before(m, n)
    {
      assert m in left;
      assert IsMaximal(g, left, m);
      var x :| IsLast(g, left, x) && Before(x, n);
      if m != x {
        BeforeTransitive(m, x, n);
      }
    }
  }

  // ----- putting everything back -----

  // k can be added to base and below, after everything it depends on
  ghost predicate Rung(g: Graph, base: set<Batch>, below: seq<Batch>, k: Batch) {
    k in g.past.Keys && k !in base && k !in below && g.past[k] <= base + Elems(below)
  }

  // ks can be added to base one by one
  ghost predicate Ladder(g: Graph, base: set<Batch>, ks: seq<Batch>) {
    forall i :: 0 <= i < |ks| ==> Rung(g, base, ks[..i], ks[i])
  }

  lemma LadderAppend(g: Graph, base: set<Batch>, ks: seq<Batch>, k: Batch)
    ensures Ladder(g, base, ks + [k]) <==> Ladder(g, base, ks) && Rung(g, base, ks, k)
  {
    var t := ks + [k];
    assert t[..|ks|] == ks;
    forall i | 0 <= i < |ks| ensures t[..i] == ks[..i] {
    }
    if Ladder(g, base, t) {
      assert Rung(g, base, t[..|ks|], t[|ks|]);
      forall i | 0 <= i < |ks| ensures Rung(g, base, ks[..i], ks[i]) {
        assert Rung(g, base, t[..i], t[i]);
      }
    }
  }

  // every entry of s comes once, after its whole past
  ghost predicate CausesFirst(g: Graph, s: seq<Batch>) {
    Ladder(g, {}, s)
  }

  lemma {:induction false} CausesFirstClosed(g: Graph, s: seq<Batch>)
    requires Causal(g) && CausesFirst(g, s)
    ensures PastClosed(g, Elems(s))
  {
    if s != [] {
      var front, x := CausesFirstFront(g, s);
      CausesFirstClosed(g, front);
    }
  }

  lemma CausesFirstFront(g: Graph, s: seq<Batch>) returns (front: seq<Batch>, x: Batch)
    requires CausesFirst(g, s) && s != []
    ensures front == s[..|s| - 1] && x == s[|s| - 1] && s == front + [x]
    ensures CausesFirst(g, front) && Rung(g, {}, front, x)
    ensures Elems(s) == Elems(front) + {x}
  {
    front, x := s[..|s| - 1], s[|s| - 1];
    assert s == front + [x];
    ElemsAppend(front, x);
    LadderAppend(g, {}, front, x);
  }

  // The walk hands over the past of the new batch, ready to be added back in order.
  ghost predicate Divided(g: Graph, n: Batch, left: set<Batch>, w: Split)
    requires Causal(g) && n in g.nodes
  {
    var prefix, linked, tip := Elems(w.prefix), Elems(w.linked), Elems(w.tip);
    && left == prefix + linked + tip
    && linked <= g.past[n] && tip !! g.past[n]
    && PastClosed(g, prefix) && Canonical(g, w.prefix)
    && Ladder(g, prefix, w.linked)
  }

  lemma {:induction false} WalkDivides(g: Graph, n: Batch, list: seq<Batch>, ks: set<Batch>, clock: ClockMap)
    requires Walking(g, n, Elems(list), ks, clock) && Canonical(g, list)
    ensures Divided(g, n, Elems(list), Walk(list, n, clock))
    decreases |list|
  {
    if !(list == [] || Cmp(n, list[|list| - 1]) > 0) {
      var e := list[|list| - 1];
      var front, x := DropLast(g, list);
      var left := Elems(list);
      HitIsPast(g, n, left, ks, clock, x);
      if Hit(clock, x) {
        WalkingLinked(g, n, left, ks, clock, x);
        WalkDivides(g, n, front, ks + {x}, TickAll(clock, x.links));
        DividedLinked(g, n, left, e, Walk(front, n, TickAll(clock, x.links)));
      } else {
        WalkingTip(g, n, left, ks, clock, x);
        WalkDivides(g, n, front, ks, clock);
        DividedTip(g, n, left, e, Walk(front, n, clock));
      }
    }
  }

  lemma DividedTip(g: Graph, n: Batch, left: set<Batch>, e: Batch, w: Split)
    requires Causal(g) && n in g.nodes && e in left && e !in g.past[n]
    requires Divided(g, n, left - {e}, w)
    ensures Divided(g, n, left, w.(tip := w.tip + [e]))
  {
    ElemsAppend(w.tip, e);
    assert left == left - {e} + {e};
  }

  lemma DividedLinked(g: Graph, n: Batch, left: set<Batch>, e: Batch, w: Split)
    requires Causal(g) && n in g.nodes && e in left && e in g.past[n]
    requires g.past[e] <= left
    requires Divided(g, n, left - {e}, w)
    ensures Divided(g, n, left, w.(linked := w.linked + [e]))
  {
    ElemsAppend(w.linked, e);
    assert left == left - {e} + {e};
    LadderAppend(g, Elems(w.prefix), w.linked, e);
  }

  // With s below the new batch and the tip above it, the order is canonical again.
  ghost predicate Restored(g: Graph, s: seq<Batch>, n: Batch, tip: seq<Batch>, r: set<Batch>) {
    Canonical(g, s + [n] + tip) && Elems(s + [n] + tip) == r
  }

  // Any canonical arrangement s of what goes below the new batch will do.
  lemma {:induction false} WalkRestores(g: Graph, n: Batch, list: seq<Batch>, ks: set<Batch>, clock: ClockMap,
                                           s: seq<Batch>)
    requires Walking(g, n, Elems(list), ks, clock) && Canonical(g, list)
    requires Canonical(g, s)
    requires var w := Walk(list, n, clock); Elems(s) == Elems(w.prefix) + Elems(w.linked) + ks
    ensures Restored(g, s, n, Walk(list, n, clock).tip, Elems(list) + ks + {n})
    decreases |list|
  {
    if list == [] || Cmp(n, list[|list| - 1]) > 0 {
      RestoreStop(g, n, list, ks, clock, s);
    } else {
      var e, left := list[|list| - 1], Elems(list);
      var front, x := DropLast(g, list);
      if Hit(clock, x) {
        WalkingLinked(g, n, left, ks, clock, x);
        RestoreLinked(Walk(front, n, TickAll(clock, x.links)), ks, x, s);
        WalkRestores(g, n, front, ks + {x}, TickAll(clock, x.links), s);
        assert left - {x} + (ks + {x}) == left + ks;
      } else {
        WalkingTip(g, n, left, ks, clock, x);
        WalkRestores(g, n, front, ks, clock, s);
        RestoreTip(g, n, list, ks, clock, s, Walk(front, n, clock).tip);
      }
    }
  }

  lemma RestoreLinked(w: Split, ks: set<Batch>, x: Batch, s: seq<Batch>)
    requires Elems(s) == Elems(w.prefix) + Elems(w.linked + [x]) + ks
    ensures Elems(s) == Elems(w.prefix) + Elems(w.linked) + (ks + {x})
  {
    ElemsAppend(w.linked, x);
  }

  lemma RestoreStop(g: Graph, n: Batch, list: seq<Batch>, ks: set<Batch>, clock: ClockMap, s: seq<Batch>)
    requires Walking(g, n, Elems(list), ks, clock) && Canonical(g, list)
    requires Canonical(g, s) && Elems(s) == Elems(list) + ks
    requires list == [] || Cmp(n, list[|list| - 1]) > 0
    ensures Restored(g, s, n, [], Elems(list) + ks + {n})
  {
    if list != [] {
      var front, x := DropLast(g, list);
      BeforeTotal(n, x);
    }
    StopIsLast(g, n, Elems(list), ks, clock);
    CanonicalAppend(g, s, n);
    ElemsAppend(s, n);
    assert s + [n] + [] == s + [n];
  }

  lemma RestoreTip(g: Graph, n: Batch, list: seq<Batch>, ks: set<Batch>, clock: ClockMap,
                      s: seq<Batch>, tip: seq<Batch>)
    requires list != [] && Canonical(g, list) && Walking(g, n, Elems(list), ks, clock)
    requires var x := list[|list| - 1];
             !Hit(clock, x) && Cmp(n, x) <= 0 &&
             Restored(g, s, n, tip, Elems(list) - {x} + ks + {n})
    ensures Restored(g, s, n, tip + [list[|list| - 1]], Elems(list) + ks + {n})
  {
    var left, e := Elems(list), list[|list| - 1];
    var front, x := DropLast(g, list);
    TipIsLast(g, n, left, ks, clock, x);
    AppendLast(g, s + [n] + tip, x, left + ks + {n});
    assert s + [n] + (tip + [e]) == s + [n] + tip + [x];
  }

  lemma AppendLast(g: Graph, t: seq<Batch>, x: Batch, r: set<Batch>)
    requires r <= g.past.Keys && IsLast(g, r, x)
    requires Canonical(g, t) && x !in t && Elems(t) + {x} == r
    ensures Canonical(g, t + [x]) && Elems(t + [x]) == r
  {
    ElemsAppend(t, x);
    CanonicalAppend(g, t, x);
  }

  // ----- insertion -----

  // Inserting a batch into the canonical order of a set gives the canonical order of the larger
  // set.
  lemma {:induction false} InsertCanonical(g: Graph, list: seq<Batch>, n: Batch)
    requires Sound(g) && n in g.nodes
    requires Canonical(g, list) && PastClosed(g, Elems(list))
    requires n !in Elems(list) && g.past[n] <= Elems(list)
    ensures Canonical(g, Insert(list, n))
    ensures Elems(Insert(list, n)) == Elems(list) + {n}
    decreases |list|, 1
  {
    WalkingStart(g, n, list);
    WalkDivides(g, n, list, {}, StartClock(n));
    var w := Walk(list, n, StartClock(n));
    InsertAllCanonical(g, w.prefix, w.linked);
    var s := InsertAll(w.prefix, w.linked);
    assert Elems(s) == Elems(w.prefix) + Elems(w.linked) + {};
    WalkRestores(g, n, list, {}, StartClock(n), s);
    assert Elems(list) + {} + {n} == Elems(list) + {n};
  }

  lemma WalkingStart(g: Graph, n: Batch, list: seq<Batch>)
    requires Sound(g) && n in g.nodes
    requires Canonical(g, list) && PastClosed(g, Elems(list))
    requires n !in Elems(list) && g.past[n] <= Elems(list)
    ensures Walking(g, n, Elems(list), {}, StartClock(n))
  {
    forall x | x in Elems(list)
      ensures Hit(StartClock(n), x) <==> DependsOn(n, x) || LinkedFrom({}, x)
    {
      HitStart(n, x);
    }
  }

  lemma {:induction false} InsertAllCanonical(g: Graph, list: seq<Batch>, linked: seq<Batch>)
    requires Sound(g)
    requires Canonical(g, list) && PastClosed(g, Elems(list))
    requires Ladder(g, Elems(list), (linked))
    ensures Canonical(g, InsertAll(list, linked))
    ensures Elems(InsertAll(list, linked)) == Elems(list) + Elems(linked)
    ensures PastClosed(g, Elems(InsertAll(list, linked)))
    decreases |list| + |linked|, 0
  {
    if linked != [] {
      var front, e := linked[..|linked| - 1], linked[|linked| - 1];
      assert linked == front + [e];
      ElemsAppend(front, e);
      LadderAppend(g, Elems(list), front, e);
      InsertAllCanonical(g, list, front);
      InsertCanonical(g, InsertAll(list, front), e);
    }
  }
}
