// Why the walk needs citations to be covered: it ticks the citation of the batch it inserts, but
// not those of the batches it pops.
module Citations {
  import opened Batches
  import opened Graphs
  import opened Universe
  import opened Topo
  import opened Strata
  import opened Settle
  import opened Stability
  import opened Gate
  import opened Reference

  // Everything the clock hits in s lies in k.
  ghost predicate ClockWithin(s: set<Batch>, k: set<Batch>, clock: ClockMap) {
    forall x :: x in s && Hit(clock, x) ==> x in k
  }

  // A walk over batches that all sort after the new one leaves everything the clock cannot reach
  // on the tip.
  lemma {:induction false} OutsideStaysOnTip(list: seq<Batch>, n: Batch, clock: ClockMap, k: set<Batch>, x: Batch)
    requires forall y :: y in list ==> Before(n, y)
    requires ClockWithin(Elems(list), k, clock)
    requires forall y, z :: y in k && z in list && Links(y, z) ==> z in k
    requires x in list && x !in k
    ensures x in Walk(list, n, clock).tip
    decreases |list|
  {
    var front, e := list[..|list| - 1], list[|list| - 1];
    assert list == front + [e];
    if Hit(clock, e) {
      assert e in Elems(list);
      forall z | z in Elems(front) && Hit(TickAll(clock, e.links), z)
        ensures z in k
      {
        HitTickAll(clock, e.links, z);
        assert z in list;
      }
      OutsideStaysOnTip(front, n, TickAll(clock, e.links), k, x);
    } else {
      if x in front {
        OutsideStaysOnTip(front, n, clock, k, x);
      }
      var w := Walk(front, n, clock);
      assert Before(n, e);
      assert Walk(list, n, clock).tip == w.tip + [e];
    }
  }

  // a key that nobody has used, and a time before everything
  lemma FreshKey(s: set<Batch>) returns (key: Key, before: int)
    ensures forall b :: b in s ==> b.key < key && before < b.timestamp
  {
    if s == {} {
      key, before := 0, 0;
    } else {
      var b :| b in s;
      key, before := FreshKey(s - {b});
      key := if b.key < key then key else b.key + 1;
      before := if before < b.timestamp then before else b.timestamp - 1;
    }
  }

  lemma Heaviest(s: set<Batch>, b: Batch) returns (h: Batch)
    requires b in s
    ensures h in s && forall y :: y in s ==> y.weight <= h.weight
  {
    if x :| x in s && b.weight < x.weight {
      h := Heaviest(s - {b}, x);
    } else {
      h := b;
    }
  }

  // The first batch of a new writer with a slow clock, no heavier than what is there, that
  // acknowledges b and nothing else.
  lemma Acknowledger(s: set<Batch>, b: Batch) returns (n: Batch)
    requires World(s) && b in s
    ensures Ingestible(s, n) && n.links == [HeadOf(b)] && n.cited == None && Within(s, n)
    ensures forall y :: y in s ==> Before(n, y) && y.key != n.key
  {
    var key, before := FreshKey(s);
    var h := Heaviest(s, b);
    n := Batch(key, 1, [""], before, h.weight, [HeadOf(b)], None, None, []);
    assert HasNode(s, HeadOf(b));
  }

  // n is no heavier than some batch of s
  ghost predicate Within(s: set<Batch>, n: Batch) {
    exists y :: y in s && n.weight <= y.weight
  }

  lemma AcknowledgerClock(s: set<Batch>, b: Batch, n: Batch, k: set<Batch>)
    requires b in s && n.links == [HeadOf(b)] && n.cited == None
    requires forall y :: y in s ==> y.key != n.key
    requires DistinctHeads(s) && b in k && forall z :: z in s && Links(b, z) ==> z in k
    ensures ClockWithin(s, k, StartClock(n))
  {
    forall x | x in s && Hit(StartClock(n), x)
      ensures x in k
    {
      HitStart(n, x);
      assert Covers(HeadOf(b), x);
    }
  }

  // An ancestor that only a citation reaches ends up after the batch that acknowledges it.
  lemma UncoveredMisplaced(s: set<Batch>, b: Batch, x: Batch) returns (n: Batch)
    requires World(s) && b in s && x in s && DependsOn(b, x)
    requires x !in Reach(LinkTable(s), b)
    ensures Ingestible(s, n) && Within(s, n) && Acyclic(s + {n})
    ensures Insert(CanonicalOf(s), n) != CanonicalOf(s + {n})
  {
    n := Acknowledger(s, b);
    IngestKeepsWorld(s, n);
    UncoveredOnTip(s, b, n, x);
    TipFollows(CanonicalOf(s), n, x);
    PastOfAcknowledger(s, b, n, x);
    CanonicalKeepsCauses(s + {n}, Insert(CanonicalOf(s), n), n, x);
  }

  lemma UncoveredOnTip(s: set<Batch>, b: Batch, n: Batch, x: Batch)
    requires Acyclic(s) && b in s && x in s && x != b && x !in Reach(LinkTable(s), b)
    requires n.links == [HeadOf(b)] && n.cited == None
    requires forall y :: y in s ==> Before(n, y) && y.key != n.key
    ensures x in Walk(CanonicalOf(s), n, StartClock(n)).tip
  {
    var list := CanonicalOf(s);
    CanonicalArrivals(s);
    var k := LinkClosure(s, b);
    AcknowledgerClock(s, b, n, k);
    assert x in Elems(list);
    assert forall z :: z in list <==> z in Elems(list);
    OutsideStaysOnTip(list, n, StartClock(n), k, x);
  }

  lemma LinkClosure(s: set<Batch>, b: Batch) returns (k: set<Batch>)
    requires b in s
    ensures k == Reach(LinkTable(s), b) + {b}
    ensures forall y, z :: y in k && z in s && Links(y, z) ==> z in k
  {
    var l := LinkTable(s);
    ReachClosed(l, b);
    k := Reach(l, b) + {b};
    forall y, z | y in k && z in s && Links(y, z)
      ensures z in k
    {
      assert z in l[y];
    }
  }

  lemma TipFollows(list: seq<Batch>, n: Batch, x: Batch)
    requires x in Walk(list, n, StartClock(n)).tip
    ensures exists i, j :: 0 <= i < j < |Insert(list, n)| && Insert(list, n)[i] == n && Insert(list, n)[j] == x
  {
    var w := Walk(list, n, StartClock(n));
    var below := InsertAll(w.prefix, w.linked);
    var k :| 0 <= k < |w.tip| && w.tip[k] == x;
    assert Insert(list, n) == below + [n] + w.tip;
    assert Insert(list, n)[|below|] == n && Insert(list, n)[|below| + 1 + k] == x;
  }

  lemma PastOfAcknowledger(s: set<Batch>, b: Batch, n: Batch, x: Batch)
    requires Acyclic(s) && Fresh(s, n) && b in s && x in s && DependsOn(b, x)
    requires n.links == [HeadOf(b)]
    ensures x in Past(s + {n}, n)
  {
    var d := DependencyTable(s + {n});
    assert HeadOf(b) in n.links && Covers(HeadOf(b), b);
    ReachClosed(d, n);
    assert b in d[n];
    assert x in d[b];
  }

  lemma CanonicalKeepsCauses(u: set<Batch>, s: seq<Batch>, n: Batch, x: Batch)
    requires Acyclic(u) && n in u && x in Past(u, n)
    requires exists i, j :: 0 <= i < j < |s| && s[i] == n && s[j] == x
    ensures s != CanonicalOf(u)
  {
    var i, j :| 0 <= i < j < |s| && s[i] == n && s[j] == x;
    CausalGraphIsCausal(u);
    AntiKahnElems(CausalGraph(u), u);
    if s == CanonicalOf(u) {
      CanonicalTopological(CausalGraph(u), s, i, j);
    }
  }

  // n lands where the canonical order wants it
  ghost predicate LandsCanonical(s: set<Batch>, n: Batch)
    requires Acyclic(s)
  {
    Acyclic(s + {n}) && Insert(CanonicalOf(s), n) == CanonicalOf(s + {n})
  }

  // every batch a peer may ingest next does
  ghost predicate NextAlwaysCanonical(s: set<Batch>)
    requires Acyclic(s)
  {
    forall n :: Ingestible(s, n) ==> LandsCanonical(s, n)
  }

  // every batch does that is no heavier than what has been applied
  ghost predicate NextWithinCanonical(s: set<Batch>)
    requires Acyclic(s)
  {
    forall n :: Ingestible(s, n) && Within(s, n) ==> LandsCanonical(s, n)
  }

  // The walk is exact for every next batch if and only if all citations are covered, and batches
  // within the weights that are there already decide it.
  lemma CanonicalIffCovered(s: set<Batch>)
    requires World(s)
    ensures NextAlwaysCanonical(s) <==> CitationsCovered(s)
    ensures NextWithinCanonical(s) <==> CitationsCovered(s)
  {
    if CitationsCovered(s) {
      forall n | Ingestible(s, n)
        ensures LandsCanonical(s, n)
      {
        IngestibleIsFresh(s, n);
        InsertSettles(s, n);
      }
    } else {
      var b :| b in s && !CitationCovered(s, b);
      var x :| x in s && DependsOn(b, x) && x !in Reach(LinkTable(s), b);
      var n := UncoveredMisplaced(s, b, x);
      assert !LandsCanonical(s, n);
    }
  }
}
