// The reference implementation of the canonical order in reference/order.js.
module Reference {
  import opened Batches
  import opened Graphs
  import opened Universe

  datatype Result<+T> = Ok(value: T) | Err(error: string)

  // ----- dependencies as the reference reads them: every link names one node exactly -----

  predicate Owns(x: Batch, l: Link) {
    x.key == l.key && x.length <= l.length < x.End()
  }

  // the nodes that b names: its predecessor in the chain, its links and its citation
  function References(b: Batch): seq<Link> {
    (if b.length > 1 then [Link(b.key, b.length - 1)] else [])
    + b.links
    + (if b.cited.Some? then [b.cited.value] else [])
  }

  predicate Names(b: Batch, l: Link) {
    l in References(b) && l.length > 0
  }

  // batches are nonempty, and no node is in two batches
  ghost predicate DisjointChains(u: set<Batch>) {
    && (forall x :: x in u ==> x.length >= 1 && x.values != [])
    && (forall x, y :: x in u && y in u && x.key == y.key && x != y ==> x.End() <= y.length || y.End() <= x.length)
  }

  ghost predicate HasOwner(u: set<Batch>, l: Link) {
    exists x :: x in u && Owns(x, l)
  }

  // every node that a member of u names is there
  ghost predicate Complete(u: set<Batch>) {
    forall b, l :: b in u && Names(b, l) ==> HasOwner(u, l)
  }

  ghost predicate NamedBy(b: Batch, x: Batch) {
    exists l :: Names(b, l) && Owns(x, l)
  }

  ghost function ReferenceTable(u: set<Batch>): Deps {
    map b | b in u :: set x | x in u && x != b && NamedBy(b, x)
  }

  // ----- both readings of the links give the same causal past -----

  lemma NamedIsDependency(b: Batch, x: Batch)
    requires NamedBy(b, x) && x != b
    ensures DependsOn(b, x)
  {
    var l :| Names(b, l) && Owns(x, l);
    if l in b.links {
      assert CoveredBy(b.links, x);
    }
  }

  // An earlier batch of the same writer is reached through the chain.
  lemma {:induction false} ChainReach(u: set<Batch>, z: Batch, x: Batch)
    requires DisjointChains(u) && Complete(u)
    requires z in u && x in u && x.key == z.key && x.length < z.length
    ensures x in Reach(ReferenceTable(u), z)
    decreases z.length
  {
    var d := ReferenceTable(u);
    var l := Link(z.key, z.length - 1);
    assert Names(z, l);
    var p :| p in u && Owns(p, l);
    assert p in d[z] by {
      assert NamedBy(z, p);
    }
    ReachClosed(d, z);
    if p != x {
      ChainReach(u, p, x);
      ReachTransitive(d, z, p);
    }
  }

  lemma OwnerIsLater(u: set<Batch>, o: Batch, x: Batch, l: Link)
    requires DisjointChains(u) && o in u && x in u && o != x
    requires Owns(o, l) && Covers(l, x)
    ensures o.key == x.key && x.length < o.length
  {
    assert x.End() <= o.length || o.End() <= x.length;
  }

  lemma DependencyReached(u: set<Batch>, z: Batch, x: Batch)
    requires DisjointChains(u) && Complete(u)
    requires z in u && x in u && DependsOn(z, x)
    ensures x in Reach(ReferenceTable(u), z)
  {
    var d := ReferenceTable(u);
    if Covers(Link(z.key, z.length), x) {
      ChainReach(u, z, x);
    } else {
      DependencyNamed(z, x);
      var l :| l in References(z) && Covers(l, x);
      assert 1 <= x.length <= l.length;
      assert Names(z, l);
      var o :| o in u && Owns(o, l);
      ReachClosed(d, z);
      if o != z {
        assert NamedBy(z, o);
        assert o in d[z];
      }
      if o != x {
        OwnerIsLater(u, o, x, l);
        ChainReach(u, o, x);
        if o != z {
          ReachTransitive(d, z, o);
        }
      }
    }
  }

  lemma DependencyNamed(z: Batch, x: Batch)
    requires DependsOn(z, x) && !Covers(Link(z.key, z.length), x)
    ensures exists l :: l in References(z) && Covers(l, x)
  {
    if CoveredBy(z.links, x) {
      var l :| l in z.links && Covers(l, x);
      assert l in References(z);
    } else {
      assert z.cited.value in References(z);
    }
  }

  lemma SamePast(u: set<Batch>, b: Batch)
    requires DisjointChains(u) && Complete(u) && b in u
    ensures Reach(ReferenceTable(u), b) == Past(u, b)
  {
    var d, e := ReferenceTable(u), DependencyTable(u);
    ReachClosed(e, b);
    forall z, x | z in Past(u, b) + {b} && x in d[z]
      ensures x in Past(u, b)
    {
      NamedIsDependency(z, x);
      assert x in e[z];
    }
    ReachLeast(d, b, Past(u, b));
    ReachClosed(d, b);
    forall z, x | z in Reach(d, b) + {b} && x in e[z]
      ensures x in Reach(d, b)
    {
      DependencyReached(u, z, x);
      if z != b {
        ReachTransitive(d, b, z);
      }
    }
    ReachLeast(e, b, Reach(d, b));
  }

  // ----- building the graph -----

  // past holds the transitive past of some batches, and of all batches in it
  ghost predicate Resolved(deps: Deps, past: map<Batch, set<Batch>>) {
    && WellFormed(deps) && past.Keys <= deps.Keys
    && forall b :: b in past ==> b !in past[b] && past[b] <= past.Keys && past[b] == Reach(deps, b)
  }

  // acc holds the past of id as far as it comes from the dependencies outside todo
  ghost predicate Gathered(deps: Deps, done: set<Batch>, id: Batch, acc: set<Batch>, todo: set<Batch>) {
    && id in deps && todo <= deps[id] && deps[id] - todo <= acc
    && acc <= done && acc <= Reach(deps, id) && Closed(deps, acc)
  }

  lemma GatherOne(deps: Deps, done: set<Batch>, later: set<Batch>, id: Batch, acc: set<Batch>, todo: set<Batch>,
                  dep: Batch, p: set<Batch>)
    requires WellFormed(deps) && Gathered(deps, done, id, acc, todo) && dep in todo
    requires done <= later && dep in later && p <= later
    requires dep in deps && deps[dep] <= p && Closed(deps, p) && p == Reach(deps, dep)
    ensures Gathered(deps, later, id, acc + {dep} + p, todo - {dep})
  {
    var reach := Reach(deps, id);
    ReachClosed(deps, id);
    ReachTransitive(deps, id, dep);
    ClosedUnion(deps, acc, dep, p);
    GatheredSets(deps[id], todo, acc, dep, p, later, reach);
  }

  lemma GatheredSets(d: set<Batch>, todo: set<Batch>, acc: set<Batch>, dep: Batch, p: set<Batch>,
                     later: set<Batch>, reach: set<Batch>)
    requires todo <= d && d - todo <= acc && dep in todo
    requires acc <= later && dep in later && p <= later
    requires acc <= reach && dep in reach && p <= reach
    ensures todo - {dep} <= d && d - (todo - {dep}) <= acc + {dep} + p
    ensures acc + {dep} + p <= later && acc + {dep} + p <= reach
  {
  }

  lemma PastEntry(deps: Deps, past: map<Batch, set<Batch>>, b: Batch)
    requires Resolved(deps, past) && b in past
    ensures past[b] == Reach(deps, b) && past[b] <= past.Keys
    ensures b in deps && deps[b] <= past[b] && Closed(deps, past[b])
  {
    ReachClosed(deps, b);
  }

  lemma ClosedUnion(deps: Deps, acc: set<Batch>, dep: Batch, p: set<Batch>)
    requires Closed(deps, acc) && Closed(deps, p) && dep in deps && deps[dep] <= p
    ensures Closed(deps, acc + {dep} + p)
  {
  }

  lemma GatheredAll(deps: Deps, past: map<Batch, set<Batch>>, id: Batch, acc: set<Batch>)
    requires Resolved(deps, past) && Gathered(deps, past.Keys, id, acc, {}) && id !in past
    ensures Resolved(deps, past[id := acc])
  {
    ReachLeast(deps, id, acc);
  }

  lemma DependencyOfVisiting(deps: Deps, visiting: set<Batch>, id: Batch, dep: Batch)
    requires WellFormed(deps) && visiting <= deps.Keys && id in deps && dep in deps[id]
    requires forall v :: v in visiting ==> id in Reach(deps, v)
    ensures forall v :: v in visiting + {id} ==> dep in Reach(deps, v)
  {
    ReachClosed(deps, id);
    forall v | v in visiting
      ensures dep in Reach(deps, v)
    {
      ReachTransitive(deps, v, id);
    }
  }

  // The memoized, cycle-detecting computation of the transitive past.
  class Resolver {
    const deps: Deps
    var past: map<Batch, set<Batch>>
    var visiting: set<Batch>

    ghost predicate Valid()
      reads this
    {
      Resolved(deps, past) && visiting <= deps.Keys && past.Keys !! visiting
    }

    constructor (deps: Deps)
      requires WellFormed(deps)
      ensures Valid() && this.deps == deps && past == map[] && visiting == {}
    {
      this.deps := deps;
      past := map[];
      visiting := {};
    }

    // Fails only when it runs into a cycle.
    method Resolve(id: Batch) returns (ok: bool)
      requires Valid() && id in deps
      requires forall v :: v in visiting ==> id in Reach(deps, v)
      modifies this
      ensures ok ==> Valid() && visiting == old(visiting) && id in past
      ensures ok ==> old(past).Keys <= past.Keys
      ensures !ok ==> exists b :: b in deps && b in Reach(deps, b)
      decreases deps.Keys - visiting
    {
      if id in past {
        return true;
      }
      if id in visiting {
        return false;
      }
      ghost var outer := visiting;
      visiting := visiting + {id};
      var acc: set<Batch> := {};
      var todo := deps[id];
      while todo != {}
        invariant Valid() && visiting == outer + {id} && old(past).Keys <= past.Keys
        invariant Gathered(deps, past.Keys, id, acc, todo)
        decreases todo
      {
        var dep :| dep in todo;
        DependencyOfVisiting(deps, outer, id, dep);
        ghost var done := past.Keys;
        ok := Resolve(dep);
        if !ok {
          return false;
        }
        PastEntry(deps, past, dep);
        GatherOne(deps, done, past.Keys, id, acc, todo, dep, past[dep]);
        acc := acc + {dep} + past[dep];
        todo := todo - {dep};
      }
      GatheredAll(deps, past, id, acc);
      visiting := visiting - {id};
      past := past[id := acc];
      return true;
    }
  }

  // index finds the batch that owns any node of u
  ghost predicate Indexes(index: map<Link, Batch>, u: set<Batch>) {
    && (forall l :: l in index ==> index[l] in u && Owns(index[l], l))
    && (forall x, l :: x in u && Owns(x, l) ==> l in index)
  }

  method IndexUnit(unit: Batch, before: map<Link, Batch>) returns (index: map<Link, Batch>)
    ensures forall l :: l in index <==> l in before || Owns(unit, l)
    ensures forall l :: l in index ==> index[l] == if Owns(unit, l) then unit else before[l]
  {
    index := before;
    for k := 0 to |unit.values|
      invariant forall l :: l in index <==> l in before || (Owns(unit, l) && l.length < unit.length + k)
      invariant forall l :: l in index ==>
                  index[l] == if Owns(unit, l) && l.length < unit.length + k then unit else before[l]
    {
      index := index[Link(unit.key, unit.length + k) := unit];
    }
  }

  function HeadOf(b: Batch): Link {
    Link(b.key, b.length)
  }

  lemma HeadsDiffer(u: set<Batch>, x: Batch, y: Batch)
    requires DisjointChains(u) && x in u && y in u
    ensures HeadOf(x) == HeadOf(y) <==> x == y
  {
    assert x.key == y.key && x != y ==> x.End() <= y.length || y.End() <= x.length;
  }

  // Maps every node to its batch; fails exactly when a batch repeats.
  method IndexMembers(units: seq<Batch>) returns (r: Result<map<Link, Batch>>)
    requires DisjointChains(Elems(units))
    ensures r.Ok? <==> Distinct(units)
    ensures r.Ok? ==> Indexes(r.value, Elems(units))
  {
    var heads: set<Link> := {};
    var index: map<Link, Batch> := map[];
    for i := 0 to |units|
      invariant Distinct(units[..i])
      invariant forall l :: l in heads <==> exists j :: 0 <= j < i && l == HeadOf(units[j])
      invariant Indexes(index, Elems(units[..i]))
    {
      var unit := units[i];
      forall j | 0 <= j < i
        ensures HeadOf(units[j]) == HeadOf(unit) <==> units[j] == unit
      {
        assert units[j] in Elems(units) && unit in Elems(units);
        HeadsDiffer(Elems(units), units[j], unit);
      }
      if HeadOf(unit) in heads {
        return Err("duplicate unit");
      }
      heads := heads + {HeadOf(unit)};
      index := IndexUnit(unit, index);
      assert units[..i + 1] == units[..i] + [unit];
      ElemsAppend(units[..i], unit);
    }
    assert units[..|units|] == units;
    return Ok(index);
  }

  ghost predicate OwnsOne(links: seq<Link>, x: Batch) {
    exists l :: l in links && l.length > 0 && Owns(x, l)
  }

  // The direct dependencies of one unit; fails exactly when it names a missing node.
  method UnitDeps(u: Batch, index: map<Link, Batch>, ghost all: set<Batch>) returns (r: Result<set<Batch>>)
    requires DisjointChains(all) && u in all && Indexes(index, all)
    ensures r.Ok? <==> forall l :: Names(u, l) ==> HasOwner(all, l)
    ensures r.Ok? ==> r.value == ReferenceTable(all)[u]
  {
    var raw := References(u);
    var d: set<Batch> := {};
    for j := 0 to |raw|
      invariant forall x :: x in d <==> x in all && x != u && OwnsOne(raw[..j], x)
      invariant forall l :: l in raw[..j] && l.length > 0 ==> HasOwner(all, l)
    {
      var l := raw[j];
      assert raw[..j + 1] == raw[..j] + [l];
      if l.length > 0 {
        if l !in index {
          assert Names(u, l);
          return Err("input not causally closed");
        }
        var unit := index[l];
        OwnerUnique(all, unit, l);
        OwnsOneAppend(raw[..j], l);
        if unit != u {
          d := d + {unit};
        }
      } else {
        OwnsOneAppend(raw[..j], l);
      }
    }
    assert raw[..|raw|] == raw;
    NamedIsOwned(u);
    return Ok(d);
  }

  lemma NamedIsOwned(u: Batch)
    ensures forall x :: OwnsOne(References(u), x) <==> NamedBy(u, x)
    ensures forall l :: Names(u, l) <==> l in References(u) && l.length > 0
  {
    forall x ensures OwnsOne(References(u), x) <==> NamedBy(u, x) {
    }
  }

  lemma OwnsOneAppend(links: seq<Link>, l: Link)
    ensures forall x :: OwnsOne(links + [l], x) <==> OwnsOne(links, x) || (l.length > 0 && Owns(x, l))
  {
    forall x ensures OwnsOne(links + [l], x) <==> OwnsOne(links, x) || (l.length > 0 && Owns(x, l)) {
      if OwnsOne(links, x) {
        var k :| k in links && k.length > 0 && Owns(x, k);
        assert k in links + [l];
      }
      if l.length > 0 && Owns(x, l) {
        assert l in links + [l];
      }
    }
  }

  lemma OwnerUnique(all: set<Batch>, x: Batch, l: Link)
    requires DisjointChains(all) && x in all && Owns(x, l)
    ensures forall y :: y in all && Owns(y, l) ==> y == x
  {
    forall y | y in all && Owns(y, l)
      ensures y == x
    {
      assert y != x ==> x.End() <= y.length || y.End() <= x.length;
    }
  }

  // The transitive past of every unit; fails exactly when the units repeat, name a missing node
  // or depend on each other in a cycle.
  method BuildGraph(units: seq<Batch>) returns (r: Result<Graph>)
    requires DisjointChains(Elems(units))
    ensures var u := Elems(units);
            r.Ok? <==> Distinct(units) && Complete(u) && Acyclic(u)
    ensures r.Ok? ==> r.value == CausalGraph(Elems(units))
  {
    ghost var u := Elems(units);
    var indexed := IndexMembers(units);
    if indexed.Err? {
      return Err(indexed.error);
    }
    var deps: Deps := map[];
    for i := 0 to |units|
      invariant deps.Keys == Elems(units[..i])
      invariant forall b :: b in deps ==>
                  deps[b] == ReferenceTable(u)[b] && forall l :: Names(b, l) ==> HasOwner(u, l)
    {
      assert units[i] in u;
      var d := UnitDeps(units[i], indexed.value, u);
      if d.Err? {
        return Err(d.error);
      }
      deps := deps[units[i] := d.value];
      assert units[..i + 1] == units[..i] + [units[i]];
      ElemsAppend(units[..i], units[i]);
    }
    assert units[..|units|] == units;
    assert deps == ReferenceTable(u);
    r := ResolveAll(units, deps);
  }

  method ResolveAll(units: seq<Batch>, deps: Deps) returns (r: Result<Graph>)
    requires DisjointChains(Elems(units)) && Complete(Elems(units)) && deps == ReferenceTable(Elems(units))
    ensures r.Ok? <==> Acyclic(Elems(units))
    ensures r.Ok? ==> r.value == CausalGraph(Elems(units))
  {
    ghost var u := Elems(units);
    var resolver := new Resolver(deps);
    for i := 0 to |units|
      invariant resolver.Valid() && resolver.visiting == {} && resolver.deps == deps
      invariant forall j :: 0 <= j < i ==> units[j] in resolver.past
    {
      assert units[i] in u;
      var ok := resolver.Resolve(units[i]);
      if !ok {
        CycleFound(u);
        return Err("causal cycle");
      }
    }
    PastsFound(u, resolver.past);
    return Ok(Graph(resolver.past.Keys, resolver.past));
  }

  lemma CycleFound(u: set<Batch>)
    requires DisjointChains(u) && Complete(u)
    requires exists b :: b in u && b in Reach(ReferenceTable(u), b)
    ensures !Acyclic(u)
  {
    var b :| b in u && b in Reach(ReferenceTable(u), b);
    SamePast(u, b);
  }

  lemma DisjointAreDistinct(u: set<Batch>)
    requires DisjointChains(u)
    ensures DistinctHeads(u)
  {
    forall a, b | a in u && b in u && a.key == b.key && a.length == b.length
      ensures a == b
    {
      HeadsDiffer(u, a, b);
    }
  }

  lemma PastsFound(u: set<Batch>, past: map<Batch, set<Batch>>)
    requires DisjointChains(u) && Complete(u)
    requires Resolved(ReferenceTable(u), past) && u <= past.Keys
    ensures Acyclic(u) && Graph(u, past) == CausalGraph(u)
  {
    assert past.Keys == u;
    forall b | b in u
      ensures past[b] == Past(u, b) && b !in Past(u, b)
    {
      SamePast(u, b);
    }
    DisjointAreDistinct(u);
  }
}
