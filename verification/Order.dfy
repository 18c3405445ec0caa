// The recursive construction in reference/order.js.
module Order {
  import opened Batches
  import opened Graphs
  import opened Universe
  import opened Strata
  import opened Reference

  // The comparison within one weight class: timestamp, then key, then length.
  function CmpNodes(a: Batch, b: Batch): int {
    if a.timestamp != b.timestamp then (if a.timestamp < b.timestamp then -1 else 1)
    else if a.key != b.key then (if a.key < b.key then -1 else 1)
    else if a.length != b.length then (if a.length < b.length then -1 else 1)
    else 0
  }

  // Within a class it is the engine's comparison.
  lemma CmpNodesIsCmp(a: Batch, b: Batch)
    requires a.weight == b.weight && (a.key != b.key || a.length != b.length)
    ensures CmpNodes(a, b) > 0 <==> Before(b, a)
    ensures CmpNodes(a, b) < 0 <==> Before(a, b)
  {
  }

  ghost predicate OneClass(s: set<Batch>) {
    forall x, y :: x in s && y in s ==> x.weight == y.weight
  }

  method CausallyMaximal(g: Graph, remaining: set<Batch>, id: Batch) returns (maximal: bool)
    requires Causal(g) && remaining <= g.nodes && id in remaining
    ensures maximal <==> IsMaximal(g, remaining, id)
  {
    var todo := remaining;
    while todo != {}
      invariant todo <= remaining
      invariant forall y :: y in remaining - todo ==> id !in g.past[y]
      decreases todo
    {
      var other :| other in todo;
      todo := todo - {other};
      if other != id && id in g.past[other] {
        return false;
      }
    }
    return true;
  }

  // best is the greatest of the maximal members of r outside todo
  ghost predicate BestSoFar(g: Graph, r: set<Batch>, todo: set<Batch>, best: Option<Batch>)
    requires r <= g.past.Keys
  {
    match best
    case None => forall x :: x in r - todo ==> !IsMaximal(g, r, x)
    case Some(b) =>
      && IsMaximal(g, r, b)
      && forall x :: x in r - todo && IsMaximal(g, r, x) && x != b ==> Before(x, b)
  }

  method SelectLast(g: Graph, remaining: set<Batch>) returns (best: Batch)
    requires Causal(g) && remaining <= g.nodes && remaining != {} && OneClass(remaining)
    ensures IsLast(g, remaining, best)
  {
    var found: Option<Batch> := None;
    var todo := remaining;
    while todo != {}
      invariant todo <= remaining
      invariant BestSoFar(g, remaining, todo, found)
      decreases todo
    {
      var id :| id in todo;
      todo := todo - {id};
      var maximal := CausallyMaximal(g, remaining, id);
      if maximal {
        if found == None || CmpNodes(id, found.value) > 0 {
          Improve(g, remaining, todo, found, id);
          found := Some(id);
        } else if id != found.value {
          CmpNodesIsCmp(id, found.value);
          BeforeTotal(id, found.value);
        }
      }
    }
    ghost var m := LastExists(g, remaining);
    best := found.value;
  }

  lemma Improve(g: Graph, r: set<Batch>, todo: set<Batch>, found: Option<Batch>, id: Batch)
    requires Causal(g) && r <= g.nodes && OneClass(r) && id in r && IsMaximal(g, r, id)
    requires BestSoFar(g, r, todo + {id}, found)
    requires found == None || CmpNodes(id, found.value) > 0
    ensures BestSoFar(g, r, todo, Some(id))
  {
    forall x | x in r - todo && IsMaximal(g, r, x) && x != id
      ensures Before(x, id)
    {
      assert x in r - (todo + {id});
      assert found.Some?;
      CmpNodesIsCmp(id, found.value);
      if x != found.value {
        BeforeTransitive(x, found.value, id);
      }
    }
  }

  // The within-class sequence, built from its end.
  method AntiKahnOf(g: Graph, ids: set<Batch>) returns (result: seq<Batch>)
    requires Causal(g) && ids <= g.nodes && OneClass(ids)
    ensures result == AntiKahn(g, ids)
  {
    result := [];
    var remaining := ids;
    while remaining != {}
      invariant remaining <= ids
      invariant AntiKahn(g, ids) == AntiKahn(g, remaining) + result
      decreases remaining
    {
      var best := SelectLast(g, remaining);
      AntiKahnStep(g, remaining, best);
      result := [best] + result;
      remaining := remaining - {best};
    }
  }

  method MaxWeight(live: set<Batch>) returns (weight: int)
    requires live != {}
    ensures forall x :: x in live ==> x.weight <= weight
    ensures TopClass(live, weight) != {}
  {
    var x :| x in live;
    weight := x.weight;
    var todo := live - {x};
    ghost var top := x;
    while todo != {}
      invariant todo <= live && top in live && top.weight == weight
      invariant forall y :: y in live - todo ==> y.weight <= weight
      decreases todo
    {
      var id :| id in todo;
      todo := todo - {id};
      if id.weight > weight {
        weight, top := id.weight, id;
      }
    }
    assert top in TopClass(live, weight);
  }

  class Builder {
    const g: Graph
    var emitted: set<Batch>

    constructor (g: Graph)
      ensures this.g == g && emitted == {}
    {
      this.g := g;
      emitted := {};
    }

    // The part of the past of h that is live and not emitted yet. Both internal errors of the
    // reference are unreachable: h itself has not been emitted, and all of its past that is left
    // is lighter than h.
    method ClosureIds(live: set<Batch>, h: Batch, weight: int, ghost hs: seq<Batch>, ghost i: nat)
      returns (ids: set<Batch>)
      requires Heads(g, live, weight, hs) && i < |hs| && h == hs[i]
      requires emitted * live == Claimed(g, live, hs[..i])
      ensures ids == Closure(g, live, hs, i)
      ensures h in live && h !in emitted
    {
      ClosureFacts(g, live, weight, hs, i);
      assert h in Elems(hs);
      assert h !in emitted;
      ids := {};
      var todo := g.past[h];
      while todo != {}
        invariant todo <= g.past[h]
        invariant ids == (g.past[h] - todo) * live - emitted
        decreases todo
      {
        var id :| id in todo;
        todo := todo - {id};
        if id in live && id !in emitted {
          assert id in Closure(g, live, hs, i);
          assert id.weight < weight;
          ids := ids + {id};
        }
      }
    }

    method Build(subset: set<Batch>) returns (t: Tree)
      requires Causal(g) && subset <= g.nodes
      modifies this
      ensures emitted == old(emitted) + subset
      ensures Explains(g, subset - old(emitted), t)
      decreases subset - emitted, 2
    {
      var live := subset - emitted;
      assert emitted + live == emitted + subset;
      if live == {} {
        return Null;
      }
      t := BuildSegment(live);
    }

    method BuildSegment(live: set<Batch>) returns (t: Tree)
      requires Causal(g) && live <= g.nodes && live != {} && live !! emitted
      modifies this
      ensures emitted == old(emitted) + live
      ensures Explains(g, live, t)
      decreases live, 1
    {
      var weight, hs := HeaviestClass(live);
      var entries := BuildEntries(live, weight, hs);
      var rest := live - emitted;
      ghost var claimed := Claimed(g, live, hs);
      assert rest == live - claimed;
      assert old(emitted) + claimed + rest == old(emitted) + live;
      var tail := Null;
      if rest != {} {
        assert hs[0] in Elems(hs);
        assert hs[0] in Claimed(g, live, hs);
        assert rest - emitted == rest;
        tail := Build(rest);
      }
      SegmentExplains(g, live, weight, hs, entries, tail);
      t := Segment(weight, entries, tail);
    }

    method HeaviestClass(live: set<Batch>) returns (weight: int, hs: seq<Batch>)
      requires Causal(g) && live <= g.nodes && live != {}
      ensures Heads(g, live, weight, hs) && hs != []
    {
      weight := MaxWeight(live);
      var top := set x | x in live && x.weight == weight;
      assert top == TopClass(live, weight);
      hs := AntiKahnOf(g, top);
      AntiKahnElems(g, top);
    }

    // One entry for every member of the heaviest class.
    method BuildEntries(live: set<Batch>, weight: int, hs: seq<Batch>) returns (entries: seq<Claim>)
      requires Heads(g, live, weight, hs) && live !! emitted
      modifies this
      ensures |entries| == |hs| && EntriesExplain(g, live, hs, entries)
      ensures emitted == old(emitted) + Claimed(g, live, hs)
      decreases live, 0
    {
      ghost var before := emitted;
      entries := [];
      for i := 0 to |hs|
        invariant |entries| == i && EntriesExplain(g, live, hs, entries)
        invariant emitted == before + Claimed(g, live, hs[..i])
      {
        var ids := ClosureIds(live, hs[i], weight, hs, i);
        ClosureFacts(g, live, weight, hs, i);
        assert ids - emitted == ids;
        var closure := Build(ids);
        EntriesAppend(g, live, hs, entries, Claim(hs[i], closure));
        entries := entries + [Claim(hs[i], closure)];
        emitted := emitted + {hs[i]};
      }
      assert hs[..|hs|] == hs;
    }
  }

  // ----- the nodes in order -----

  // the nodes of a sequence of units, every unit contiguous
  function Spread(members: Batch -> seq<Node>, s: seq<Batch>): seq<Node> {
    SpreadUpTo(members, s, |s|)
  }

  function SpreadUpTo(members: Batch -> seq<Node>, s: seq<Batch>, k: nat): seq<Node>
    requires k <= |s|
  {
    if k == 0 then [] else SpreadUpTo(members, s, k - 1) + members(s[k - 1])
  }

  lemma {:induction false} SpreadPrefix(m: Batch -> seq<Node>, n: Batch -> seq<Node>, s: seq<Batch>, t: seq<Batch>, k: nat)
    requires k <= |s| && k <= |t| && forall i :: 0 <= i < k ==> s[i] == t[i] && m(s[i]) == n(s[i])
    ensures SpreadUpTo(m, s, k) == SpreadUpTo(n, t, k)
  {
    if k > 0 {
      SpreadPrefix(m, n, s, t, k - 1);
    }
  }

  lemma SpreadAppend(members: Batch -> seq<Node>, s: seq<Batch>, b: Batch)
    ensures Spread(members, s + [b]) == Spread(members, s) + members(b)
  {
    SpreadPrefix(members, members, s + [b], s, |s|);
  }

  lemma {:induction false} SpreadConcat(members: Batch -> seq<Node>, s: seq<Batch>, t: seq<Batch>)
    ensures Spread(members, s + t) == Spread(members, s) + Spread(members, t)
    decreases |t|
  {
    if t == [] {
      assert s + t == s;
    } else {
      var front, b := t[..|t| - 1], t[|t| - 1];
      assert t == front + [b] && s + t == (s + front) + [b];
      SpreadConcat(members, s, front);
      SpreadAppend(members, s + front, b);
      SpreadAppend(members, front, b);
      Associative(Spread(members, s), Spread(members, front), members(b));
    }
  }

  // The members of the units of a segment tree, appended to what is out already.
  method FlattenInto(t: Tree, members: Batch -> seq<Node>, before: seq<Node>) returns (out: seq<Node>)
    ensures out == before + Spread(members, Flatten(t))
    decreases t
  {
    if t.Null? {
      return before;
    }
    out := FlattenEntriesInto(t.entries, members, before);
    out := FlattenInto(t.tail, members, out);
    SpreadConcat(members, FlattenEntries(t.entries), Flatten(t.tail));
  }

  method FlattenEntriesInto(entries: seq<Claim>, members: Batch -> seq<Node>, before: seq<Node>)
    returns (out: seq<Node>)
    ensures out == before + Spread(members, FlattenEntries(entries))
    decreases entries
  {
    out := before;
    for i := 0 to |entries|
      invariant out == before + Spread(members, FlattenEntries(entries[..i]))
    {
      out := FlattenClaimInto(entries[i], members, out);
      EntriesNext(entries, members, before, i);
    }
    assert entries[..|entries|] == entries;
  }

  lemma EntriesNext(entries: seq<Claim>, members: Batch -> seq<Node>, before: seq<Node>, i: nat)
    requires i < |entries|
    ensures before + Spread(members, FlattenEntries(entries[..i + 1])) ==
            before + Spread(members, FlattenEntries(entries[..i])) + Spread(members, FlattenClaim(entries[i]))
  {
    assert entries[..i + 1][..i] == entries[..i];
    SpreadConcat(members, FlattenEntries(entries[..i]), FlattenClaim(entries[i]));
  }

  // first the closure, then the members of the acknowledger
  method FlattenClaimInto(e: Claim, members: Batch -> seq<Node>, before: seq<Node>) returns (out: seq<Node>)
    ensures out == before + Spread(members, FlattenClaim(e))
    decreases e
  {
    out := FlattenInto(e.closure, members, before);
    out := out + members(e.node);
    SpreadAppend(members, Flatten(e.closure), e.node);
  }

  method Explain(g: Graph) returns (t: Tree)
    requires Causal(g)
    ensures Explains(g, g.nodes, t) && Flatten(t) == AntiKahn(g, g.nodes)
  {
    var builder := new Builder(g);
    t := builder.Build(g.nodes);
    assert g.nodes - {} == g.nodes;
    ExplainsFlattens(g, g.nodes, t);
  }

  // The canonical order of a set of units, as the reference computes it.
  method CanonicalOrder(units: seq<Batch>, members: Batch -> seq<Node>) returns (r: Result<seq<Node>>)
    requires DisjointChains(Elems(units))
    ensures var u := Elems(units);
            r.Ok? <==> Distinct(units) && Complete(u) && Acyclic(u)
    ensures r.Ok? ==> var g := CausalGraph(Elems(units));
                      Causal(g) && r.value == Spread(members, AntiKahn(g, Elems(units)))
  {
    var built := BuildGraph(units);
    if built.Err? {
      return Err(built.error);
    }
    CausalGraphIsCausal(Elems(units));
    var tree := Explain(built.value);
    var out := FlattenInto(tree, members, []);
    return Ok(out);
  }
}
