// The stratified definition of the canonical order in reference/order.js, and the proof that it
// is the flat anti-Kahn order of the whole set.
module Strata {
  import opened Batches
  import opened Graphs

  // The segment tree: the heaviest class in order, each member with the closure it claims, and
  // the unclaimed rest.
  datatype Tree = Null | Segment(weight: int, entries: seq<Claim>, tail: Tree)

  datatype Claim = Claim(node: Batch, closure: Tree)

  function Flatten(t: Tree): seq<Batch> {
    match t
    case Null => []
    case Segment(_, entries, tail) => FlattenEntries(entries) + Flatten(tail)
  }

  function FlattenEntries(entries: seq<Claim>): seq<Batch> {
    if entries == [] then []
    else
      var i := |entries| - 1;
      FlattenEntries(entries[..i]) + FlattenClaim(entries[i])
  }

  // the closure, then its acknowledger
  function FlattenClaim(e: Claim): seq<Batch> {
    Flatten(e.closure) + [e.node]
  }

  ghost function TopClass(r: set<Batch>, weight: int): set<Batch> {
    set x | x in r && x.weight == weight
  }

  // the members of r that the acknowledgers hs have claimed, themselves included
  ghost function Claimed(g: Graph, r: set<Batch>, hs: seq<Batch>): set<Batch>
    requires Elems(hs) <= g.past.Keys
  {
    set x | x in r && (x in hs || exists h :: h in hs && x in g.past[h])
  }

  // the past of hs[i] that no earlier acknowledger has claimed
  ghost function Closure(g: Graph, r: set<Batch>, hs: seq<Batch>, i: nat): set<Batch>
    requires i < |hs| && Elems(hs) <= g.past.Keys
  {
    r * g.past[hs[i]] - Claimed(g, r, hs[..i])
  }

  // t is the segment tree of r
  ghost predicate Explains(g: Graph, r: set<Batch>, t: Tree)
    requires Causal(g) && r <= g.nodes
    decreases t
  {
    match t
    case Null => r == {}
    case Segment(w, entries, tail) =>
      && (forall x :: x in r ==> x.weight <= w)
      && TopClass(r, w) != {}
      && var hs := AntiKahn(g, TopClass(r, w));
      && Elems(hs) <= r
      && |entries| == |hs| && EntriesExplain(g, r, hs, entries)
      && Explains(g, r - Claimed(g, r, hs), tail)
  }

  // the first entries, for the first acknowledgers in hs
  ghost predicate EntriesExplain(g: Graph, r: set<Batch>, hs: seq<Batch>, entries: seq<Claim>)
    requires Causal(g) && r <= g.nodes && Elems(hs) <= r && |entries| <= |hs|
    decreases entries
  {
    forall i :: 0 <= i < |entries| ==> ClaimExplains(g, Closure(g, r, hs, i), hs[i], entries[i])
  }

  ghost predicate ClaimExplains(g: Graph, closure: set<Batch>, h: Batch, e: Claim)
    requires Causal(g) && closure <= g.nodes
    decreases e
  {
    e.node == h && Explains(g, closure, e.closure)
  }

  // ----- canonical prefixes -----

  lemma {:induction false} CanonicalPrefix(g: Graph, s: seq<Batch>, i: nat)
    requires Canonical(g, s) && i <= |s|
    ensures Canonical(g, s[..i])
    ensures i < |s| ==> Elems(s[..i + 1]) <= g.nodes && IsLast(g, Elems(s[..i + 1]), s[i]) && s[i] !in s[..i]
    decreases |s|
  {
    if i == |s| {
      assert s[..i] == s;
    } else {
      var front, m := CanonicalSplit(g, s);
      if i == |s| - 1 {
        assert s[..i + 1] == s;
        assert m !in Elems(front);
      } else {
        CanonicalPrefix(g, front, i);
        assert front[..i] == s[..i] && front[..i + 1] == s[..i + 1];
      }
    }
  }

  // Nothing in a canonical sequence precedes its own past.
  lemma CanonicalTopological(g: Graph, s: seq<Batch>, i: nat, j: nat)
    requires Canonical(g, s) && i < j < |s|
    ensures s[i] in g.nodes && s[j] !in g.past[s[i]] && s[i] != s[j]
  {
    CanonicalPrefix(g, s, j);
    assert s[..j + 1][i] in Elems(s[..j + 1]);
    assert s[..j][i] == s[i];
  }

  // ----- the theorem -----

  // A part t that nothing in c depends on, and that every maximal member of c sorts before, is
  // extracted entirely before c.
  lemma {:induction false} SplitTail(g: Graph, c: set<Batch>, t: set<Batch>)
    requires Causal(g) && c + t <= g.nodes && c !! t
    requires forall x, y :: x in c && y in t ==> y !in g.past[x]
    requires forall x, y :: IsMaximal(g, c, x) && y in t ==> Before(x, y)
    ensures AntiKahn(g, c + t) == AntiKahn(g, c) + AntiKahn(g, t)
    decreases t
  {
    if t == {} {
      assert c + t == c;
    } else {
      var m := LastExists(g, t);
      LastOfBoth(g, c, t, m);
      SplitTail(g, c, t - {m});
      AntiKahnStep(g, t, m);
      AntiKahnStep(g, c + t, m);
      assert c + t - {m} == c + (t - {m});
    }
  }

  lemma LastOfBoth(g: Graph, c: set<Batch>, t: set<Batch>, m: Batch)
    requires Causal(g) && c + t <= g.nodes
    requires forall x, y :: x in c && y in t ==> y !in g.past[x]
    requires forall x, y :: IsMaximal(g, c, x) && y in t ==> Before(x, y)
    requires IsLast(g, t, m)
    ensures IsLast(g, c + t, m)
  {
    forall x | IsMaximal(g, c + t, x) && x != m
      ensures Before(x, m)
    {
      if x in t {
        assert IsMaximal(g, t, x);
      } else {
        assert IsMaximal(g, c, x);
      }
    }
  }

  // hs is the heaviest class of r in order
  ghost predicate Heads(g: Graph, r: set<Batch>, w: int, hs: seq<Batch>) {
    && Causal(g) && r <= g.nodes
    && Canonical(g, hs) && Elems(hs) == TopClass(r, w)
    && forall x :: x in r ==> x.weight <= w
  }

  // The members of the claimed part that nothing claimed depends on are acknowledgers.
  lemma ClaimedMaximal(g: Graph, r: set<Batch>, hs: seq<Batch>, x: Batch)
    requires Causal(g) && r <= g.nodes && Elems(hs) <= r
    requires IsMaximal(g, Claimed(g, r, hs), x)
    ensures x in hs
  {
    forall h | h in hs
      ensures x !in g.past[h]
    {
      assert h in Elems(hs);
      assert h in Claimed(g, r, hs);
    }
  }

  lemma ClaimedPastClosed(g: Graph, r: set<Batch>, hs: seq<Batch>, x: Batch, y: Batch)
    requires Causal(g) && r <= g.nodes && Elems(hs) <= r
    requires x in Claimed(g, r, hs) && y in r && y in g.past[x]
    ensures y in Claimed(g, r, hs)
  {
    if x !in hs {
      var h :| h in hs && x in g.past[h];
    }
  }

  // No later acknowledger is claimed by an earlier one, and closures are strictly lighter.
  lemma ClosureFacts(g: Graph, r: set<Batch>, w: int, hs: seq<Batch>, i: nat)
    requires Heads(g, r, w, hs) && i < |hs|
    ensures hs[i] !in Claimed(g, r, hs[..i])
    ensures forall x :: x in Closure(g, r, hs, i) ==> x.weight < w
    ensures Claimed(g, r, hs[..i + 1]) == Claimed(g, r, hs[..i]) + Closure(g, r, hs, i) + {hs[i]}
  {
    var below := hs[..i];
    assert hs[..i + 1] == below + [hs[i]];
    CanonicalPrefix(g, hs, i);
    assert hs[i] in Elems(hs);
    forall h | h in below
      ensures hs[i] !in g.past[h]
    {
      var j :| 0 <= j < i && hs[j] == h;
      CanonicalTopological(g, hs, j, i);
    }
    forall x | x in r * g.past[hs[i]] && x.weight == w
      ensures x in below
    {
      assert x in Elems(hs);
      var j :| 0 <= j < |hs| && hs[j] == x;
      if j > i {
        CanonicalTopological(g, hs, i, j);
      }
    }
  }

  lemma HeadIsLast(g: Graph, r: set<Batch>, w: int, hs: seq<Batch>, i: nat)
    requires Heads(g, r, w, hs) && i < |hs|
    ensures IsLast(g, Claimed(g, r, hs[..i + 1]), hs[i])
  {
    var h, upto := hs[i], hs[..i + 1];
    var c := Claimed(g, r, upto);
    CanonicalPrefix(g, hs, i);
    assert upto[i] == h;
    forall y | y in c
      ensures h !in g.past[y]
    {
      if y !in upto {
        var k :| k in upto && y in g.past[k];
        assert k in Elems(upto);
      } else {
        assert y in Elems(upto);
      }
    }
    assert h in Elems(hs);
    assert Elems(upto) <= Elems(hs);
    forall x | IsMaximal(g, c, x) && x != h
      ensures Before(x, h)
    {
      ClaimedMaximal(g, r, upto, x);
      forall y | y in Elems(upto)
        ensures x !in g.past[y]
      {
        assert y in c;
      }
      assert IsMaximal(g, Elems(upto), x);
    }
  }

  // The closure of the next acknowledger comes after everything claimed before it.
  lemma ClosureSplits(g: Graph, r: set<Batch>, w: int, hs: seq<Batch>, i: nat)
    requires Heads(g, r, w, hs) && i < |hs|
    ensures var c, k := Claimed(g, r, hs[..i]), Closure(g, r, hs, i);
            AntiKahn(g, c + k) == AntiKahn(g, c) + AntiKahn(g, k)
  {
    var c, k := Claimed(g, r, hs[..i]), Closure(g, r, hs, i);
    ClosureFacts(g, r, w, hs, i);
    assert Elems(hs[..i]) <= Elems(hs);
    forall x, y | x in c && y in k
      ensures y !in g.past[x]
    {
      if y in g.past[x] {
        ClaimedPastClosed(g, r, hs[..i], x, y);
      }
    }
    forall x, y | IsMaximal(g, c, x) && y in k
      ensures Before(x, y)
    {
      ClaimedMaximal(g, r, hs[..i], x);
      assert x in Elems(hs);
    }
    SplitTail(g, c, k);
  }

  // Claiming the closure of the next acknowledger and then the acknowledger itself.
  lemma ClaimNext(g: Graph, r: set<Batch>, w: int, hs: seq<Batch>, i: nat)
    requires Heads(g, r, w, hs) && i < |hs|
    ensures AntiKahn(g, Claimed(g, r, hs[..i + 1])) ==
            AntiKahn(g, Claimed(g, r, hs[..i])) + (AntiKahn(g, Closure(g, r, hs, i)) + [hs[i]])
  {
    var c, k, h := Claimed(g, r, hs[..i]), Closure(g, r, hs, i), hs[i];
    var next := Claimed(g, r, hs[..i + 1]);
    ClosureFacts(g, r, w, hs, i);
    assert next - {h} == c + k by {
      assert h in Elems(hs);
      assert h !in g.past[h];
    }
    HeadIsLast(g, r, w, hs, i);
    AntiKahnStep(g, next, h);
    ClosureSplits(g, r, w, hs, i);
    Associative(AntiKahn(g, c), AntiKahn(g, k), [h]);
  }

  // The unclaimed rest follows the whole top class.
  lemma TailLast(g: Graph, r: set<Batch>, w: int, hs: seq<Batch>)
    requires Heads(g, r, w, hs)
    ensures AntiKahn(g, r) == AntiKahn(g, Claimed(g, r, hs)) + AntiKahn(g, r - Claimed(g, r, hs))
  {
    var c := Claimed(g, r, hs);
    var t := r - c;
    forall x, y | x in c && y in t
      ensures y !in g.past[x]
    {
      if y in g.past[x] {
        ClaimedPastClosed(g, r, hs, x, y);
      }
    }
    forall x, y | IsMaximal(g, c, x) && y in t
      ensures Before(x, y)
    {
      ClaimedMaximal(g, r, hs, x);
      assert x in Elems(hs);
      assert y !in Elems(hs);
    }
    SplitTail(g, c, t);
    assert c + t == r;
  }

  // The stratified definition and the flat order agree.
  lemma {:induction false} ExplainsFlattens(g: Graph, r: set<Batch>, t: Tree)
    requires Causal(g) && r <= g.nodes
    requires Explains(g, r, t)
    ensures Flatten(t) == AntiKahn(g, r)
    decreases t
  {
    match t
    case Null =>
    case Segment(w, entries, tail) =>
      var hs := TopSequence(g, r, t);
      EntriesFlatten(g, r, w, hs, entries);
      assert hs[..|entries|] == hs;
      TailLast(g, r, w, hs);
      ExplainsFlattens(g, r - Claimed(g, r, hs), tail);
  }

  lemma TopSequence(g: Graph, r: set<Batch>, t: Tree) returns (hs: seq<Batch>)
    requires Causal(g) && r <= g.nodes && Explains(g, r, t) && t.Segment?
    ensures hs == AntiKahn(g, TopClass(r, t.weight)) && Heads(g, r, t.weight, hs)
    ensures |t.entries| == |hs| && EntriesExplain(g, r, hs, t.entries)
    ensures Explains(g, r - Claimed(g, r, hs), t.tail)
  {
    hs := AntiKahn(g, TopClass(r, t.weight));
    AntiKahnElems(g, TopClass(r, t.weight));
  }

  lemma SegmentExplains(g: Graph, r: set<Batch>, w: int, hs: seq<Batch>, entries: seq<Claim>, tail: Tree)
    requires Heads(g, r, w, hs) && hs != [] && |entries| == |hs|
    requires EntriesExplain(g, r, hs, entries) && Explains(g, r - Claimed(g, r, hs), tail)
    ensures Explains(g, r, Segment(w, entries, tail))
  {
    assert hs[0] in Elems(hs);
  }

  lemma EntriesAppend(g: Graph, r: set<Batch>, hs: seq<Batch>, entries: seq<Claim>, e: Claim)
    requires Causal(g) && r <= g.nodes && Elems(hs) <= r && |entries| < |hs|
    requires EntriesExplain(g, r, hs, entries)
    requires ClaimExplains(g, Closure(g, r, hs, |entries|), hs[|entries|], e)
    ensures EntriesExplain(g, r, hs, entries + [e])
  {
    forall i | 0 <= i <= |entries|
      ensures ClaimExplains(g, Closure(g, r, hs, i), hs[i], (entries + [e])[i])
    {
      EntryKept(g, r, hs, entries, e, i);
    }
  }

  lemma EntryKept(g: Graph, r: set<Batch>, hs: seq<Batch>, entries: seq<Claim>, e: Claim, i: nat)
    requires Causal(g) && r <= g.nodes && Elems(hs) <= r && i <= |entries| < |hs|
    requires i < |entries| ==> ClaimExplains(g, Closure(g, r, hs, i), hs[i], entries[i])
    requires i == |entries| ==> ClaimExplains(g, Closure(g, r, hs, i), hs[i], e)
    ensures ClaimExplains(g, Closure(g, r, hs, i), hs[i], (entries + [e])[i])
  {
    assert (entries + [e])[i] == if i < |entries| then entries[i] else e;
  }

  lemma EntriesFront(g: Graph, r: set<Batch>, hs: seq<Batch>, entries: seq<Claim>)
    requires Causal(g) && r <= g.nodes && Elems(hs) <= r && 0 < |entries| <= |hs|
    requires EntriesExplain(g, r, hs, entries)
    ensures EntriesExplain(g, r, hs, entries[..|entries| - 1])
    ensures var i := |entries| - 1; ClaimExplains(g, Closure(g, r, hs, i), hs[i], entries[i])
  {
    forall k | 0 <= k < |entries|
      ensures ClaimExplains(g, Closure(g, r, hs, k), hs[k], entries[k])
    {
    }
  }

  lemma {:induction false} EntriesFlatten(g: Graph, r: set<Batch>, w: int, hs: seq<Batch>, entries: seq<Claim>)
    requires Heads(g, r, w, hs) && |entries| <= |hs|
    requires EntriesExplain(g, r, hs, entries)
    ensures FlattenEntries(entries) == AntiKahn(g, Claimed(g, r, hs[..|entries|]))
    decreases entries
  {
    if entries == [] {
      assert Claimed(g, r, hs[..0]) == {};
    } else {
      var i := |entries| - 1;
      EntriesFront(g, r, hs, entries);
      EntriesFlatten(g, r, w, hs, entries[..i]);
      ClaimFlattens(g, Closure(g, r, hs, i), hs[i], entries[i]);
      ClaimNext(g, r, w, hs, i);
    }
  }

  lemma {:induction false} ClaimFlattens(g: Graph, closure: set<Batch>, h: Batch, e: Claim)
    requires Causal(g) && closure <= g.nodes
    requires ClaimExplains(g, closure, h, e)
    ensures FlattenClaim(e) == AntiKahn(g, closure) + [h]
    decreases e
  {
    ExplainsFlattens(g, closure, e.closure);
  }

  // ----- where things end up -----

  lemma {:induction false} ClaimedPrefix(g: Graph, r: set<Batch>, w: int, hs: seq<Batch>, i: nat)
    requires Heads(g, r, w, hs) && i <= |hs|
    ensures AntiKahn(g, Claimed(g, r, hs[..i])) <= AntiKahn(g, r)
    decreases |hs| - i
  {
    if i == |hs| {
      assert hs[..i] == hs;
      TailLast(g, r, w, hs);
    } else {
      ClaimNext(g, r, w, hs, i);
      ClaimedPrefix(g, r, w, hs, i + 1);
    }
  }

  // The first acknowledger claims: its closure stands right before it, after everything claimed
  // earlier, and whatever nobody claims stands after the whole top class.
  lemma Placement(g: Graph, r: set<Batch>, w: int, hs: seq<Batch>, i: nat)
    requires Heads(g, r, w, hs) && i < |hs|
    ensures AntiKahn(g, Claimed(g, r, hs[..i])) + (AntiKahn(g, Closure(g, r, hs, i)) + [hs[i]]) <= AntiKahn(g, r)
    ensures AntiKahn(g, r) == AntiKahn(g, Claimed(g, r, hs)) + AntiKahn(g, r - Claimed(g, r, hs))
  {
    ClaimNext(g, r, w, hs, i);
    ClaimedPrefix(g, r, w, hs, i + 1);
    TailLast(g, r, w, hs);
  }

  // The order emits every unit exactly once, after all of its past.
  lemma EmitsOnceCausally(g: Graph, r: set<Batch>, t: Tree)
    requires Causal(g) && r <= g.nodes && Explains(g, r, t)
    ensures Elems(Flatten(t)) == r && |Flatten(t)| == |r|
    ensures forall i, j :: 0 <= i < j < |Flatten(t)| ==>
              Flatten(t)[i] != Flatten(t)[j] && Flatten(t)[j] !in g.past[Flatten(t)[i]]
  {
    var s := Flatten(t);
    ExplainsFlattens(g, r, t);
    AntiKahnElems(g, r);
    assert forall x :: x in s ==> x in Elems(s);
    forall i, j | 0 <= i < j < |s|
      ensures s[i] != s[j] && s[j] !in g.past[s[i]]
    {
      CanonicalTopological(g, s, i, j);
    }
  }
}
