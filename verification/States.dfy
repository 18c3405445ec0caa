// What the applied state of lib/system.js is, said of the log as a whole and not step by step.
module States {
  import opened Batches
  import opened Order
  import opened System

  // ----- the rolling hash -----

  // the hash over the first k nodes: each takes in the one before it
  ghost function Rolled<V>(p: Params<V>, nodes: seq<Node>, k: nat): Option<nat>
    requires k <= |nodes|
  {
    if k == 0 then None
    else
      var last := nodes[k - 1];
      Some(p.advance(Rolled(p, nodes, k - 1), last.key, last.length, last.weight))
  }

  lemma {:induction false} RolledPrefix<V>(p: Params<V>, a: seq<Node>, b: seq<Node>, k: nat)
    requires k <= |a|
    ensures Rolled(p, a + b, k) == Rolled(p, a, k)
  {
    if k > 0 {
      RolledPrefix(p, a, b, k - 1);
    }
  }

  lemma RolledStep<V>(p: Params<V>, nodes: seq<Node>, k: nat)
    requires k < |nodes|
    ensures Rolled(p, nodes, k + 1) == Some(p.advance(Rolled(p, nodes, k), nodes[k].key, nodes[k].length, nodes[k].weight))
  {
  }

  lemma MemberAt(nodes: seq<Node>, b: Batch, i: nat)
    requires i < |b.values|
    ensures |nodes + Members(b)| == |nodes| + |b.values| && (nodes + Members(b))[|nodes| + i] == Member(b, i)
  {
  }

  // the hash once the first i members of a batch have been taken in
  ghost function TakenIn<V>(p: Params<V>, hash: Option<nat>, b: Batch, i: nat): Option<nat> {
    if i == 0 then hash else Some(p.advance(TakenIn(p, hash, b, i - 1), b.key, b.length + i - 1, b.weight))
  }

  lemma {:induction false} HashOfMembers<V>(p: Params<V>, s: Info<V>, b: Batch, i: nat)
    requires i <= |b.values|
    ensures AddMembers(p, s, b, i).hash == TakenIn(p, s.hash, b, i)
  {
    if i > 0 {
      HashOfMembers(p, s, b, i - 1);
      assert AddMembers(p, s, b, i) == AddNode(p, AddMembers(p, s, b, i - 1), Member(b, i - 1));
    }
  }

  lemma RolledMember<V>(p: Params<V>, nodes: seq<Node>, b: Batch, i: nat, all: seq<Node>)
    requires i < |b.values| && all == nodes + Members(b)
    ensures |nodes| + i < |all|
    ensures Rolled(p, all, |nodes| + i + 1) == Some(p.advance(Rolled(p, all, |nodes| + i), b.key, b.length + i, b.weight))
  {
    MemberAt(nodes, b, i);
    RolledStep(p, all, |nodes| + i);
  }

  lemma HashOfBatch<V>(p: Params<V>, front: seq<Batch>, b: Batch)
    ensures InfoOf(p, front + [b]).hash == TakenIn(p, InfoOf(p, front).hash, b, |b.values|)
  {
    assert (front + [b])[..|front|] == front;
    HashOfMembers(p, InfoOf(p, front), b, |b.values|);
  }

  lemma {:induction false} TakenInRolls<V>(p: Params<V>, nodes: seq<Node>, b: Batch, i: nat, all: seq<Node>)
    requires i <= |b.values| && all == nodes + Members(b)
    ensures |nodes| + i <= |all| && TakenIn(p, Rolled(p, nodes, |nodes|), b, i) == Rolled(p, all, |nodes| + i)
  {
    if i == 0 {
      RolledPrefix(p, nodes, Members(b), |nodes|);
    } else {
      TakenInRolls(p, nodes, b, i - 1, all);
      RolledMember(p, nodes, b, i - 1, all);
    }
  }

  lemma HashRollsOn<V>(p: Params<V>, front: seq<Batch>, b: Batch, before: seq<Node>, after: seq<Node>)
    requires before == Spread(Members, front) && after == Spread(Members, front + [b])
    requires InfoOf(p, front).hash == Rolled(p, before, |before|)
    ensures InfoOf(p, front + [b]).hash == Rolled(p, after, |after|)
  {
    SpreadAppend(Members, front, b);
    HashOfBatch(p, front, b);
    TakenInRolls(p, before, b, |b.values|, after);
  }

  // The hash after a log rolls over all nodes of its batches, in the order they were applied.
  lemma {:induction false} HashIsRolled<V>(p: Params<V>, log: seq<Batch>, nodes: seq<Node>)
    requires nodes == Spread(Members, log)
    ensures InfoOf(p, log).hash == Rolled(p, nodes, |nodes|)
  {
    if log != [] {
      var front, b := log[..|log| - 1], log[|log| - 1];
      assert log == front + [b];
      HashIsRolled(p, front, Spread(Members, front));
      HashRollsOn(p, front, b, Spread(Members, front), nodes);
    }
  }

  // No two inputs have the same hash.
  ghost predicate CollisionFree<V>(p: Params<V>) {
    forall h, j, k, l, m, n, v, w ::
      p.advance(h, k, m, v) == p.advance(j, l, n, w) ==> h == j && k == l && m == n && v == w
  }

  // Without collisions equal hashes mean the same nodes with the same weights in the same order.
  lemma {:induction false} HashTellsOrder<V>(p: Params<V>, a: seq<Node>, i: nat, b: seq<Node>, j: nat)
    requires CollisionFree(p) && i <= |a| && j <= |b|
    requires Rolled(p, a, i) == Rolled(p, b, j)
    ensures i == j
    ensures forall k :: 0 <= k < i ==> a[k].key == b[k].key && a[k].length == b[k].length && a[k].weight == b[k].weight
  {
    if i > 0 && j > 0 {
      assert p.advance(Rolled(p, a, i - 1), a[i - 1].key, a[i - 1].length, a[i - 1].weight) ==
             p.advance(Rolled(p, b, j - 1), b[j - 1].key, b[j - 1].length, b[j - 1].weight);
      HashTellsOrder(p, a, i - 1, b, j - 1);
    }
  }

  // ----- the view, the time and the count -----

  // the view after the first k batches
  ghost function ViewAfter<V>(p: Params<V>, log: seq<Batch>, k: nat): V
    requires k <= |log|
  {
    if k == 0 then p.blank else p.apply(ViewAfter(p, log, k - 1), log[k - 1])
  }

  lemma {:induction false} ViewPrefix<V>(p: Params<V>, a: seq<Batch>, b: seq<Batch>, k: nat)
    requires k <= |a|
    ensures ViewAfter(p, a + b, k) == ViewAfter(p, a, k)
  {
    if k > 0 {
      ViewPrefix(p, a, b, k - 1);
    }
  }

  lemma {:induction false} AddMembersKeeps<V>(p: Params<V>, s: Info<V>, b: Batch, i: nat)
    requires i <= |b.values|
    ensures AddMembers(p, s, b, i).view == s.view && AddMembers(p, s, b, i).flushes == s.flushes
  {
    if i > 0 {
      AddMembersKeeps(p, s, b, i - 1);
    }
  }

  // The view is the batches applied one after another to a blank one, and every batch is one flush.
  lemma {:induction false} ViewIsFold<V>(p: Params<V>, log: seq<Batch>)
    ensures InfoOf(p, log).view == ViewAfter(p, log, |log|)
    ensures InfoOf(p, log).flushes == |log|
  {
    if log != [] {
      var front, b := log[..|log| - 1], log[|log| - 1];
      assert log == front + [b];
      ViewIsFold(p, front);
      ViewPrefix(p, front, [b], |front|);
      AddMembersKeeps(p, InfoOf(p, front), b, |b.values|);
    }
  }

  lemma {:induction false} AddMembersTimestamp<V>(p: Params<V>, s: Info<V>, b: Batch, i: nat)
    requires i <= |b.values|
    ensures AddMembers(p, s, b, i).timestamp == if i > 0 && b.timestamp > s.timestamp then b.timestamp else s.timestamp
  {
    if i > 0 {
      AddMembersTimestamp(p, s, b, i - 1);
    }
  }

  // The timestamp is the latest in the log, or zero if there is none later.
  lemma {:induction false} TimestampIsLatest<V>(p: Params<V>, log: seq<Batch>)
    requires forall x :: x in log ==> x.values != []
    ensures var t := InfoOf(p, log).timestamp;
            && 0 <= t && (forall x :: x in log ==> x.timestamp <= t)
            && (t == 0 || exists x :: x in log && x.timestamp == t)
  {
    if log != [] {
      var front, b := log[..|log| - 1], log[|log| - 1];
      assert log == front + [b];
      TimestampIsLatest(p, front);
      AddMembersTimestamp(p, InfoOf(p, front), b, |b.values|);
      var t := InfoOf(p, log).timestamp;
      if t != 0 {
        if t == b.timestamp {
          assert b in log;
        } else {
          var x :| x in front && x.timestamp == t;
          assert x in log;
        }
      }
    }
  }
}
