// Which batches a peer may ingest: the next of its writer, once everything it links is there.
module Gate {
  import opened Batches
  import opened Universe
  import opened Reference
  import opened Settle

  // a node of the writer at that length or later has been applied
  ghost predicate HasNode(s: set<Batch>, l: Link) {
    exists x :: x in s && x.key == l.key && l.length < x.End()
  }

  ghost predicate NextInChain(s: set<Batch>, b: Batch) {
    && (forall x :: x in s && x.key == b.key ==> x.End() <= b.length)
    && (b.length == 1 || exists x :: x in s && x.key == b.key && x.End() == b.length)
  }

  // the links of a batch and the approval it cites
  function Required(b: Batch): seq<Link> {
    b.links + (if b.cited.Some? then [b.cited.value] else [])
  }

  // a link into the batch's own past needs no waiting
  ghost predicate Satisfied(s: set<Batch>, b: Batch, l: Link) {
    (l.key == b.key && l.length < b.length) || HasNode(s, l)
  }

  ghost predicate Linked(s: set<Batch>, b: Batch) {
    forall l :: l in Required(b) ==> Satisfied(s, b, l)
  }

  ghost predicate Ingestible(s: set<Batch>, b: Batch) {
    b.length >= 1 && b.values != [] && NextInChain(s, b) && Linked(s, b)
  }

  // what every set of applied batches satisfies
  ghost predicate World(s: set<Batch>) {
    DisjointChains(s) && Complete(s) && Acyclic(s)
  }

  // All earlier nodes of a writer are there.
  lemma {:induction false} ChainComplete(s: set<Batch>, x: Batch, k: nat)
    requires DisjointChains(s) && Complete(s) && x in s && 1 <= k < x.End()
    ensures HasOwner(s, Link(x.key, k))
    decreases x.length
  {
    if k >= x.length {
      assert Owns(x, Link(x.key, k));
    } else {
      var l := Link(x.key, x.length - 1);
      assert Names(x, l);
      var p :| p in s && Owns(p, l);
      assert p != x;
      assert p.End() <= x.length || x.End() <= p.length;
      ChainComplete(s, p, k);
    }
  }

  lemma IngestibleIsFresh(s: set<Batch>, n: Batch)
    requires World(s) && Ingestible(s, n)
    ensures Fresh(s, n)
  {
    forall b | b in s
      ensures !DependsOn(b, n)
    {
      forall l | Names(b, l)
        ensures !Covers(l, n)
      {
        var o :| o in s && Owns(o, l);
        assert o.key == n.key ==> o.End() <= n.length;
      }
      DependencyHasName(b, n);
    }
    assert n in s ==> n.End() <= n.length;
  }

  // A dependency outside b's own chain is reached by a node that b names.
  lemma DependencyHasName(b: Batch, x: Batch)
    requires x.length >= 1 && !Covers(Link(b.key, b.length), x)
    ensures DependsOn(b, x) ==> exists l :: Names(b, l) && Covers(l, x)
  {
    if DependsOn(b, x) {
      DependencyNamed(b, x);
      var l :| l in References(b) && Covers(l, x);
      assert Names(b, l);
    }
  }

  lemma NamedOwned(s: set<Batch>, n: Batch, l: Link)
    requires World(s) && Ingestible(s, n) && Names(n, l)
    ensures HasOwner(s + {n}, l)
  {
    if l in Required(n) && !(l.key == n.key && l.length < n.length) {
      var x :| x in s && x.key == l.key && l.length < x.End();
      ChainComplete(s, x, l.length);
      var o :| o in s && Owns(o, l);
      assert o in s + {n};
    } else {
      var x :| x in s && x.key == n.key && x.End() == n.length;
      ChainComplete(s, x, l.length);
      var o :| o in s && Owns(o, l);
      assert o in s + {n};
    }
  }

  lemma IngestKeepsDisjoint(s: set<Batch>, n: Batch)
    requires DisjointChains(s) && Ingestible(s, n)
    ensures DisjointChains(s + {n})
  {
    forall x, y | x in s + {n} && y in s + {n} && x.key == y.key && x != y
      ensures x.End() <= y.length || y.End() <= x.length
    {
      if x == n {
        assert y.End() <= n.length;
      } else if y == n {
        assert x.End() <= n.length;
      }
    }
  }

  lemma IngestKeepsComplete(s: set<Batch>, n: Batch)
    requires World(s) && Ingestible(s, n)
    ensures Complete(s + {n})
  {
    forall b, l | b in s + {n} && Names(b, l)
      ensures HasOwner(s + {n}, l)
    {
      if b == n {
        NamedOwned(s, n, l);
      } else {
        var o :| o in s && Owns(o, l);
        assert o in s + {n};
      }
    }
  }

  // The gate, said of the nodes: everything b links or cites has been applied, and b is the next of
  // its writer. That a link into its own past need not be looked up changes nothing.
  lemma GateExact(s: set<Batch>, b: Batch)
    requires World(s) && b.length >= 1 && b.values != []
    requires forall l :: l in b.links || b.cited == Some(l) ==> l.length >= 1
    ensures Ingestible(s, b) <==>
              && (forall x :: x in s && x.key == b.key ==> x.End() <= b.length)
              && (b.length > 1 ==> exists x :: x in s && x.key == b.key && x.End() == b.length)
              && (forall l :: l in b.links || b.cited == Some(l) ==> exists x :: x in s && Owns(x, l))
  {
    if Ingestible(s, b) {
      forall l | l in b.links || b.cited == Some(l)
        ensures exists x :: x in s && Owns(x, l)
      {
        RequiredOwned(s, b, l);
      }
    }
    if forall l :: l in b.links || b.cited == Some(l) ==> exists x :: x in s && Owns(x, l) {
      forall l | l in Required(b)
        ensures HasNode(s, l)
      {
        assert l in b.links || b.cited == Some(l);
        var x :| x in s && Owns(x, l);
      }
    }
  }

  lemma RequiredOwned(s: set<Batch>, b: Batch, l: Link)
    requires World(s) && Ingestible(s, b) && l.length >= 1 && (l in b.links || b.cited == Some(l))
    ensures HasOwner(s, l)
  {
    assert l in Required(b);
    var x: Batch;
    if l.key == b.key && l.length < b.length {
      x :| x in s && x.key == b.key && x.End() == b.length;
    } else {
      x :| x in s && x.key == l.key && l.length < x.End();
    }
    ChainComplete(s, x, l.length);
  }

  // Ingesting keeps the applied set well formed.
  lemma IngestKeepsWorld(s: set<Batch>, n: Batch)
    requires World(s) && Ingestible(s, n)
    ensures Fresh(s, n) && World(s + {n})
  {
    IngestibleIsFresh(s, n);
    FreshPast(s, n);
    IngestKeepsDisjoint(s, n);
    IngestKeepsComplete(s, n);
  }
}
