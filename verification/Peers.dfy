// Peers that exchange batches: every run settles, and peers with the same batches agree.
module Peers {
  import opened Batches
  import opened Graphs
  import opened Universe
  import opened Reference
  import opened Topo
  import opened Settle
  import opened Gate
  import opened System
  import opened Autobee

  // ----- the batches that exist -----

  // A well-formed part of a well-formed set holds the dependencies of its members.
  lemma WorldDownClosed(w: set<Batch>, s: set<Batch>)
    requires DisjointChains(w) && s <= w && World(s)
    ensures DownClosed(w, s)
  {
    forall b, x | b in s && x in w && DependsOn(b, x)
      ensures x in s
    {
      DependencyInside(w, s, b, x);
    }
  }

  lemma DependencyInside(w: set<Batch>, s: set<Batch>, b: Batch, x: Batch)
    requires DisjointChains(w) && s <= w && World(s)
    requires b in s && x in w && DependsOn(b, x)
    ensures x in s
  {
    var o := b;
    if !Covers(HeadOf(b), x) {
      DependencyHasName(b, x);
      var l :| Names(b, l) && Covers(l, x);
      o :| o in s && Owns(o, l);
      if o != x {
        OwnerIsLater(w, o, x, l);
      }
    }
    if o != x {
      ChainComplete(s, o, x.length);
      var y :| y in s && Owns(y, Link(o.key, x.length));
      OwnerUnique(w, x, Link(o.key, x.length));
    }
  }

  // A citation that is covered among all batches is covered among those a peer has.
  lemma CoveredAtPeer(w: set<Batch>, s: set<Batch>, n: Batch)
    requires World(w) && n in w && CitationCovered(w, n)
    requires s <= w && World(s) && Ingestible(s, n)
    ensures CitationCovered(s + {n}, n)
  {
    IngestKeepsWorld(s, n);
    WorldDownClosed(w, s + {n});
    CoveredWithin(w, s + {n}, n);
  }

  lemma CoveredWithin(w: set<Batch>, u: set<Batch>, n: Batch)
    requires DownClosed(w, u) && n in u && CitationCovered(w, n)
    ensures CitationCovered(u, n)
  {
    var d, e := LinkTable(u), LinkTable(w);
    forall x | x in u ensures d[x] == e[x] {
    }
    ReachRestrict(d, e, n);
  }

  // ----- runs -----

  // The log of a peer that is offered batches in this order: each is inserted if the gate lets
  // it in, and passed over if not.
  ghost function LogAfter(offers: seq<Batch>): seq<Batch> {
    if offers == [] then []
    else
      var log, n := LogAfter(offers[..|offers| - 1]), offers[|offers| - 1];
      if Ingestible(Elems(log), n) then Insert(log, n) else log
  }

  ghost function Accepted(offers: seq<Batch>): set<Batch> {
    Elems(LogAfter(offers))
  }

  // all offers come from the batches that exist
  ghost predicate OffersFrom(w: set<Batch>, offers: seq<Batch>) {
    && World(w) && CitationsCovered(w)
    && forall b :: b in offers ==> b in w
  }

  // Every run leaves the canonical order of what it accepted.
  lemma {:induction false} RunSettles(w: set<Batch>, offers: seq<Batch>)
    requires OffersFrom(w, offers)
    ensures CanonicalLog(LogAfter(offers)) && Accepted(offers) <= w
    decreases |offers|
  {
    if offers == [] {
      EmptyLog();
    } else {
      var front, n := offers[..|offers| - 1], offers[|offers| - 1];
      RunSettles(w, front);
      if Ingestible(Accepted(front), n) {
        IngestSettles(w, LogAfter(front), n);
      }
    }
  }

  lemma IngestSettles(w: set<Batch>, log: seq<Batch>, n: Batch)
    requires World(w) && CitationsCovered(w) && CanonicalLog(log) && Elems(log) <= w
    requires n in w && Ingestible(Elems(log), n)
    ensures CanonicalLog(Insert(log, n)) && Elems(Insert(log, n)) == Elems(log) + {n}
  {
    CoveredAtPeer(w, Elems(log), n);
    InsertedLog(log, n);
  }

  // Runs that accept the same batches end in the same state, in whatever order they came.
  lemma RunsConverge<V>(p: Params<V>, w: set<Batch>, a: seq<Batch>, b: seq<Batch>)
    requires OffersFrom(w, a) && OffersFrom(w, b) && Accepted(a) == Accepted(b)
    ensures LogAfter(a) == LogAfter(b)
    ensures Snapshot(p, LogAfter(a)) == Snapshot(p, LogAfter(b))
  {
    RunSettles(w, a);
    RunSettles(w, b);
  }

  lemma NextOffer(w: set<Batch>, offers: seq<Batch>, i: nat)
    requires OffersFrom(w, offers) && i < |offers|
    ensures var log, n := LogAfter(offers[..i]), offers[i];
            && LogAfter(offers[..i + 1]) == (if Ingestible(Elems(log), n) then Insert(log, n) else log)
            && (Ingestible(Elems(log), n) ==> CitationCovered(Elems(log) + {n}, n))
  {
    assert offers[..i + 1][..i] == offers[..i];
    forall b | b in offers[..i] ensures b in w {
    }
    RunSettles(w, offers[..i]);
    if Ingestible(Accepted(offers[..i]), offers[i]) {
      CoveredAtPeer(w, Accepted(offers[..i]), offers[i]);
    }
  }

  // A fresh peer that is offered any batches in any order, blocked ones included.
  method Run<V>(p: Params<V>, offers: seq<Batch>, ghost w: set<Batch>) returns (peer: Autobee<V>)
    requires OffersFrom(w, offers)
    ensures peer.Valid() && peer.system.p == p
    ensures peer.Log() == LogAfter(offers)
  {
    peer := new Autobee(p);
    for i := 0 to |offers|
      invariant fresh(peer) && fresh(peer.system)
      invariant peer.Valid() && peer.system.p == p && peer.Log() == LogAfter(offers[..i])
    {
      NextOffer(w, offers, i);
      if offers[i].values != [] {
        var ingested := peer.Ingest(offers[i]);
      }
    }
    assert offers[..|offers|] == offers;
  }

  // The state of a peer is a function of the set it applied.
  lemma PeersConverge<V>(a: Autobee<V>, b: Autobee<V>)
    requires a.Valid() && b.Valid() && a.system.p == b.system.p
    requires a.Applied() == b.Applied()
    ensures a.Log() == b.Log() && a.system.bee == b.system.bee
    ensures a.system.heads == b.system.heads && a.system.hash == b.system.hash
    ensures a.system.timestamp == b.system.timestamp && a.system.flushes == b.system.flushes
    ensures a.view == b.view
  {
    assert a.Log() == CanonicalOf(a.Applied()) == b.Log();
    assert a.system.Current() == b.system.Current();
  }

  // ----- appending -----

  // everything that b reaches without its citation
  ghost function Acknowledged(w: set<Batch>, b: Batch): set<Batch> {
    Reach(LinkTable(w + {b}), b)
  }

  // everything in s is reached from b through links and chains alone
  ghost predicate AcknowledgesThrough(s: set<Batch>, b: Batch) {
    s <= Acknowledged(s, b)
  }

  lemma CoveredPast(u: set<Batch>, y: Batch)
    requires CitationsCovered(u) && y in u
    ensures Past(u, y) <= Reach(LinkTable(u), y)
  {
    var d, l := DependencyTable(u), LinkTable(u);
    ReachClosed(l, y);
    forall z, x | z in Reach(l, y) + {y} && x in d[z]
      ensures x in Reach(l, y)
    {
      assert CitationCovered(u, z);
      if z != y {
        ReachTransitive(l, y, z);
      }
    }
    ReachLeast(d, y, Reach(l, y));
  }

  // A batch whose head links every head of a peer acknowledges everything the peer applied.
  lemma LinkingHeadsAcknowledges<V>(p: Params<V>, log: seq<Batch>, b: Batch)
    requires CanonicalLog(log) && Fresh(Elems(log), b) && b.values != []
    requires IsLinkingAll(Member(b, 0), InfoOf(p, log).heads)
    ensures AcknowledgesThrough(Elems(log), b)
  {
    var s := Elems(log);
    CanonicalLogFacts(log);
    HeadsAreFrontier(p, log);
    CausalGraphIsCausal(s);
    forall x | x in s
      ensures x in Reach(LinkTable(s + {b}), b)
    {
      var m := MaximalAbove(CausalGraph(s), s, x);
      MaximalIsHead(log, m);
      assert m.Tail() in InfoOf(p, log).heads;
      CoveredPast(s, m);
      AcknowledgedThroughHead(s, b, m, x);
    }
  }

  lemma AcknowledgedThroughHead(s: set<Batch>, b: Batch, m: Batch, x: Batch)
    requires Fresh(s, b) && b.values != [] && m in s && m.values != []
    requires IsLinking(Member(b, 0), m.Tail())
    requires x == m || x in Reach(LinkTable(s), m)
    ensures x in Reach(LinkTable(s + {b}), b)
  {
    var d, e := LinkTable(s), LinkTable(s + {b});
    forall y | y in s ensures d[y] == e[y] {
    }
    LinkedTailLinks(b, m);
    ReachClosed(e, b);
    assert m in e[b];
    ReachRestrict(d, e, m);
    ReachTransitive(e, b, m);
  }

  // So appending keeps citations covered: the cited approval was read from a system whose heads
  // the batch links.
  lemma AppendKeepsCovered(w: set<Batch>, s: set<Batch>, b: Batch)
    requires World(w) && CitationsCovered(w) && Ingestible(w, b)
    requires s <= w && AcknowledgesThrough(s, b)
    requires b.cited != None ==> HasNode(s, b.cited.value)
    ensures World(w + {b}) && CitationsCovered(w + {b})
  {
    IngestKeepsWorld(w, b);
    var u := w + {b};
    forall y | y in w ensures CitationCovered(u, y) {
      CoveredSame(w, b, y);
    }
    LinkReachGrows(s, w, b);
    ReachedCovers(w, b);
  }

  lemma ReachedCovers(w: set<Batch>, b: Batch)
    requires World(w + {b}) && b !in w
    requires b.cited == None || HasNode(Acknowledged(w, b), b.cited.value)
    ensures CitationCovered(w + {b}, b)
  {
    var u := w + {b};
    var t := LinkTable(u);
    ReachClosed(t, b);
    forall x | x in u && DependsOn(b, x)
      ensures x in Reach(t, b)
    {
      if Links(b, x) {
        assert x in t[b];
      } else {
        var y :| y in Reach(t, b) && y.key == b.cited.value.key && b.cited.value.length < y.End();
        if x != y {
          assert x.End() <= y.length || y.End() <= x.length;
          assert Links(y, x) && x in t[y];
        }
      }
    }
  }

  lemma LinkReachGrows(s: set<Batch>, w: set<Batch>, b: Batch)
    requires s <= w
    ensures Acknowledged(s, b) <= Acknowledged(w, b)
  {
    var d, e := LinkTable(s + {b}), LinkTable(w + {b});
    ReachClosed(e, b);
    var r := Reach(e, b) * (s + {b});
    forall y, x | y in r + {b} && x in d[y]
      ensures x in r
    {
      assert x in e[y];
    }
    ReachLeast(d, b, r);
  }
}
