// The whole network: peers that append and ingest in any order. No assumption is made on the
// batches that exist: all of them were appended by some peer on the way.
module Network {
  import opened Batches
  import opened Graphs
  import opened Universe
  import opened Reference
  import opened Topo
  import opened Settle
  import opened Gate
  import opened System
  import opened Autobee
  import opened Peers
  import opened Hints

  // ----- appending -----

  // b as a peer stamps it: links, hash and timestamp are those of the log it saw when it began,
  // and a citation is the hint its own writer has by the time it is read.
  ghost predicate Stamped<V>(app: App<V>, seen: seq<Batch>, log: seq<Batch>, b: Batch) {
    && Started(Program(app), seen, b.key, Start(b.links, b.hash, b.timestamp))
    && b.cited == CitationOf(app, log, b.key)
  }

  // The second half of an append: the citation is the hint that the writer has by now, if and only
  // if that is worth more than the weight its last applied batch had.
  method FinishAppend<V>(app: App<V>, peer: Autobee<AppState<V>>, start: Start, key: Key, length: nat,
                         values: seq<string>, weight: int, approvals: seq<Approval>, ghost seen: seq<Batch>)
    returns (b: Batch)
    requires peer.Valid() && peer.system.p == Program(app)
    requires Started(Program(app), seen, key, start)
    ensures Stamped(app, seen, peer.Log(), b)
    ensures b.key == key && b.length == length && b.values == values && b.approvals == approvals
    ensures b.links == start.links && b.hash == start.hash && b.timestamp == start.timestamp
    ensures var hints := HintsOf(app, peer.Log());
            && (b.cited.Some? <==> key in hints && hints[key].weight > LastWeight(peer.Log(), key, |peer.Log()|))
            && (b.cited.Some? ==> b.cited.value == Link(hints[key].key, hints[key].length))
  {
    var state := peer.view;
    assert state == InfoOf(Program(app), peer.Log()).view by {
      assert peer.system.Current() == InfoOf(Program(app), peer.Log());
    }
    StandingIsLast(app, peer.Log(), key);
    var standing := if key in state.weights then state.weights[key] else 0;
    var cited := None;
    if key in state.hints && state.hints[key].weight > standing {
      cited := Some(Place(state.hints[key]));
    }
    b := Batch(key, length, values, start.timestamp, weight, start.links, cited, start.hash, approvals);
  }

  // ----- the network -----

  // all the batches that exist, the log of every peer, and the log that a peer saw when it began
  // to append
  datatype Net = Net(all: set<Batch>, logs: map<nat, seq<Batch>>, begun: map<nat, seq<Batch>>)

  datatype Event =
    | Join(peer: nat)                     // a peer starts with nothing applied
    | Begin(peer: nat)                    // a peer begins to append: it reads its links
    | Finish(peer: nat, batch: Batch)     // and, later, reads its hint and appends to its oplog
    | Take(peer: nat, batch: Batch)       // a peer takes a batch through its gate

  // Only the owner of an oplog appends to it, at its end.
  ghost predicate ContinuesOplog(all: set<Batch>, b: Batch) {
    b.length >= 1 && b.values != [] && NextInChain(all, b)
  }

  ghost predicate Step<V>(app: App<V>, n: Net, e: Event, m: Net) {
    match e
    case Join(i) =>
      i !in n.logs && m == n.(logs := n.logs[i := []])
    case Begin(i) =>
      i in n.logs && m == n.(begun := n.begun[i := n.logs[i]])
    case Finish(i, b) =>
      && i in n.logs && i in n.begun && ContinuesOplog(n.all, b)
      && Stamped(app, n.begun[i], n.logs[i], b) && m == n.(all := n.all + {b}, begun := n.begun - {i})
    case Take(i, b) =>
      i in n.logs && b in n.all && Ingestible(Elems(n.logs[i]), b) && m == n.(logs := n.logs[i := Insert(n.logs[i], b)])
  }

  // a run from the empty network
  ghost predicate Run<V>(app: App<V>, nets: seq<Net>, events: seq<Event>) {
    && |nets| == |events| + 1 && nets[0] == Net({}, map[], map[])
    && forall i :: 0 <= i < |events| ==> Step(app, nets[i], events[i], nets[i + 1])
  }

  // Whoever cites an approval had applied it when it read its links.
  ghost predicate Timely(n: Net, e: Event) {
    e.Finish? && e.peer in n.begun && e.batch.cited.Some? ==> HasNode(Elems(n.begun[e.peer]), e.batch.cited.value)
  }

  ghost predicate TimelyRun(nets: seq<Net>, events: seq<Event>) {
    |events| <= |nets| && forall i :: 0 <= i < |events| ==> Timely(nets[i], events[i])
  }

  // links and citations name nodes, and none of a batch's own
  ghost predicate LooksBack(b: Batch) {
    forall l :: l in Required(b) ==> l.length >= 1 && (l.key == b.key ==> l.length < b.length)
  }

  ghost predicate SafeWorld(all: set<Batch>) {
    World(all) && CitationsCovered(all) && forall b :: b in all ==> LooksBack(b)
  }

  ghost predicate SafeLog(all: set<Batch>, log: seq<Batch>) {
    CanonicalLog(log) && Elems(log) <= all
  }

  ghost predicate Safe(n: Net) {
    SafeWorld(n.all) && SafeLogs(n.all, n.logs) && SafeLogs(n.all, n.begun)
  }

  ghost predicate SafeLogs(all: set<Batch>, logs: map<nat, seq<Batch>>) {
    forall i :: i in logs ==> SafeLog(all, logs[i])
  }

  lemma SafeLogsPut(all: set<Batch>, logs: map<nat, seq<Batch>>, i: nat, log: seq<Batch>)
    requires SafeLogs(all, logs) && SafeLog(all, log)
    ensures SafeLogs(all, logs[i := log])
  {
  }

  lemma SafeLogsGrow(all: set<Batch>, b: Batch, logs: map<nat, seq<Batch>>)
    requires SafeLogs(all, logs)
    ensures SafeLogs(all + {b}, logs)
  {
  }

  lemma EmptyWorld()
    ensures World({}) && CitationsCovered({})
  {
    EmptyLog();
    assert Elems<Batch>([]) == {};
  }

  // What a peer stamps links everything it had applied when it began.
  lemma StampedLinks<V>(app: App<V>, all: set<Batch>, seen: seq<Batch>, log: seq<Batch>, b: Batch)
    requires World(all) && SafeLog(all, seen) && ContinuesOplog(all, b) && Stamped(app, seen, log, b)
    ensures IsLinkingAll(Member(b, 0), InfoOf(Program(app), seen).heads)
  {
    var heads := InfoOf(Program(app), seen).heads;
    forall h | h in heads
      ensures IsLinking(Member(b, 0), h)
    {
      var x := HeadOwner(Program(app), seen, h);
      assert x in Elems(seen);
      if h.key != b.key {
        assert h in b.links;
      }
    }
  }

  // It names only what it has applied by now.
  lemma RequiredApplied<V>(app: App<V>, all: set<Batch>, seen: seq<Batch>, log: seq<Batch>, b: Batch)
    requires World(all) && SafeLog(all, seen) && SafeLog(all, log)
    requires ContinuesOplog(all, b) && Stamped(app, seen, log, b)
    ensures Ingestible(all, b) && LooksBack(b)
  {
    forall l | l in Required(b)
      ensures HasNode(all, l) && l.length >= 1 && (l.key == b.key ==> l.length < b.length)
    {
      var x: Batch;
      if l in b.links {
        x := HeadOwner(Program(app), seen, l);
        assert x in Elems(seen);
      } else {
        x := HintOwner(app, log, b.key);
        assert x in Elems(log);
      }
      PlaceApplied(all, b, x, l);
    }
  }

  lemma HeadOwner<V>(p: Params<V>, log: seq<Batch>, h: Link) returns (x: Batch)
    requires CanonicalLog(log) && h in InfoOf(p, log).heads
    ensures x in log && Owns(x, h)
  {
    CanonicalLogFacts(log);
    HeadsAreFrontier(p, log);
    x :| x in log && h == x.Tail();
  }

  lemma HintOwner<V>(app: App<V>, log: seq<Batch>, k: Key) returns (x: Batch)
    requires CanonicalLog(log) && k in HintsOf(app, log)
    ensures x in log && Owns(x, Place(HintsOf(app, log)[k]))
  {
    HintsExactly(app, log, k);
    var i :| 0 <= i < |log| && HintFrom(app, log, i, k, HintsOf(app, log)[k]);
    x := log[i];
    assert x in Elems(log);
  }

  lemma PlaceApplied(all: set<Batch>, b: Batch, x: Batch, l: Link)
    requires DisjointChains(all) && ContinuesOplog(all, b) && x in all && Owns(x, l)
    ensures HasNode(all, l) && l.length >= 1 && (l.key == b.key ==> l.length < b.length)
  {
  }

  // A timely append keeps citations covered.
  lemma FinishKeepsWorld<V>(app: App<V>, all: set<Batch>, seen: seq<Batch>, log: seq<Batch>, b: Batch)
    requires SafeWorld(all) && SafeLog(all, seen) && SafeLog(all, log)
    requires ContinuesOplog(all, b) && Stamped(app, seen, log, b)
    requires b.cited.Some? ==> HasNode(Elems(seen), b.cited.value)
    ensures SafeWorld(all + {b})
  {
    var s := Elems(seen);
    StampedLinks(app, all, seen, log, b);
    RequiredApplied(app, all, seen, log, b);
    FreshAtPeer(all, s, b);
    LinkingHeadsAcknowledges(Program(app), seen, b);
    AppendKeepsCovered(all, s, b);
  }

  // Whenever its hint is read, an append keeps citations covered if and only if the links it read
  // reach the approval it cites.
  lemma FinishSafeIff<V>(app: App<V>, all: set<Batch>, seen: seq<Batch>, log: seq<Batch>, b: Batch)
    requires SafeWorld(all) && SafeLog(all, seen) && SafeLog(all, log)
    requires ContinuesOplog(all, b) && Stamped(app, seen, log, b)
    ensures World(all + {b})
    ensures SafeWorld(all + {b}) <==> b.cited == None || HasNode(Acknowledged(all, b), b.cited.value)
  {
    RequiredApplied(app, all, seen, log, b);
    AppendCoveredIff(all, b);
  }

  // An append in one step is timely: a hint names what has been applied.
  lemma OneStepIsTimely<V>(app: App<V>, n: Net, e: Event, m: Net)
    requires Safe(n) && Step(app, n, e, m)
    requires e.Finish? ==> n.begun[e.peer] == n.logs[e.peer]
    ensures Timely(n, e)
  {
    if e.Finish? && e.batch.cited.Some? {
      var x := HintOwner(app, n.logs[e.peer], e.batch.key);
      assert x in Elems(n.logs[e.peer]);
    }
  }

  lemma FreshAtPeer(all: set<Batch>, s: set<Batch>, b: Batch)
    requires World(all) && Ingestible(all, b) && s <= all
    ensures Fresh(s, b)
  {
    IngestibleIsFresh(all, b);
  }

  // Every timely step keeps the network safe.
  lemma StepKeepsSafe<V>(app: App<V>, n: Net, e: Event, m: Net)
    requires Safe(n) && Step(app, n, e, m) && Timely(n, e)
    ensures Safe(m)
  {
    match e
    case Join(i) =>
      EmptyLog();
      SafeLogsPut(n.all, n.logs, i, []);
    case Begin(i) =>
      SafeLogsPut(n.all, n.begun, i, n.logs[i]);
    case Finish(i, b) =>
      FinishKeepsSafe(app, n, i, b);
    case Take(i, b) =>
      TakeKeepsSafe(n, i, b);
  }

  lemma FinishKeepsSafe<V>(app: App<V>, n: Net, i: nat, b: Batch)
    requires Safe(n) && i in n.logs && i in n.begun
    requires ContinuesOplog(n.all, b) && Stamped(app, n.begun[i], n.logs[i], b)
    requires b.cited.Some? ==> HasNode(Elems(n.begun[i]), b.cited.value)
    ensures Safe(n.(all := n.all + {b}, begun := n.begun - {i}))
  {
    FinishKeepsWorld(app, n.all, n.begun[i], n.logs[i], b);
    SafeLogsGrow(n.all, b, n.logs);
    SafeLogsGrow(n.all, b, n.begun);
  }

  lemma TakeKeepsSafe(n: Net, i: nat, b: Batch)
    requires Safe(n) && i in n.logs && b in n.all && Ingestible(Elems(n.logs[i]), b)
    ensures Safe(n.(logs := n.logs[i := Insert(n.logs[i], b)]))
    ensures Elems(Insert(n.logs[i], b)) == Elems(n.logs[i]) + {b}
  {
    TakeKeepsLog(n.all, n.logs[i], b);
    SafeLogsPut(n.all, n.logs, i, Insert(n.logs[i], b));
  }

  lemma TakeKeepsLog(all: set<Batch>, log: seq<Batch>, b: Batch)
    requires SafeWorld(all) && SafeLog(all, log) && b in all && Ingestible(Elems(log), b)
    ensures SafeLog(all, Insert(log, b)) && Elems(Insert(log, b)) == Elems(log) + {b}
  {
    IngestSettles(all, log, b);
  }

  // In every network that timely steps reach all citations are covered, and the log of every peer
  // is the canonical order of what it applied.
  lemma {:induction false} ReachableIsSafe<V>(app: App<V>, nets: seq<Net>, events: seq<Event>, i: nat)
    requires Run(app, nets, events) && TimelyRun(nets, events) && i < |nets|
    ensures Safe(nets[i])
  {
    if i == 0 {
      EmptyWorld();
    } else {
      ReachableIsSafe(app, nets, events, i - 1);
      StepKeepsSafe(app, nets[i - 1], events[i - 1], nets[i]);
    }
  }

  // So any two peers of a reachable network that applied the same batches agree on everything.
  lemma ReachableAgree<V>(app: App<V>, nets: seq<Net>, events: seq<Event>, k: nat, i: nat, j: nat)
    requires Run(app, nets, events) && TimelyRun(nets, events)
    requires k < |nets| && i in nets[k].logs && j in nets[k].logs
    requires Elems(nets[k].logs[i]) == Elems(nets[k].logs[j])
    ensures nets[k].logs[i] == nets[k].logs[j]
    ensures Snapshot(Program(app), nets[k].logs[i]) == Snapshot(Program(app), nets[k].logs[j])
  {
    ReachableIsSafe(app, nets, events, k);
  }

  // ----- nobody gets stuck -----

  // a batch of r none of whose past is in r
  lemma FirstOf(g: Graph, r: set<Batch>, x: Batch) returns (b: Batch)
    requires Causal(g) && r <= g.nodes && x in r
    ensures b in r && g.past[b] !! r
    decreases g.past[x]
  {
    b := x;
    if y :| y in r && y in g.past[x] {
      b := FirstOf(g, r, y);
    }
  }

  // A peer that lacks some batch of a well-formed world can take one.
  lemma SomethingToTake(w: set<Batch>, s: set<Batch>) returns (b: Batch)
    requires World(w) && (forall b :: b in w ==> LooksBack(b))
    requires World(s) && s <= w && !(w <= s)
    ensures b in w && b !in s && Ingestible(s, b)
  {
    var g := CausalGraph(w);
    CausalGraphIsCausal(w);
    var x :| x in w && x !in s;
    b := FirstOf(g, w - s, x);
    ReachClosed(DependencyTable(w), b);
    forall y | y in w && DependsOn(b, y)
      ensures y in s
    {
      assert y in DependencyTable(w)[b];
    }
    NextIsThere(w, s, b);
    forall l | l in Required(b)
      ensures Satisfied(s, b, l)
    {
      RequiredIsThere(w, s, b, l);
    }
  }

  lemma RequiredIsThere(w: set<Batch>, s: set<Batch>, b: Batch, l: Link)
    requires World(w) && b in w && LooksBack(b) && l in Required(b)
    requires forall y :: y in w && DependsOn(b, y) ==> y in s
    ensures Satisfied(s, b, l)
  {
    assert Names(b, l);
    var o :| o in w && Owns(o, l);
    if o != b {
      NamedIsDependency(b, o);
    }
  }

  lemma EarlierIsThere(w: set<Batch>, s: set<Batch>, b: Batch, x: Batch)
    requires World(w) && World(s) && s <= w && b in w && x in s && x.key == b.key
    ensures b.length < x.End() ==> b in s
  {
    if b.length < x.End() {
      ChainComplete(s, x, b.length);
      var o :| o in s && Owns(o, HeadOf(b));
      OwnerUnique(w, b, HeadOf(b));
    }
  }

  lemma NextIsThere(w: set<Batch>, s: set<Batch>, b: Batch)
    requires World(w) && World(s) && s <= w && b in w && b !in s
    requires forall y :: y in w && DependsOn(b, y) ==> y in s
    ensures NextInChain(s, b)
  {
    forall x | x in s && x.key == b.key
      ensures x.End() <= b.length
    {
      EarlierIsThere(w, s, b, x);
    }
    if b.length > 1 {
      var l := Link(b.key, b.length - 1);
      assert Names(b, l);
      var o :| o in w && Owns(o, l);
      assert DependsOn(b, o);
    }
  }

  // From any reachable network every peer can take what it lacks, one batch after another, until
  // it holds the canonical order of everything.
  lemma {:induction false} CatchesUp(n: Net, i: nat) returns (offers: seq<Batch>, logs: seq<seq<Batch>>)
    requires Safe(n) && i in n.logs
    ensures Taken(n.all, offers, logs)
    ensures logs[0] == n.logs[i] && logs[|offers|] == CanonicalOf(n.all)
    decreases n.all - Elems(n.logs[i])
  {
    var log := n.logs[i];
    if n.all <= Elems(log) {
      assert Elems(log) == n.all;
      return [], [log];
    }
    var b := SomethingToTake(n.all, Elems(log));
    TakeKeepsSafe(n, i, b);
    var rest, after := CatchesUp(n.(logs := n.logs[i := Insert(log, b)]), i);
    TakenFirst(n.all, log, b, rest, after);
    return [b] + rest, [log] + after;
  }

  // the logs of a peer that takes these batches one after another
  ghost predicate Taken(all: set<Batch>, offers: seq<Batch>, logs: seq<seq<Batch>>) {
    |logs| == |offers| + 1 && forall k :: 0 <= k < |offers| ==> TakenAt(all, offers, logs, k)
  }

  ghost predicate TakenAt(all: set<Batch>, offers: seq<Batch>, logs: seq<seq<Batch>>, k: nat)
    requires k < |offers| && |logs| == |offers| + 1
  {
    offers[k] in all && Ingestible(Elems(logs[k]), offers[k]) && logs[k + 1] == Insert(logs[k], offers[k])
  }

  lemma TakenFirst(all: set<Batch>, log: seq<Batch>, b: Batch, rest: seq<Batch>, after: seq<seq<Batch>>)
    requires Taken(all, rest, after) && after[0] == Insert(log, b) && b in all && Ingestible(Elems(log), b)
    ensures Taken(all, [b] + rest, [log] + after)
  {
    forall k | 0 <= k < |rest| + 1
      ensures TakenAt(all, [b] + rest, [log] + after, k)
    {
      if k > 0 {
        assert TakenAt(all, rest, after, k - 1);
      }
    }
  }

  // ----- an append that is not one step -----

  // Adding a batch keeps all citations covered if and only if the approval that it cites, if any,
  // is one that its links reach.
  lemma AppendCoveredIff(w: set<Batch>, b: Batch)
    requires World(w) && CitationsCovered(w) && Ingestible(w, b) && LooksBack(b)
    ensures World(w + {b})
    ensures CitationsCovered(w + {b}) <==> b.cited == None || HasNode(Acknowledged(w, b), b.cited.value)
  {
    IngestKeepsWorld(w, b);
    var u := w + {b};
    forall y | y in w ensures CitationCovered(u, y) {
      CoveredSame(w, b, y);
    }
    if b.cited != None {
      CitedReached(w, b);
    }
    if b.cited == None || HasNode(Acknowledged(w, b), b.cited.value) {
      ReachedCovers(w, b);
    }
  }

  lemma CitedReached(w: set<Batch>, b: Batch)
    requires World(w + {b}) && b !in w && LooksBack(b) && b.cited != None
    ensures CitationCovered(w + {b}, b) ==> HasNode(Acknowledged(w, b), b.cited.value)
  {
    var u, l := w + {b}, b.cited.value;
    assert l in Required(b) && Names(b, l);
    var o :| o in u && Owns(o, l);
    assert o != b && DependsOn(b, o);
  }

  // ----- reachable networks -----

  ghost predicate Reachable<V>(app: App<V>, n: Net) {
    exists nets, events :: Run(app, nets, events) && nets[|events|] == n
  }

  lemma ReachableStart<V>(app: App<V>)
    ensures Reachable(app, Net({}, map[], map[]))
  {
    assert Run(app, [Net({}, map[], map[])], []);
  }

  lemma ReachableStep<V>(app: App<V>, n: Net, e: Event, m: Net)
    requires Reachable(app, n) && Step(app, n, e, m)
    ensures Reachable(app, m)
  {
    var nets, events :| Run(app, nets, events) && nets[|events|] == n;
    var ns, es := nets + [m], events + [e];
    forall i | 0 <= i < |es|
      ensures Step(app, ns[i], es[i], ns[i + 1])
    {
      if i < |events| {
        assert ns[i] == nets[i] && ns[i + 1] == nets[i + 1] && es[i] == events[i];
      }
    }
    assert Run(app, ns, es);
    assert ns[|es|] == m;
  }
}
