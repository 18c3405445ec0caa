// What happens when an append reads its hint after an approval was applied that its links do not
// reach: three batches of three writers after which the walk and the reference differ.
module LateHint {
  import opened Batches
  import opened Graphs
  import opened Universe
  import opened Reference
  import opened Topo
  import opened Settle
  import opened Gate
  import opened Citations
  import opened Hints
  import opened Network
  import Witness

  // a founder's approval, and two first batches that each cite the one before and link nothing
  const GRANT := Batch(1, 1, ["grant"], 10, 1, [], None, None, [Approval(2, 1)])
  const USE := Batch(2, 1, ["use"], 5, 1, [], Some(Link(1, 1)), None, [Approval(3, 1)])
  const NEXT := Batch(3, 1, ["next"], 3, 1, [], Some(Link(2, 1)), None, [])

  // What matters about them: the third sorts before the first, which it reaches only through the
  // citation of the second.
  ghost predicate Late(a: Batch, b: Batch, c: Batch) {
    && First(a) && First(b) && First(c) && a.key != b.key && a.key != c.key && b.key != c.key
    && a.cited == None && b.cited == Some(HeadOf(a)) && c.cited == Some(HeadOf(b))
    && Before(c, a) && Before(c, b)
    && ApprovesOne(a, b.key) && ApprovesOne(b, c.key)
  }

  predicate ApprovesOne(b: Batch, k: Key) {
    b.weight > 0 && |b.approvals| == 1 && b.approvals[0].key == k && b.approvals[0].weight > 0
  }

  // the first batch of a writer that has seen nothing
  predicate First(b: Batch) {
    b.length == 1 && b.values != [] && b.links == [] && b.hash == None
  }

  lemma ExampleIsLate()
    ensures Late(GRANT, USE, NEXT)
  {
  }

  // ----- the walk -----

  lemma EmptyWalk(n: Batch)
    ensures Insert([], n) == [n]
  {
    assert Walk([], n, StartClock(n)) == Split([], [], []);
    assert InsertAll([], []) == [];
  }

  lemma SecondWalk(a: Batch, b: Batch)
    requires First(a) && First(b) && b.cited == Some(HeadOf(a))
    ensures Insert([a], b) == [a, b]
  {
    var clock := StartClock(b);
    assert Hit(clock, a);
    if Cmp(b, a) > 0 {
      assert Walk([a], b, clock) == Split([a], [], []);
      assert InsertAll([a], []) == [a];
    } else {
      assert Walk([], b, clock) == Split([], [], []);
      assert Walk([a], b, clock) == Split([], [a], []);
      EmptyWalk(a);
      assert InsertAll([], [a]) == [a];
    }
  }

  // The citation of c leads the walk to b, but nothing leads it on to a, which stays on the tip.
  lemma ThirdWalk(a: Batch, b: Batch, c: Batch)
    requires Late(a, b, c)
    ensures Insert([a, b], c) == [b, c, a]
  {
    HitStart(c, a);
    HitStart(c, b);
    WalkOfTwo(a, b, c, StartClock(c));
    OneBack(b);
    InsertIs([a, b], c, [], [b], [a], [b]);
    assert [b] + [c] + [a] == [b, c, a];
  }

  lemma OneBack(b: Batch)
    ensures InsertAll([], [b]) == [b]
  {
    EmptyWalk(b);
  }

  lemma InsertIs(list: seq<Batch>, n: Batch, prefix: seq<Batch>, linked: seq<Batch>, tip: seq<Batch>, below: seq<Batch>)
    requires Walk(list, n, StartClock(n)) == Split(prefix, linked, tip) && InsertAll(prefix, linked) == below
    ensures Insert(list, n) == below + [n] + tip
  {
  }

  lemma WalkOfTwo(a: Batch, b: Batch, c: Batch, clock: ClockMap)
    requires Before(c, a) && Before(c, b) && Hit(clock, b) && !Hit(clock, a) && b.links == []
    ensures Walk([a, b], c, clock) == Split([], [b], [a])
  {
    assert [a, b][..1] == [a] && TickAll(clock, b.links) == clock;
    assert Walk([], c, clock) == Split([], [], []);
    assert Walk([a], c, clock) == Split([], [], [a]);
  }

  // ----- what the walk should have done -----

  lemma FirstIngestible(s: set<Batch>, n: Batch)
    requires First(n) && forall x :: x in s ==> x.key != n.key
    requires n.cited.Some? ==> exists x :: x in s && First(x) && n.cited.value == HeadOf(x)
    ensures Ingestible(s, n)
  {
    forall l | l in Required(n)
      ensures HasNode(s, l)
    {
      var x :| x in s && First(x) && l == HeadOf(x);
    }
  }

  lemma WorldGrows(s: set<Batch>, n: Batch, u: set<Batch>)
    requires World(s) && Ingestible(s, n) && u == s + {n}
    ensures World(u)
  {
    IngestKeepsWorld(s, n);
  }

  lemma WorldOfTwo(a: Batch, b: Batch)
    requires First(a) && a.cited == None && First(b) && a.key != b.key && b.cited == Some(HeadOf(a))
    ensures World({a, b})
  {
    EmptyWorld();
    FirstIngestible({}, a);
    WorldGrows({}, a, {a});
    FirstIngestible({a}, b);
    WorldGrows({a}, b, {a, b});
  }

  lemma WorldOfThree(a: Batch, b: Batch, c: Batch)
    requires Late(a, b, c)
    ensures World({a, b, c})
  {
    WorldOfTwo(a, b);
    FirstIngestible({a, b}, c);
    WorldGrows({a, b}, c, {a, b, c});
  }

  // The walk puts b before a, which is in its past, so it is not the reference order.
  lemma Misordered(u: set<Batch>, a: Batch, b: Batch, c: Batch)
    requires World(u) && a in u && b in u && DependsOn(b, a)
    ensures a in Past(u, b) && CanonicalOf(u) != [b, c, a]
  {
    ReachClosed(DependencyTable(u), b);
    assert a in DependencyTable(u)[b];
    var s := [b, c, a];
    assert s[0] == b && s[2] == a;
    CanonicalKeepsCauses(u, s, b, a);
  }

  // ----- the network that appends them -----

  ghost predicate RemovesNobody<V>(app: App<V>) {
    forall log, b :: Removed(app, log, b) == {}
  }

  // The approval of b leaves a hint for k, which k cites, as it has nothing yet.
  lemma GrantSets<V>(app: App<V>, log: seq<Batch>, b: Batch, k: Key)
    requires b.weight > 0 && |b.approvals| == 1 && b.approvals[0].key == k && b.approvals[0].weight > 0
    requires RemovesNobody(app) && k !in HintsOf(app, log) && (forall x :: x in log + [b] ==> x.key != k)
    ensures CitationOf(app, log + [b], k) == Some(HeadOf(b))
    ensures forall j :: j in HintsOf(app, log + [b]) ==> j == k || j in HintsOf(app, log)
  {
    StateStep(app, log, b);
    HintStep(HintsOf(app, log), b, Removed(app, log, b), k);
    BestGrantIsBest(b, k);
    assert b.approvals[0] in b.approvals;
    assert Approves(b, k, if b.approvals[0].weight <= b.weight then b.approvals[0].weight else b.weight);
    StandingIsLast(app, log + [b], k);
    NoWeight(log + [b], k, |log| + 1);
    forall j | j in HintsOf(app, log + [b]) ensures j == k || j in HintsOf(app, log) {
      HintStep(HintsOf(app, log), b, Removed(app, log, b), j);
      BestGrantIsBest(b, j);
    }
  }

  lemma {:induction false} NoWeight(log: seq<Batch>, k: Key, i: nat)
    requires i <= |log| && forall x :: x in log ==> x.key != k
    ensures LastWeight(log, k, i) == 0
  {
    if i > 0 {
      NoWeight(log, k, i - 1);
    }
  }

  // Each was stamped with the links of an empty log, and with the hint that its writer had once
  // the batch before was applied.
  lemma LateStamps<V>(app: App<V>, a: Batch, b: Batch, c: Batch)
    requires Late(a, b, c) && RemovesNobody(app)
    ensures Stamped(app, [], [], a) && Stamped(app, [], [a], b) && Stamped(app, [], [a, b], c)
  {
    NothingHinted(app, a.key);
    StampedOver(app, [], a);
    assert [] + [a] == [a] && [a] + [b] == [a, b];
    GrantSets(app, [], a, b.key);
    StampedOver(app, [a], b);
    GrantSets(app, [a], b, c.key);
    StampedOver(app, [a, b], c);
  }

  lemma NothingHinted<V>(app: App<V>, k: Key)
    ensures HintsOf(app, []) == map[] && CitationOf(app, [], k) == None
  {
  }

  lemma StampedOver<V>(app: App<V>, log: seq<Batch>, b: Batch)
    requires First(b) && b.cited == CitationOf(app, log, b.key)
    ensures Stamped(app, [], log, b)
  {
  }

  // Three peers begin to append before they see anything.
  lemma AllBegin<V>(app: App<V>)
    ensures var none := map[1 := [], 2 := [], 3 := []];
            Reachable(app, Net({}, none, none))
  {
    var none := map[1 := [], 2 := [], 3 := []];
    ReachableStart(app);
    ReachableStep(app, Net({}, map[], map[]), Join(1), Net({}, map[1 := []], map[]));
    ReachableStep(app, Net({}, map[1 := []], map[]), Join(2), Net({}, map[1 := [], 2 := []], map[]));
    ReachableStep(app, Net({}, map[1 := [], 2 := []], map[]), Join(3), Net({}, none, map[]));
    ReachableStep(app, Net({}, none, map[]), Begin(1), Net({}, none, map[1 := []]));
    ReachableStep(app, Net({}, none, map[1 := []]), Begin(2), Net({}, none, map[1 := [], 2 := []]));
    ReachableStep(app, Net({}, none, map[1 := [], 2 := []]), Begin(3), Net({}, none, none));
  }

  // The second takes the batch of the first before it finishes its own, and so does the third with
  // both.
  lemma AllFinish<V>(app: App<V>, a: Batch, b: Batch, c: Batch)
    requires Late(a, b, c) && RemovesNobody(app)
    ensures Reachable(app, Net({a, b, c}, map[1 := [], 2 := [a], 3 := [a, b]], map[]))
  {
    AllBegin(app);
    LateStamps(app, a, b, c);
    LateIngestible(a, b, c);
    EmptyWalk(a);
    SecondWalk(a, b);
    FinishFirst(app, a);
    SecondTakes(app, a);
    FinishSecond(app, a, b);
    ThirdTakes(app, a, b);
    FinishThird(app, a, b, c);
  }

  lemma LateIngestible(a: Batch, b: Batch, c: Batch)
    requires Late(a, b, c)
    ensures Ingestible({}, a) && Ingestible({a}, b) && Ingestible({a, b}, c)
  {
    FirstIngestible({}, a);
    FirstIngestible({a}, b);
    FirstIngestible({a, b}, c);
  }

  lemma FinishFirst<V>(app: App<V>, a: Batch)
    requires Reachable(app, Net({}, map[1 := [], 2 := [], 3 := []], map[1 := [], 2 := [], 3 := []]))
    requires Stamped(app, [], [], a) && Ingestible({}, a)
    ensures Reachable(app, Net({a}, map[1 := [], 2 := [], 3 := []], map[2 := [], 3 := []]))
  {
    var none := map[1 := [], 2 := [], 3 := []];
    ReachableStep(app, Net({}, none, none), Finish(1, a), Net({a}, none, map[2 := [], 3 := []]));
  }

  lemma SecondTakes<V>(app: App<V>, a: Batch)
    requires Reachable(app, Net({a}, map[1 := [], 2 := [], 3 := []], map[2 := [], 3 := []]))
    requires Ingestible({}, a) && Insert([], a) == [a]
    ensures Reachable(app, Net({a}, map[1 := [], 2 := [a], 3 := []], map[2 := [], 3 := []]))
  {
    var late := map[2 := [], 3 := []];
    assert Elems<Batch>([]) == {};
    ReachableStep(app, Net({a}, map[1 := [], 2 := [], 3 := []], late), Take(2, a),
                  Net({a}, map[1 := [], 2 := [a], 3 := []], late));
  }

  lemma FinishSecond<V>(app: App<V>, a: Batch, b: Batch)
    requires Reachable(app, Net({a}, map[1 := [], 2 := [a], 3 := []], map[2 := [], 3 := []]))
    requires Stamped(app, [], [a], b) && Ingestible({a}, b)
    ensures Reachable(app, Net({a, b}, map[1 := [], 2 := [a], 3 := []], map[3 := []]))
  {
    ReachableStep(app, Net({a}, map[1 := [], 2 := [a], 3 := []], map[2 := [], 3 := []]), Finish(2, b),
                  Net({a, b}, map[1 := [], 2 := [a], 3 := []], map[3 := []]));
  }

  lemma ThirdTakes<V>(app: App<V>, a: Batch, b: Batch)
    requires Reachable(app, Net({a, b}, map[1 := [], 2 := [a], 3 := []], map[3 := []]))
    requires Ingestible({}, a) && Ingestible({a}, b) && Insert([], a) == [a] && Insert([a], b) == [a, b]
    ensures Reachable(app, Net({a, b}, map[1 := [], 2 := [a], 3 := [a, b]], map[3 := []]))
  {
    var late := map[3 := []];
    assert Elems<Batch>([]) == {} && Elems([a]) == {a};
    ReachableStep(app, Net({a, b}, map[1 := [], 2 := [a], 3 := []], late), Take(3, a),
                  Net({a, b}, map[1 := [], 2 := [a], 3 := [a]], late));
    ReachableStep(app, Net({a, b}, map[1 := [], 2 := [a], 3 := [a]], late), Take(3, b),
                  Net({a, b}, map[1 := [], 2 := [a], 3 := [a, b]], late));
  }

  lemma FinishThird<V>(app: App<V>, a: Batch, b: Batch, c: Batch)
    requires Reachable(app, Net({a, b}, map[1 := [], 2 := [a], 3 := [a, b]], map[3 := []]))
    requires Stamped(app, [], [a, b], c) && Ingestible({a, b}, c)
    ensures Reachable(app, Net({a, b, c}, map[1 := [], 2 := [a], 3 := [a, b]], map[]))
  {
    ReachableStep(app, Net({a, b}, map[1 := [], 2 := [a], 3 := [a, b]], map[3 := []]), Finish(3, c),
                  Net({a, b, c}, map[1 := [], 2 := [a], 3 := [a, b]], map[]));
  }

  // The third peer then takes its own batch, and its log is not in the reference order of what it
  // applied.
  lemma LateHintMisorders<V>(app: App<V>) returns (n: Net)
    requires RemovesNobody(app)
    ensures Reachable(app, n) && n.all == {GRANT, USE, NEXT} && World(n.all)
    ensures 3 in n.logs && n.logs[3] == [USE, NEXT, GRANT]
    ensures GRANT in Past(n.all, USE) && n.logs[3] != CanonicalOf(n.all)
  {
    ExampleIsLate();
    n := TakeLast(app, GRANT, USE, NEXT);
    WorldOfThree(GRANT, USE, NEXT);
    Misordered(n.all, GRANT, USE, NEXT);
  }

  lemma TakeLast<V>(app: App<V>, a: Batch, b: Batch, c: Batch) returns (n: Net)
    requires Late(a, b, c) && RemovesNobody(app)
    ensures Reachable(app, n) && n.all == {a, b, c} && 3 in n.logs && n.logs[3] == [b, c, a]
  {
    AllFinish(app, a, b, c);
    FirstIngestible({a, b}, c);
    ThirdWalk(a, b, c);
    assert Elems([a, b]) == {a, b};
    var before := Net({a, b, c}, map[1 := [], 2 := [a], 3 := [a, b]], map[]);
    n := before.(logs := before.logs[3 := [b, c, a]]);
    ReachableStep(app, before, Take(3, c), n);
  }

  // Nothing is wrong with the weights: the founder starts with 1, and each citation resolves to
  // the 1 that was approved.
  lemma LateWeights(oplogs: Witness.Oplogs)
    requires oplogs(Link(1, 1)) == GRANT.approvals && oplogs(Link(2, 1)) == USE.approvals
    ensures var g := Witness.Genesis(1, 1);
            var r1 := map[1 := Witness.Record(1, 1, true, false), 2 := Witness.Record(0, 1, false, false)];
            var r2 := r1[2 := Witness.Record(1, 1, false, false)];
            && Witness.Bounded(g, r1) && Witness.Bounded(g, r2)
            && Witness.ResolveWeight(g, map[], oplogs, HeadOf(GRANT), None) == GRANT.weight
            && Witness.ResolveWeight(g, r1, oplogs, HeadOf(USE), Some(Witness.Claim(1, Link(1, 1)))) == USE.weight
            && Witness.ResolveWeight(g, r2, oplogs, HeadOf(NEXT), Some(Witness.Claim(1, Link(2, 1)))) == NEXT.weight
  {
  }
}
