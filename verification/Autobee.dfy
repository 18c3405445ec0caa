// Applying batches: the undo and redo machine of index.js, behind the gate of lib/writers.js.
module Autobee {
  import opened Batches
  import opened Universe
  import opened Reference
  import opened Topo
  import opened Window
  import opened Settle
  import opened Stability
  import opened Gate
  import opened System
  import opened States
  import opened Systembee
  import opened Linearizer
  import opened Sort

  // The log of a peer: the canonical order of a well-formed set.
  ghost predicate CanonicalLog(log: seq<Batch>) {
    var s := Elems(log);
    World(s) && CitationsCovered(s) && log == CanonicalOf(s)
  }

  lemma CanonicalLogFacts(log: seq<Batch>)
    requires CanonicalLog(log)
    ensures CausalLog(log) && Distinct(log)
  {
    CanonicalArrivals(Elems(log));
    forall i, j | 0 <= i < j < |log|
      ensures log[i] != log[j]
    {
      assert log[..j][i] == log[i];
    }
  }

  lemma EmptyLog()
    ensures CanonicalLog([])
  {
    assert Elems<Batch>([]) == {};
    CanonicalArrivals({});
    EmptyElems(CanonicalOf({}));
  }

  // ----- prefixes of the canonical order as states of the machine -----

  lemma WorldPrefix(u: set<Batch>, s: set<Batch>)
    requires World(u) && DownClosed(u, s)
    ensures World(s)
  {
    forall b, l | b in s && Names(b, l)
      ensures HasOwner(s, l)
    {
      var o :| o in u && Owns(o, l);
      if o != b {
        assert NamedBy(b, o);
        NamedIsDependency(b, o);
      }
      assert o in s;
    }
    forall b | b in s
      ensures b !in Past(s, b)
    {
      PastRestrict(u, s, b);
    }
  }

  lemma CanonicalLogPrefix(u: set<Batch>, k: nat)
    requires World(u) && CitationsCovered(u) && k <= |CanonicalOf(u)|
    ensures CanonicalLog(CanonicalOf(u)[..k])
  {
    var g := CanonicalOf(u);
    PrefixDownClosed(u, k);
    WorldPrefix(u, Elems(g[..k]));
    CanonicalArrivals(u);
    ArrivalsPrefix(g, k);
    PrefixCanonical(u, k);
  }

  lemma ArrivalIsFresh(g: seq<Batch>, k: nat)
    requires CausalArrivals(g) && k < |g|
    ensures Fresh(Elems(g[..k]), g[k])
  {
    assert forall b :: b in Elems(g[..k]) <==> b in g[..k];
    assert forall b :: b in Elems(g[..k]) + {g[k]} ==> b in Elems(g);
  }

  lemma ArrivalIsApart(g: seq<Batch>, k: nat)
    requires DisjointChains(Elems(g)) && k < |g| && g[k] !in g[..k]
    ensures Apart(g[..k], g[k])
  {
    var n := g[k];
    assert n in Elems(g);
    forall b | b in g[..k]
      ensures b.values != [] && b != n && (n.key == b.key ==> b.End() <= n.length || n.End() <= b.length)
    {
      assert b in Elems(g);
    }
  }

  // The next batch of the canonical order is a fresh one for the log below it.
  lemma NextIsFresh(u: set<Batch>, k: nat)
    requires World(u) && k < |CanonicalOf(u)|
    ensures var g := CanonicalOf(u); Fresh(Elems(g[..k]), g[k]) && Apart(g[..k], g[k])
  {
    CanonicalArrivals(u);
    ArrivalIsFresh(CanonicalOf(u), k);
    ArrivalIsApart(CanonicalOf(u), k);
  }

  // A batch that links every head is appended: the fast path sorts like the walk.
  lemma FastPathAppends<V>(p: Params<V>, log: seq<Batch>, n: Batch)
    requires CanonicalLog(log) && Fresh(Elems(log), n) && n.values != []
    requires IsLinkingAll(Member(n, 0), InfoOf(p, log).heads)
    ensures Insert(log, n) == log + [n]
  {
    CanonicalLogFacts(log);
    LinkingAllSeesAll(p, log, n);
    AcknowledgesAll(Elems(log), n);
    InsertSettles(Elems(log), n);
  }

  lemma SnapshotAppend<V>(p: Params<V>, log: seq<Batch>, b: Batch)
    ensures InfoOf(p, log + [b]) == System.Applied(p, InfoOf(p, log), b)
    ensures Snapshot(p, log + [b]) == Bee.Flush(Snapshot(p, log), b, InfoOf(p, log + [b]))
  {
    assert (log + [b])[..|log|] == log;
  }

  lemma SnapshotsChain<V>(p: Params<V>, log: seq<Batch>)
    ensures Chain(Snapshots(p, log), log)
    ensures Snapshots(p, log)[|log|] == Snapshot(p, log)
  {
    forall i | 0 <= i < |log|
      ensures FlushedOn(Snapshots(p, log)[i], log[i], Snapshots(p, log)[i + 1])
    {
      SnapshotTop(p, log, i);
    }
    assert log[..|log|] == log;
  }

  lemma NoDifference(log: seq<Batch>, after: seq<Batch>, at: nat, n: Batch)
    requires after == Insert(log, n) && FirstDifference(log, after, at) && at == |log|
    ensures after == log + [n]
  {
    InsertPermutes(log, n);
    assert after == log + [after[|log|]];
    SameLast(log, after[|log|], n);
  }

  lemma SameLast(log: seq<Batch>, x: Batch, n: Batch)
    requires multiset(log + [x]) == multiset(log) + multiset{n}
    ensures x == n
  {
    assert multiset(log + [x]) == multiset(log) + multiset{x};
    assert multiset(log + [x])[x] == multiset(log)[x] + 1;
  }

  // ----- the machine -----

  // links, hash and timestamp of a batch that is being appended
  datatype Start = Start(links: seq<Link>, hash: Option<nat>, timestamp: int)

  // They are those of the state that this log leaves.
  ghost predicate Started<V>(p: Params<V>, log: seq<Batch>, key: Key, start: Start) {
    && (forall l :: l in start.links <==> l in InfoOf(p, log).heads && l.key != key)
    && start.hash == InfoOf(p, log).hash && forall x :: x in log ==> x.timestamp <= start.timestamp
  }

  // The log is cut where the new order first differs, and the tip is the rest of the new order.
  ghost predicate RewoundFor(log: seq<Batch>, n: Batch, below: seq<Batch>, tip: seq<Batch>, at: nat) {
    && at < |log| && below == log[..at] && Insert(log, n) == below + tip
    && FirstDifference(log, Insert(log, n), at)
  }

  class Autobee<V> {
    const system: Systembee<V>
    var view: V      // the working view
    var undos: nat   // how often the log was rewound

    ghost function Log(): seq<Batch>
      reads this, system
    {
      System.Log(system.bee)
    }

    ghost function Applied(): set<Batch>
      reads this, system
    {
      Elems(Log())
    }

    // The state is the fold of the canonical order of the applied set.
    ghost predicate Valid()
      reads this, system
    {
      system.Synced() && view == system.view && CanonicalLog(Log())
    }

    constructor (p: Params<V>)
      ensures Valid() && Log() == [] && system.p == p && undos == 0 && fresh(system)
    {
      system := new Systembee(p);
      view := p.blank;
      undos := 0;
      new;
      EmptyLog();
    }

    method AddBatch(batch: Batch)
      modifies system
      ensures system.bee == old(system.bee)
      ensures system.Current() == AddMembers(system.p, old(system.Current()), batch, |batch.values|)
    {
      for i := 0 to |batch.values|
        invariant system.bee == old(system.bee)
        invariant system.Current() == AddMembers(system.p, old(system.Current()), batch, i)
      {
        system.AddNode(Member(batch, i));
      }
    }

    // Applies a batch at the end of the log.
    method ApplyBatch(batch: Batch)
      requires system.Synced() && view == system.view
      modifies this`view, system
      ensures system.Synced() && view == system.view
      ensures Log() == old(Log()) + [batch]
    {
      ghost var log, before := Log(), system.Current();
      AddBatch(batch);
      AddMembersKeeps(system.p, before, batch, |batch.values|);
      view := system.p.apply(view, batch);
      system.Flush(batch, view);
      SnapshotAppend(system.p, log, batch);
      LogOfSnapshot(system.p, log + [batch]);
      assert system.Current() == InfoOf(system.p, log + [batch]);
      assert system.bee == Snapshot(system.p, log + [batch]);
    }

    // Decides where a batch goes, and rewinds if it does not go last.
    method PrepareBatch(batch: Batch) returns (rewound: Option<V>, tip: seq<Batch>, ghost at: nat)
      requires Valid() && Fresh(Applied(), batch) && Apart(Log(), batch)
      modifies this`undos, system
      ensures system.Synced() && view == old(view)
      ensures rewound == None ==>
                view == system.view && Log() == old(Log()) && undos == old(undos) &&
                Insert(Log(), batch) == Log() + [batch]
      ensures rewound != None ==>
                rewound == Some(system.view) && undos == old(undos) + 1 &&
                RewoundFor(old(Log()), batch, Log(), tip, at)
    {
      ghost var log := Log();
      rewound, tip, at := None, [batch], |log|;
      if batch.hash != None && batch.hash == system.hash && IsLinkingAll(Member(batch, 0), system.heads) {
        FastPathAppends(system.p, log, batch);
        return;
      }
      CanonicalLogFacts(log);
      var undo;
      SnapshotsChain(system.p, log);
      undo, tip, at := SortBatch(Snapshots(system.p, log), log, system.bee, batch);
      if undo == None {
        NoDifference(log, Insert(log, batch), at, batch);
      } else {
        var v := Rewind(undo.value, log[..at]);
        rewound := Some(v);
      }
    }

    method Rewind(head: Bee<V>, ghost log: seq<Batch>) returns (v: V)
      requires head == Snapshot(system.p, log)
      modifies this`undos, system
      ensures system.Synced() && Log() == log && v == system.view
      ensures undos == old(undos) + 1 && view == old(view)
    {
      undos := undos + 1;
      LogOfSnapshot(system.p, log);
      v := system.Undo(head);
    }

    // Puts a batch on top of the log, or rewinds the log to where it has to go.
    method Place(next: Batch) returns (rewound: bool, tip: seq<Batch>, ghost at: nat)
      requires Valid() && Fresh(Applied(), next) && Apart(Log(), next)
      modifies this, system
      ensures system.Synced() && view == system.view
      ensures !rewound ==> Log() == old(Log()) + [next] == Insert(old(Log()), next) && undos == old(undos)
      ensures rewound ==>
                undos == old(undos) + 1 && RewoundFor(old(Log()), next, Log(), tip, at)
    {
      var v;
      v, tip, at := PrepareBatch(next);
      rewound := v != None;
      if rewound {
        view := v.value;
      } else {
        ApplyBatch(next);
      }
    }

    // One turn of the loop: pops a batch, then either schedules the tip or is done with it.
    method Advance(stack: seq<Batch>, ghost u: set<Batch>, ghost goal: seq<Batch>, ghost redoing: bool)
      returns (rest: seq<Batch>)
      requires system.Synced() && view == system.view
      requires stack != [] && Scheduled(u, goal, Log(), stack, redoing)
      modifies this, system
      ensures system.Synced() && view == system.view
      ensures Scheduled(u, goal, Log(), rest, true)
      ensures redoing ==> undos == old(undos) && |rest| < |stack|
      ensures !redoing ==> undos == old(undos) + if goal == old(Log()) + stack then 0 else 1
    {
      ghost var log := Log();
      NextFits(u, goal, log, stack, redoing);
      var next := stack[|stack| - 1];
      rest := stack[..|stack| - 1];
      var rewound, tip, at := Place(next);
      if rewound {
        ghost var below := rest;
        rest := PushReversed(rest, tip);
        AfterRewind(u, goal, log, at, next, tip, below, rest, redoing);
      } else {
        AfterApply(u, goal, log, next, rest, redoing);
      }
    }

    // Ingests one batch: at most one rewind, after which the tip is re-applied in order.
    method ProcessBatch(batch: Batch)
      requires Valid() && Ingestible(Applied(), batch)
      requires CitationCovered(Applied() + {batch}, batch)
      modifies this, system
      ensures Valid() && Applied() == old(Applied()) + {batch}
      ensures Log() == Insert(old(Log()), batch)
      ensures undos == old(undos) + if Log() == old(Log()) + [batch] then 0 else 1
    {
      ghost var u := Applied() + {batch};
      ArrivingBatch(Log(), batch);
      ghost var goal := CanonicalOf(u);
      var stack := [batch];
      ghost var redoing := false;
      while stack != []
        invariant system.Synced() && view == system.view
        invariant Scheduled(u, goal, Log(), stack, redoing)
        invariant !redoing ==> Log() == old(Log()) && stack == [batch] && undos == old(undos)
        invariant redoing ==> undos == old(undos) + if goal == old(Log()) + [batch] then 0 else 1
        decreases !redoing, |stack|
      {
        stack := Advance(stack, u, goal, redoing);
        redoing := true;
      }
      FinishedLog(u, Log());
    }

    // The heads of the other writers.
    method GetLinks(key: Key) returns (links: seq<Link>)
      ensures forall l :: l in links <==> l in system.heads && l.key != key
    {
      links := [];
      for i := 0 to |system.heads|
        invariant forall l :: l in links <==> l in system.heads[..i] && l.key != key
      {
        var h := system.heads[i];
        assert system.heads[..i + 1] == system.heads[..i] + [h];
        if h.key != key {
          links := links + [h];
        }
      }
      assert system.heads[..|system.heads|] == system.heads;
    }

    // What an append reads first: it links the heads of all other writers and is never older than
    // anything applied, however far the local clock lags.
    method StartAppend(key: Key, now: int) returns (start: Start)
      requires Valid()
      ensures Started(system.p, Log(), key, start)
      ensures var latest := InfoOf(system.p, Log()).timestamp; start.timestamp == if latest < now then now else latest
    {
      var links := GetLinks(key);
      start := Start(links, system.hash, if now > system.timestamp then now else system.timestamp);
      CanonicalLogFacts(Log());
      HeadsAreFrontier(system.p, Log());
      TimestampIsLatest(system.p, Log());
      assert system.Current() == InfoOf(system.p, Log());
    }

    // Whether everything the batch links or cites has been applied.
    method IsLinked(batch: Batch) returns (linked: bool)
      requires Valid()
      ensures linked <==> Linked(Applied(), batch)
    {
      CanonicalLogFacts(Log());
      ghost var s := Applied();
      var links := Required(batch);
      for i := 0 to |links|
        invariant forall l :: l in links[..i] ==> Satisfied(s, batch, l)
      {
        var link := links[i];
        assert links[..i + 1] == links[..i] + [link];
        if !(link.length < batch.length && link.key == batch.key) {
          var has := system.Has(link);
          if !has {
            assert link in Required(batch) && !Satisfied(s, batch, link);
            return false;
          }
        }
      }
      assert links[..|links|] == links;
      return true;
    }

    // Takes a batch from its writer: it must continue where the record of the writer ends.
    method Ingest(batch: Batch) returns (ingested: bool)
      requires Valid() && batch.values != []
      requires Ingestible(Applied(), batch) ==> CitationCovered(Applied() + {batch}, batch)
      modifies this, system
      ensures Valid()
      ensures ingested <==> Ingestible(old(Applied()), batch)
      ensures ingested ==> Log() == Insert(old(Log()), batch) && Applied() == old(Applied()) + {batch}
      ensures !ingested ==> Log() == old(Log()) && undos == old(undos)
    {
      RecordContinues(system.p, Log(), batch);
      var records := system.Records();
      assert Merged(records, system.updates) == records;
      var length := if batch.key in records then records[batch.key] else 0;
      if batch.length != length + 1 {
        return false;
      }
      ingested := IsLinked(batch);
      if ingested {
        ProcessBatch(batch);
      }
    }
  }

  // The writer record says what comes next in the writer's chain.
  lemma RecordContinues<V>(p: Params<V>, log: seq<Batch>, n: Batch)
    requires CanonicalLog(log)
    ensures var lengths := InfoOf(p, log).lengths;
            (n.length >= 1 && NextInChain(Elems(log), n)) <==>
            n.length == (if n.key in lengths then lengths[n.key] else 0) + 1
  {
    CanonicalLogFacts(log);
    RecordsExact(p, log);
    var lengths := InfoOf(p, log).lengths;
    forall x | x in log ensures x.length >= 1 {
      assert x in Elems(log);
    }
    if n.key in lengths {
      ContinuesWriter(log, lengths, n);
    } else {
      StartsWriter(log, lengths, n);
    }
  }

  lemma ContinuesWriter(log: seq<Batch>, lengths: map<Key, nat>, n: Batch)
    requires forall x :: x in log ==> x.values != [] && x.length >= 1
    requires LengthsExact(log, lengths) && n.key in lengths
    ensures NextInChain(Elems(log), n) <==> n.length == lengths[n.key] + 1
  {
    var x :| x in log && x.Tail() == Link(n.key, lengths[n.key]);
    assert x in Elems(log) && x.End() == lengths[n.key] + 1;
    forall y | y in Elems(log) && y.key == n.key
      ensures y.End() <= lengths[n.key] + 1
    {
      assert y in log;
    }
  }

  lemma StartsWriter(log: seq<Batch>, lengths: map<Key, nat>, n: Batch)
    requires forall x :: x in log ==> x.values != []
    requires LengthsExact(log, lengths) && n.key !in lengths
    ensures NextInChain(Elems(log), n) <==> n.length == 1
  {
    assert forall y :: y in Elems(log) ==> y in log;
  }

  // What is left to do: before the first turn the arriving batch, later the rest of the
  // canonical order.
  ghost predicate Scheduled(u: set<Batch>, goal: seq<Batch>, log: seq<Batch>, stack: seq<Batch>, redoing: bool) {
    && World(u) && CitationsCovered(u) && goal == CanonicalOf(u)
    && if redoing then log + Reverse(stack) == goal
       else |stack| == 1 && CanonicalLog(log) && Fresh(Elems(log), stack[0]) && Apart(log, stack[0])
            && Insert(log, stack[0]) == goal
  }

  ghost predicate Fits(u: set<Batch>, goal: seq<Batch>, log: seq<Batch>, next: Batch, rest: seq<Batch>, redoing: bool) {
    && World(u) && CitationsCovered(u) && goal == CanonicalOf(u)
    && (redoing ==> Insert(log, next) == log + [next] && log + [next] + Reverse(rest) == goal)
    && (!redoing ==> rest == [] && Insert(log, next) == goal)
  }

  lemma NextFits(u: set<Batch>, goal: seq<Batch>, log: seq<Batch>, stack: seq<Batch>, redoing: bool)
    requires stack != [] && Scheduled(u, goal, log, stack, redoing)
    ensures var next := stack[|stack| - 1]; CanonicalLog(log) && Fresh(Elems(log), next) && Apart(log, next)
    ensures Fits(u, goal, log, stack[|stack| - 1], stack[..|stack| - 1], redoing)
    ensures !redoing ==> stack == [stack[|stack| - 1]]
  {
    if redoing {
      NextAppends(u, log, stack);
    }
  }

  lemma AfterRewind(u: set<Batch>, goal: seq<Batch>, log: seq<Batch>, at: nat, next: Batch, tip: seq<Batch>,
                    below: seq<Batch>, rest: seq<Batch>, redoing: bool)
    requires Fits(u, goal, log, next, below, redoing) && at < |log|
    requires Insert(log, next) == log[..at] + tip && FirstDifference(log, Insert(log, next), at)
    requires Reverse(rest) == tip + Reverse(below)
    ensures Scheduled(u, goal, log[..at], rest, true) && !redoing && goal != log + [next]
  {
    Differs(log, Insert(log, next), at, next);
    assert tip + [] == tip;
  }

  lemma AfterApply(u: set<Batch>, goal: seq<Batch>, log: seq<Batch>, next: Batch, rest: seq<Batch>, redoing: bool)
    requires Fits(u, goal, log, next, rest, redoing) && Insert(log, next) == log + [next]
    ensures Scheduled(u, goal, log + [next], rest, true)
    ensures !redoing ==> goal == log + [next]
  {
    assert log + [next] + [] == log + [next];
  }

  // The tip goes on the stack in reverse, so that it pops in order.
  method PushReversed(stack: seq<Batch>, tip: seq<Batch>) returns (r: seq<Batch>)
    ensures Reverse(r) == tip + Reverse(stack)
  {
    r := stack;
    for i := |tip| downto 0
      invariant Reverse(r) == tip[i..] + Reverse(stack)
    {
      ReverseAppend(r, tip[i]);
      r := r + [tip[i]];
    }
  }

  lemma Differs(log: seq<Batch>, after: seq<Batch>, at: nat, n: Batch)
    requires FirstDifference(log, after, at) && at < |log|
    ensures after != log + [n]
  {
    assert (log + [n])[at] == log[at];
  }

  // While the tip is being redone, the next batch goes on top.
  lemma NextAppends(u: set<Batch>, log: seq<Batch>, stack: seq<Batch>)
    requires World(u) && CitationsCovered(u) && stack != []
    requires log + Reverse(stack) == CanonicalOf(u)
    ensures var next, rest := stack[|stack| - 1], stack[..|stack| - 1];
            && CanonicalLog(log) && Fresh(Elems(log), next) && Apart(log, next)
            && Insert(log, next) == log + [next]
            && log + [next] + Reverse(rest) == CanonicalOf(u)
  {
    var next, rest := stack[|stack| - 1], stack[..|stack| - 1];
    StackTop(log, stack, CanonicalOf(u));
    CanonicalLogPrefix(u, |log|);
    NextIsFresh(u, |log|);
    RedoOnlyAppends(u, |log|);
  }

  lemma StackTop(log: seq<Batch>, stack: seq<Batch>, goal: seq<Batch>)
    requires stack != [] && log + Reverse(stack) == goal
    ensures var next, rest := stack[|stack| - 1], stack[..|stack| - 1];
            && |log| < |goal| && goal[..|log|] == log && goal[|log|] == next
            && log + [next] + Reverse(rest) == goal
  {
  }

  lemma InsertedLog(log: seq<Batch>, n: Batch)
    requires CanonicalLog(log) && Ingestible(Elems(log), n) && CitationCovered(Elems(log) + {n}, n)
    ensures CanonicalLog(Insert(log, n)) && Elems(Insert(log, n)) == Elems(log) + {n}
  {
    ArrivingBatch(log, n);
    CanonicalArrivals(Elems(log) + {n});
  }

  lemma FinishedLog(u: set<Batch>, log: seq<Batch>)
    requires World(u) && CitationsCovered(u) && log + [] == CanonicalOf(u)
    ensures CanonicalLog(log) && Elems(log) == u
  {
    CanonicalArrivals(u);
    assert log == CanonicalOf(u);
  }

  lemma IngestIsApart(s: set<Batch>, log: seq<Batch>, n: Batch)
    requires DisjointChains(s) && Ingestible(s, n) && s == Elems(log)
    ensures Apart(log, n)
  {
    forall b | b in log
      ensures b.values != [] && b != n && (n.key == b.key ==> b.End() <= n.length || n.End() <= b.length)
    {
      assert b in s;
    }
  }

  // The arriving batch fits on top of the log, and inserting it gives the canonical order.
  lemma ArrivingBatch(log: seq<Batch>, n: Batch)
    requires CanonicalLog(log) && Ingestible(Elems(log), n) && CitationCovered(Elems(log) + {n}, n)
    ensures var u := Elems(log) + {n};
            World(u) && CitationsCovered(u) && Insert(log, n) == CanonicalOf(u)
    ensures Fresh(Elems(log), n) && Apart(log, n)
  {
    var s := Elems(log);
    var u := s + {n};
    IngestKeepsWorld(s, n);
    forall b | b in s ensures CitationCovered(u, b) {
      CoveredSame(s, n, b);
    }
    InsertSettles(s, n);
    IngestIsApart(s, log, n);
  }
}
