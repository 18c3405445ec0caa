// The applied state of lib/system.js: a chain of flushes, each with the batch it applied and
// the frontier, hash, records and view it left behind.
module System {
  import opened Batches
  import opened Graphs
  import opened Universe
  import opened Reference
  import opened Settle
  import opened Gate

  // ----- the state -----

  datatype Info<V> = Info(
    heads: seq<Link>,          // the frontier
    hash: Option<nat>,         // the rolling hash of the applied order
    timestamp: int,            // the largest timestamp applied
    lengths: map<Key, nat>,    // the writer records: how much of each oplog is applied
    flushes: nat,
    view: V)

  // The system bee: every flush keeps the head it was written on.
  datatype Bee<V> = Empty | Flush(tail: Bee<V>, oplog: Batch, info: Info<V>)

  // What the model leaves open: the hash function and the application's apply handler.
  datatype Params<!V> = Params(
    advance: (Option<nat>, Key, nat, int) -> nat,
    apply: (V, Batch) -> V,
    blank: V)

  // node links the given node or a later one of its writer
  predicate IsLinking(node: Node, l: Link) {
    (l.length <= node.length && node.key == l.key)
    || exists k :: k in node.links && l.length <= k.length && k.key == l.key
  }

  predicate IsLinkingAll(node: Node, heads: seq<Link>) {
    forall h :: h in heads ==> IsLinking(node, h)
  }

  // the heads that the node does not link
  function Unlinked(heads: seq<Link>, node: Node): seq<Link> {
    UnlinkedTo(heads, node, |heads|)
  }

  function UnlinkedTo(heads: seq<Link>, node: Node, k: nat): seq<Link>
    requires k <= |heads|
  {
    if k == 0 then [] else UnlinkedTo(heads, node, k - 1) + (if IsLinking(node, heads[k - 1]) then [] else [heads[k - 1]])
  }

  function AddNode<V>(p: Params<V>, s: Info<V>, node: Node): Info<V> {
    s.(heads := Unlinked(s.heads, node) + [Link(node.key, node.length)],
       timestamp := if node.timestamp > s.timestamp then node.timestamp else s.timestamp,
       hash := Some(p.advance(s.hash, node.key, node.length, node.weight)),
       lengths := s.lengths[node.key :=
         if node.key in s.lengths && node.length <= s.lengths[node.key] then s.lengths[node.key] else node.length])
  }

  // the first i members of a batch, added one by one
  function AddMembers<V>(p: Params<V>, s: Info<V>, b: Batch, i: nat): Info<V>
    requires i <= |b.values|
  {
    if i == 0 then s else AddNode(p, AddMembers(p, s, b, i - 1), Member(b, i - 1))
  }

  // the state after a batch is applied and flushed
  function Applied<V>(p: Params<V>, s: Info<V>, b: Batch): Info<V> {
    var t := AddMembers(p, s, b, |b.values|);
    t.(flushes := t.flushes + 1, view := p.apply(t.view, b))
  }

  function Start<V>(p: Params<V>): Info<V> {
    Info([], None, 0, map[], 0, p.blank)
  }

  // the state is a fold over the applied log
  function InfoOf<V>(p: Params<V>, log: seq<Batch>): Info<V> {
    if log == [] then Start(p) else Applied(p, InfoOf(p, log[..|log| - 1]), log[|log| - 1])
  }

  function Snapshot<V>(p: Params<V>, log: seq<Batch>): Bee<V> {
    if log == [] then Empty
    else Flush(Snapshot(p, log[..|log| - 1]), log[|log| - 1], InfoOf(p, log))
  }

  function Log<V>(bee: Bee<V>): seq<Batch> {
    match bee
    case Empty => []
    case Flush(tail, oplog, _) => Log(tail) + [oplog]
  }

  lemma {:induction false} LogOfSnapshot<V>(p: Params<V>, log: seq<Batch>)
    ensures Log(Snapshot(p, log)) == log
  {
    if log != [] {
      var front, b := log[..|log| - 1], log[|log| - 1];
      LogOfSnapshot(p, front);
      assert Log(Snapshot(p, log)) == Log(Snapshot(p, front)) + [b];
      assert log == front + [b];
    }
  }

  // the heads of the chain of flushes: below the log, and after each of its batches
  ghost function Snapshots<V>(p: Params<V>, log: seq<Batch>): seq<Bee<V>> {
    seq(|log| + 1, i requires 0 <= i <= |log| => Snapshot(p, log[..i]))
  }

  lemma SnapshotTop<V>(p: Params<V>, log: seq<Batch>, i: nat)
    requires i < |log|
    ensures var s := Snapshot(p, log[..i + 1]);
            s.Flush? && s.oplog == log[i] && s.tail == Snapshot(p, log[..i])
  {
    assert log[..i + 1][..i] == log[..i];
  }

  // ----- heads -----

  // Some batch of the log other than x links the last node of x.
  ghost predicate TailLinked(log: seq<Batch>, x: Batch)
    requires x.values != []
  {
    exists y :: y in log && y.values != [] && y != x && IsLinking(Member(y, 0), x.Tail())
  }

  // heads are the last nodes of the batches whose last node no other batch links
  ghost predicate HeadsExact(log: seq<Batch>, heads: seq<Link>)
    requires forall x :: x in log ==> x.values != []
  {
    && (forall h :: h in heads <==> exists x :: x in log && h == x.Tail() && !TailLinked(log, x))
    && OnePerWriter(heads)
  }

  lemma {:induction false} UnlinkedToAppend(heads: seq<Link>, h: Link, node: Node, k: nat)
    requires k <= |heads|
    ensures UnlinkedTo(heads + [h], node, k) == UnlinkedTo(heads, node, k)
  {
    if k > 0 {
      UnlinkedToAppend(heads, h, node, k - 1);
    }
  }

  lemma UnlinkedAppend(heads: seq<Link>, h: Link, node: Node)
    ensures Unlinked(heads + [h], node) == Unlinked(heads, node) + (if IsLinking(node, h) then [] else [h])
  {
    UnlinkedToAppend(heads, h, node, |heads|);
  }

  lemma {:induction false} UnlinkedMembers(heads: seq<Link>, node: Node)
    ensures forall h :: h in Unlinked(heads, node) <==> h in heads && !IsLinking(node, h)
    decreases |heads|
  {
    if heads != [] {
      var front, h := heads[..|heads| - 1], heads[|heads| - 1];
      assert heads == front + [h];
      UnlinkedMembers(front, node);
      UnlinkedAppend(front, h, node);
    }
  }

  ghost predicate OnePerWriter(heads: seq<Link>) {
    forall i, j :: 0 <= i < j < |heads| ==> heads[i].key != heads[j].key
  }

  lemma {:induction false} UnlinkedOnePerWriter(heads: seq<Link>, node: Node)
    requires OnePerWriter(heads)
    ensures OnePerWriter(Unlinked(heads, node))
    decreases |heads|
  {
    if heads != [] {
      var front, h := heads[..|heads| - 1], heads[|heads| - 1];
      assert heads == front + [h];
      UnlinkedOnePerWriter(front, node);
      UnlinkedMembers(front, node);
      UnlinkedAppend(front, h, node);
      assert forall k :: k in front ==> k.key != h.key;
    }
  }

  lemma {:induction false} UnlinkedNothing(heads: seq<Link>, node: Node)
    requires forall h :: h in heads ==> !IsLinking(node, h)
    ensures Unlinked(heads, node) == heads
    decreases |heads|
  {
    if heads != [] {
      var front, h := heads[..|heads| - 1], heads[|heads| - 1];
      assert heads == front + [h];
      UnlinkedNothing(front, node);
      UnlinkedAppend(front, h, node);
    }
  }

  function HeadsAfter(heads: seq<Link>, b: Batch, i: nat): seq<Link>
    requires i <= |b.values|
  {
    if i == 0 then heads else Unlinked(HeadsAfter(heads, b, i - 1), Member(b, i - 1)) + [Link(b.key, b.length + i - 1)]
  }

  lemma {:induction false} AddMembersHeads<V>(p: Params<V>, s: Info<V>, b: Batch, i: nat)
    requires i <= |b.values|
    ensures AddMembers(p, s, b, i).heads == HeadsAfter(s.heads, b, i)
  {
    if i > 0 {
      AddMembersHeads(p, s, b, i - 1);
    }
  }

  lemma MemberReplaces(kept: seq<Link>, b: Batch, i: nat)
    requires 0 < i < |b.values|
    requires forall h :: h in kept ==> !IsLinking(Member(b, i), h)
    ensures Unlinked(kept + [Link(b.key, b.length + i - 1)], Member(b, i)) == kept
  {
    UnlinkedNothing(kept, Member(b, i));
    UnlinkedAppend(kept, Link(b.key, b.length + i - 1), Member(b, i));
  }

  // The members of a batch replace one another at the head of their writer.
  lemma {:induction false} HeadsAfterMembers(heads: seq<Link>, b: Batch, i: nat)
    requires 1 <= i <= |b.values|
    requires forall h :: h in heads && h.key == b.key ==> h.length < b.length
    ensures HeadsAfter(heads, b, i) == Unlinked(heads, Member(b, 0)) + [Link(b.key, b.length + i - 1)]
    decreases i
  {
    if i > 1 {
      HeadsAfterMembers(heads, b, i - 1);
      OwnKeyGone(heads, b);
      MemberReplaces(Unlinked(heads, Member(b, 0)), b, i - 1);
    }
  }

  lemma OwnKeyGone(heads: seq<Link>, b: Batch)
    requires b.values != []
    requires forall h :: h in heads && h.key == b.key ==> h.length < b.length
    ensures forall h, i :: h in Unlinked(heads, Member(b, 0)) && 0 < i < |b.values| ==> !IsLinking(Member(b, i), h)
  {
    UnlinkedMembers(heads, Member(b, 0));
  }

  lemma AppliedHeads<V>(p: Params<V>, s: Info<V>, b: Batch)
    requires b.values != []
    requires forall h :: h in s.heads && h.key == b.key ==> h.length < b.length
    ensures Applied(p, s, b).heads == Unlinked(s.heads, Member(b, 0)) + [b.Tail()]
  {
    AddMembersHeads(p, s, b, |b.values|);
    HeadsAfterMembers(s.heads, b, |b.values|);
  }

  // a log that lists causes first
  ghost predicate CausalLog(log: seq<Batch>) {
    CausalArrivals(log) && DisjointChains(Elems(log))
  }

  lemma CausalLogFront(log: seq<Batch>) returns (front: seq<Batch>, n: Batch)
    requires CausalLog(log) && log != []
    ensures front == log[..|log| - 1] && n == log[|log| - 1] && log == front + [n]
    ensures CausalLog(front) && Fresh(Elems(front), n) && n.values != [] && n.length >= 1
    ensures forall x :: x in front ==> x.values != [] && x.length >= 1
    ensures forall x :: x in front && x.key == n.key ==> x.End() <= n.length
    ensures forall x :: x in front ==> !IsLinking(Member(x, 0), n.Tail())
  {
    front, n := ArrivalsFront(log);
    assert log == front + [n];
    assert n in Elems(log);
    forall x | x in front
      ensures x in Elems(log) && x in Elems(front)
    {
    }
    forall x | x in front && x.key == n.key
      ensures x.End() <= n.length
    {
      assert !DependsOn(x, n);
      assert x.End() <= n.length || n.End() <= x.length;
    }
    forall x | x in front
      ensures !IsLinking(Member(x, 0), n.Tail())
    {
      assert !DependsOn(x, n);
      assert !CoveredBy(x.links, n);
    }
  }

  // The frontier is exactly the set of applied nodes that no applied batch links.
  lemma {:induction false} HeadsAreFrontier<V>(p: Params<V>, log: seq<Batch>)
    requires CausalLog(log)
    ensures forall x :: x in log ==> x.values != []
    ensures HeadsExact(log, InfoOf(p, log).heads)
    decreases |log|
  {
    forall x | x in log ensures x.values != [] {
      assert x in Elems(log);
    }
    if log != [] {
      var front, n := CausalLogFront(log);
      HeadsAreFrontier(p, front);
      var s := InfoOf(p, front);
      forall h | h in s.heads && h.key == n.key
        ensures h.length < n.length
      {
        var x :| x in front && h == x.Tail() && !TailLinked(front, x);
      }
      AppliedHeads(p, s, n);
      UnlinkedMembers(s.heads, Member(n, 0));
      UnlinkedOnePerWriter(s.heads, Member(n, 0));
      HeadsNext(front, n, s.heads, Unlinked(s.heads, Member(n, 0)));
    }
  }

  // no other batch of the log is a later one of x's writer, or links its last node or beyond
  ghost predicate Unreached(log: seq<Batch>, x: Batch) {
    forall y :: y in log && y != x ==>
      (y.key == x.key ==> y.length < x.End() - 1) &&
      forall l :: l in y.links && l.key == x.key ==> l.length < x.End() - 1
  }

  // In other words: a node is a head if and only if it is the last of a batch that none reaches.
  lemma HeadsAreUnreached<V>(p: Params<V>, log: seq<Batch>)
    requires CausalLog(log)
    ensures forall x :: x in log ==> x.values != []
    ensures forall h :: h in InfoOf(p, log).heads <==>
              exists x :: x in log && h == Link(x.key, x.length + |x.values| - 1) && Unreached(log, x)
  {
    HeadsAreFrontier(p, log);
    forall x | x in log ensures TailLinked(log, x) <==> !Unreached(log, x) {
      forall y | y in log && y != x
        ensures IsLinking(Member(y, 0), x.Tail()) <==>
                !((y.key == x.key ==> y.length < x.End() - 1) &&
                  forall l :: l in y.links && l.key == x.key ==> l.length < x.End() - 1)
      {
      }
    }
  }

  lemma OwnTailLinked(x: Batch, n: Batch)
    requires x.values != [] && n.values != []
    ensures x.key == n.key && x.End() <= n.length ==> IsLinking(Member(n, 0), x.Tail())
  {
  }

  lemma HeadsNext(front: seq<Batch>, n: Batch, before: seq<Link>, kept: seq<Link>)
    requires CausalLog(front + [n])
    requires forall x :: x in front + [n] ==> x.values != []
    requires HeadsExact(front, before) && OnePerWriter(kept)
    requires forall h :: h in kept <==> h in before && !IsLinking(Member(n, 0), h)
    ensures HeadsExact(front + [n], kept + [n.Tail()])
  {
    var log := front + [n];
    var f, m := CausalLogFront(log);
    assert f == front;
    forall x | x in front
      ensures TailLinked(log, x) <==> TailLinked(front, x) || IsLinking(Member(n, 0), x.Tail())
    {
      TailLinkedNext(front, n, x);
    }
    assert !TailLinked(log, n);
    forall h | h in kept
      ensures h.key != n.key
    {
      var x :| x in front && h == x.Tail() && !TailLinked(front, x);
      OwnTailLinked(x, n);
    }
    forall h | h in kept + [n.Tail()]
      ensures exists x :: x in log && h == x.Tail() && !TailLinked(log, x)
    {
      if h in kept {
        var x :| x in front && h == x.Tail() && !TailLinked(front, x);
        assert x in log;
      } else {
        assert n in log;
      }
    }
  }

  lemma TailLinkedNext(front: seq<Batch>, n: Batch, x: Batch)
    requires x in front && x != n && x.values != [] && n.values != []
    ensures TailLinked(front + [n], x) <==> TailLinked(front, x) || IsLinking(Member(n, 0), x.Tail())
  {
    if TailLinked(front, x) {
      var y :| y in front && y.values != [] && y != x && IsLinking(Member(y, 0), x.Tail());
      assert y in front + [n];
    }
    if IsLinking(Member(n, 0), x.Tail()) {
      assert n in front + [n];
    }
  }

  // ----- writer records -----

  // lengths holds, for every writer in the log, the position of its last applied node
  ghost predicate LengthsExact(log: seq<Batch>, lengths: map<Key, nat>)
    requires forall x :: x in log ==> x.values != []
  {
    && (forall x :: x in log ==> x.key in lengths && x.Tail().length <= lengths[x.key])
    && (forall k :: k in lengths ==> exists x :: x in log && x.Tail() == Link(k, lengths[k]))
  }

  lemma {:induction false} AddMembersLengths<V>(p: Params<V>, s: Info<V>, b: Batch, i: nat)
    requires 1 <= i <= |b.values|
    requires b.key in s.lengths ==> s.lengths[b.key] < b.length
    ensures AddMembers(p, s, b, i).lengths == s.lengths[b.key := b.length + i - 1]
    decreases i
  {
    var t := AddMembers(p, s, b, i - 1);
    assert AddMembers(p, s, b, i) == AddNode(p, t, Member(b, i - 1));
    if i > 1 {
      AddMembersLengths(p, s, b, i - 1);
    } else {
      assert t == s;
    }
  }

  lemma {:induction false} RecordsExact<V>(p: Params<V>, log: seq<Batch>)
    requires CausalLog(log)
    ensures forall x :: x in log ==> x.values != []
    ensures LengthsExact(log, InfoOf(p, log).lengths)
    decreases |log|
  {
    forall x | x in log ensures x.values != [] {
      assert x in Elems(log);
    }
    if log != [] {
      var front, n := CausalLogFront(log);
      RecordsExact(p, front);
      var lengths := InfoOf(p, front).lengths;
      RecordBelow(front, lengths, n);
      AppliedLengths(p, InfoOf(p, front), n);
      LengthsNext(front, n, lengths);
    }
  }

  lemma RecordBelow(front: seq<Batch>, lengths: map<Key, nat>, n: Batch)
    requires forall x :: x in front ==> x.values != [] && (x.key == n.key ==> x.End() <= n.length)
    requires LengthsExact(front, lengths)
    ensures n.key in lengths ==> lengths[n.key] < n.length
  {
    if n.key in lengths {
      var x :| x in front && x.Tail() == Link(n.key, lengths[n.key]);
    }
  }

  lemma AppliedLengths<V>(p: Params<V>, s: Info<V>, n: Batch)
    requires n.values != [] && (n.key in s.lengths ==> s.lengths[n.key] < n.length)
    ensures Applied(p, s, n).lengths == s.lengths[n.key := n.End() - 1]
  {
    AddMembersLengths(p, s, n, |n.values|);
  }

  lemma LengthsNext(front: seq<Batch>, n: Batch, lengths: map<Key, nat>)
    requires n.values != [] && forall x :: x in front ==> x.values != [] && (x.key == n.key ==> x.End() <= n.length)
    requires LengthsExact(front, lengths)
    ensures LengthsExact(front + [n], lengths[n.key := n.End() - 1])
  {
    var log, after := front + [n], lengths[n.key := n.End() - 1];
    assert forall x :: x in log <==> x in front || x == n;
    forall k | k in after
      ensures exists x :: x in log && x.Tail() == Link(k, after[k])
    {
      if k == n.key {
        assert n.Tail() == Link(k, after[k]);
      } else {
        var x :| x in front && x.Tail() == Link(k, lengths[k]);
        assert x in log;
      }
    }
  }

  // A head holds the last applied node of its writer.
  lemma HeadIsLatest(log: seq<Batch>, heads: seq<Link>, lengths: map<Key, nat>, h: Link)
    requires CausalLog(log) && forall x :: x in log ==> x.values != []
    requires HeadsExact(log, heads) && LengthsExact(log, lengths) && h in heads
    ensures h.key in lengths && lengths[h.key] == h.length
  {
    var x :| x in log && h == x.Tail() && !TailLinked(log, x);
    var y :| y in log && y.Tail() == Link(h.key, lengths[h.key]);
    assert x in Elems(log) && y in Elems(log);
    if y != x {
      assert x.End() <= y.length || y.End() <= x.length;
      OwnTailLinked(x, y);
    }
  }

  // The records answer whether a node has been applied.
  lemma RecordAnswers(log: seq<Batch>, lengths: map<Key, nat>, l: Link)
    requires forall x :: x in log ==> x.values != []
    requires LengthsExact(log, lengths)
    ensures HasNode(Elems(log), l) <==> l.key in lengths && l.length <= lengths[l.key]
  {
    if l.key in lengths && l.length <= lengths[l.key] {
      var x :| x in log && x.Tail() == Link(l.key, lengths[l.key]);
      assert x in Elems(log);
    }
  }

  // ----- the fast path -----

  // A batch whose head links every head has the whole applied set in its past.
  lemma LinkingAllSeesAll<V>(p: Params<V>, log: seq<Batch>, n: Batch)
    requires CausalLog(log) && Acyclic(Elems(log)) && Fresh(Elems(log), n) && n.values != []
    requires IsLinkingAll(Member(n, 0), InfoOf(p, log).heads)
    ensures Elems(log) <= Past(Elems(log) + {n}, n)
  {
    var s := Elems(log);
    var g := CausalGraph(s);
    CausalGraphIsCausal(s);
    HeadsAreFrontier(p, log);
    FreshPast(s, n);
    forall x | x in s
      ensures x in Past(s + {n}, n)
    {
      var m := MaximalAbove(g, s, x);
      MaximalIsHead(log, m);
      assert m.Tail() in InfoOf(p, log).heads;
      LinkedTailInPast(s, n, m);
      if x != m {
        ReachTransitive(DependencyTable(s + {n}), n, m);
      }
    }
  }

  lemma MaximalIsHead(log: seq<Batch>, m: Batch)
    requires Acyclic(Elems(log)) && IsMaximal(CausalGraph(Elems(log)), Elems(log), m)
    requires DisjointChains(Elems(log))
    ensures m in log && m.values != [] && !TailLinked(log, m)
  {
    forall y | y in log && y.values != [] && y != m
      ensures !IsLinking(Member(y, 0), m.Tail())
    {
      LinkedTailLinks(y, m);
      ReachClosed(DependencyTable(Elems(log)), y);
      assert y in Elems(log);
    }
  }

  lemma LinkedTailLinks(y: Batch, m: Batch)
    requires y.values != [] && m.values != [] && y != m
    ensures IsLinking(Member(y, 0), m.Tail()) ==> Links(y, m)
  {
    if k :| k in y.links && m.Tail().length <= k.length && k.key == m.key {
      assert Covers(k, m);
    }
  }

  lemma LinkedTailInPast(s: set<Batch>, n: Batch, m: Batch)
    requires m in s && n !in s && n.values != [] && m.values != []
    requires IsLinking(Member(n, 0), m.Tail())
    ensures m in Past(s + {n}, n)
  {
    LinkedTailLinks(n, m);
    ReachClosed(DependencyTable(s + {n}), n);
  }
}
