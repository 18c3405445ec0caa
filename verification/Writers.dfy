// The writer records and the promotion indexes of lib/system.js as batches are applied.
module Writers {
  import opened Batches
  import opened Witness
  import opened Events
  import opened Weights
  import P = Promotions

  // A batch as the records see it: approvals of each of its nodes, and the handler's calls.
  datatype Item = Item(
    key: Key, length: nat, claim: Option<Claim>, approvals: seq<seq<Approval>>, calls: seq<Call>, optimistic: bool)

  // What happens when a batch is applied after so many events.
  ghost function BatchEvents(g: Genesis, item: Item, weight: int, before: nat): seq<Event> {
    (if item.key == g.key && item.length == 1 then [Found(g.key, g.weight)] else [])
    + NodeEvents(Link(item.key, item.length), weight, item.approvals, |item.approvals|)
    + CallEvents(weight, item.calls, |item.calls|)
    + (if item.optimistic then [Ack(item.key, before)] else [])
  }

  // What has happened once the first n batches have been applied with these weights.
  ghost function LogEvents(g: Genesis, before: seq<Event>, items: seq<Item>, weights: seq<int>, n: nat): seq<Event>
    requires n <= |items| && n <= |weights|
  {
    if n == 0 then before
    else
      var all := LogEvents(g, before, items, weights, n - 1);
      all + BatchEvents(g, items[n - 1], weights[n - 1], |all|)
  }

  ghost function LogEnds(g: Genesis, before: seq<Event>, ends: seq<nat>, items: seq<Item>, weights: seq<int>, n: nat)
    : seq<nat>
    requires n <= |items| && n <= |weights|
  {
    if n == 0 then ends
    else LogEnds(g, before, ends, items, weights, n - 1) + [|LogEvents(g, before, items, weights, n)|]
  }

  lemma {:induction false} LogPrefix(g: Genesis, before: seq<Event>, ends: seq<nat>, items: seq<Item>,
                                     weights: seq<int>, w: int, n: nat)
    requires n <= |items| && n <= |weights|
    ensures LogEvents(g, before, items, weights + [w], n) == LogEvents(g, before, items, weights, n)
    ensures LogEnds(g, before, ends, items, weights + [w], n) == LogEnds(g, before, ends, items, weights, n)
  {
    if n > 0 {
      LogPrefix(g, before, ends, items, weights, w, n - 1);
    }
  }

  lemma LogNext(g: Genesis, before: seq<Event>, ends: seq<nat>, items: seq<Item>, weights: seq<int>, w: int, n: nat)
    requires n < |items| && n == |weights|
    ensures var all := LogEvents(g, before, items, weights, n);
            var next := all + BatchEvents(g, items[n], w, |all|);
            && LogEvents(g, before, items, weights + [w], n + 1) == next
            && LogEnds(g, before, ends, items, weights + [w], n + 1) == LogEnds(g, before, ends, items, weights, n) + [|next|]
  {
    LogPrefix(g, before, ends, items, weights, w, n);
  }

  class WriterTable {
    const g: Genesis
    var records: Records
    var updates: Deltas
    var hints: P.Hints
    var requests: P.Requests
    ghost var all: seq<Event>    // everything that has happened
    ghost var ends: seq<nat>     // where the batches end

    ghost function BatchStart(): nat
      reads this
    {
      From(ends, |ends|)
    }

    // Nothing exceeds the founding weight.
    ghost predicate Within()
      reads this
    {
      && Bounded(g, records)
      && (forall k :: k in updates ==> DeltaBounded(g, Get(records, k), updates[k]))
      && (forall k :: k in hints ==> hints[k].weight <= g.weight)
    }

    // Records, updates and indexes tell what happened.
    ghost predicate Told()
      reads this
    {
      && Ends(all, ends)
      && (forall k :: Tells(all, BatchStart(), k, Get(records, k), Pending(k)))
      && (forall k :: Indexed(all, ends, k, hints, requests))
    }

    ghost predicate Valid()
      reads this
    {
      Within() && Told()
    }

    // Everything has been flushed.
    ghost predicate Rested()
      reads this
    {
      updates == map[] && BatchStart() == |all|
    }

    ghost function Pending(k: Key): Option<Delta>
      reads this
    {
      GetDelta(updates, k)
    }

    constructor (g: Genesis)
      ensures Valid() && Rested() && this.g == g && records == map[]
      ensures hints == map[] && requests == map[] && all == [] && ends == []
    {
      this.g := g;
      records, updates, hints, requests := map[], map[], map[], map[];
      all, ends := [], [];
    }

    // One event, and what it adds to the update of its writer.
    method Update(k: Key, u: Delta, ghost e: Event)
      requires Valid() && DeltaBounded(g, Get(records, k), u) && e.key == k
      requires Tells(all + [e], BatchStart(), k, Get(records, k), Merged(Pending(k), u))
      modifies this`updates, this`all
      ensures Valid() && all == old(all) + [e]
      ensures updates == old(updates)[k := Merged(old(Pending(k)), u).value]
    {
      var d := if k in updates then updates[k] else NO_CHANGE;
      MergeBounded(g, Get(records, k), d, u);
      Happens(e);
      updates := updates[k := Merge(d, u)];
      all := all + [e];
    }

    // What an event leaves as it was.
    lemma Happens(e: Event)
      requires Told()
      ensures Ends(all + [e], ends)
      ensures forall k :: k != e.key ==> Tells(all + [e], BatchStart(), k, Get(records, k), Pending(k))
      ensures forall k :: Indexed(all + [e], ends, k, hints, requests)
    {
      forall k | k != e.key ensures Tells(all + [e], BatchStart(), k, Get(records, k), Pending(k)) {
        TellsOther(all, BatchStart(), e, k, Get(records, k), Pending(k));
      }
      forall k ensures Indexed(all + [e], ends, k, hints, requests) {
        assert Indexed(all, ends, k, hints, requests);
        AfterPrefix(all, [e], ends, |ends|, k);
      }
    }

    method AddWriter(k: Key, weight: nat, grantor: Grantor)
      requires Valid()
      requires if grantor.Founding? then weight == g.weight else grantor.carrier <= g.weight
      modifies this`updates, this`all
      ensures Valid() && Raised(old(updates), updates)
      ensures all == old(all) + [GrantEvent(k, weight, grantor)]
    {
      var rec := Get(records, k);
      var d := if k in updates then Some(updates[k]) else None;
      ghost var e := GrantEvent(k, weight, grantor);
      AddWriterBounded(g, rec, d, weight, grantor);
      TellsGrant(g, all, BatchStart(), e, rec, d, weight, grantor);
      var u := AddWriterUpdate(rec, d, weight, grantor);
      if Skips(rec, d, u) {
        Happens(e);
        all := all + [e];
        return;
      }
      Update(k, u, e);
    }

    method AddNode(k: Key, weight: int)
      requires Valid() && 0 <= weight <= g.weight && CurrentWeight(Get(records, k)) <= weight
      modifies this`updates, this`all
      ensures Valid() && all == old(all) + [Write(k, weight)]
      ensures Raised(old(updates), updates) && k in updates && weight <= updates[k].weight
    {
      TellsWrite(g, all, BatchStart(), Write(k, weight), Get(records, k), Pending(k));
      Update(k, NO_CHANGE.(weight := weight), Write(k, weight));
    }

    // Removal takes the standing away, but not the weight.
    method RemoveWriter(k: Key)
      requires Valid()
      modifies this`updates, this`all
      ensures Valid() && Raised(old(updates), updates) && all == old(all) + [Drop(k)]
    {
      TellsDrop(all, BatchStart(), Drop(k), Get(records, k), Pending(k));
      Update(k, NO_CHANGE.(maxWeight := 0, isRemoved := true), Drop(k));
    }

    method AddAnchor(k: Key)
      requires Valid()
      modifies this`updates, this`all
      ensures Valid() && Raised(old(updates), updates) && all == old(all) + [Anchor(k)]
    {
      TellsAnchor(all, BatchStart(), Anchor(k), Get(records, k), Pending(k));
      Update(k, NO_CHANGE.(isAdded := true), Anchor(k));
    }

    // An optimistic batch is consumed: its writer counts as removed unless it was granted.
    method AckWriter(k: Key)
      requires Valid()
      modifies this`updates, this`all
      ensures Valid() && Raised(old(updates), updates) && all == old(all) + [Ack(k, BatchStart())]
    {
      var touched := k in updates && (updates[k].isAdded || updates[k].isRemoved);
      var granted := if touched then updates[k].isAdded else k in records && !records[k].isRemoved;
      TellsAck(all, BatchStart(), Ack(k, BatchStart()), Get(records, k), Pending(k), granted);
      Update(k, NO_CHANGE.(isRemoved := !granted), Ack(k, BatchStart()));
    }

    // Writes every pending update: the records, the hints and the requests.
    method Flush()
      requires Valid()
      modifies this
      ensures Valid() && Rested() && all == old(all) && ends == old(ends) + [|all|]
      ensures Flushed(old(records), old(updates), records)
    {
      ghost var before := Table(records, hints, requests);
      var todo := updates.Keys;
      while todo != {}
        invariant todo <= updates.Keys && updates == old(updates) && all == old(all) && ends == old(ends)
        invariant forall k :: Written1(before, updates, updates.Keys - todo, k, Table(records, hints, requests))
        decreases todo
      {
        var k :| k in todo;
        WriteOne(before, updates.Keys - todo, k);
        assert updates.Keys - (todo - {k}) == updates.Keys - todo + {k};
        todo := todo - {k};
      }
      assert updates.Keys - {} == updates.Keys;
      FlushTells(all, ends, before, updates, Table(records, hints, requests));
      FlushWithin(g, before, updates, Table(records, hints, requests));
      updates := map[];
      ends := ends + [|all|];
    }

    method WriteOne(ghost before: Table, ghost done: set<Key>, k: Key)
      requires k in updates && k !in done
      requires forall j :: Written1(before, updates, done, j, Table(records, hints, requests))
      modifies this`records, this`hints, this`requests
      ensures forall j :: Written1(before, updates, done + {k}, j, Table(records, hints, requests))
    {
      var d := updates[k];
      var upd := P.Update(k, d.grant, d.pending, d.isRemoved);
      ghost var was := Table(records, hints, requests);
      assert Written1(before, updates, done, k, was);
      SameAt(before.hints, before.requests, hints, requests, upd);
      var hint, request := P.HintAfter(hints, upd), P.RequestAfter(hints, requests, upd);
      records := records[k := RecordAfter(Get(records, k), d)];
      hints, requests := P.Set(hints, k, hint), P.Set(requests, k, request);
      forall j ensures Written1(before, updates, done + {k}, j, Table(records, hints, requests)) {
        assert Written1(before, updates, done, j, was);
      }
    }

    // Applies one batch: resolve, found if it is the founding node, record its nodes, carry out
    // its approvals and the handler's calls, and flush.
    method ApplyBatch(item: Item, oplogs: Oplogs) returns (weight: int)
      requires Valid() && Rested() && item.approvals != []
      modifies this
      ensures Valid() && Rested()
      ensures weight == ResolveWeight(g, old(records), oplogs, Link(item.key, item.length), item.claim)
      ensures 0 <= weight <= g.weight
      ensures all == old(all) + BatchEvents(g, item, weight, old(BatchStart())) && ends == old(ends) + [|all|]
      ensures NeverFalls(old(records), records)
      ensures item.key in records && weight <= records[item.key].weight
    {
      var node := Link(item.key, item.length);
      weight := ResolveWeight(g, records, oplogs, node, item.claim);
      ResolvedWithin(g, records, oplogs, node, item.claim);
      ApplyEvents(item, weight);
      ghost var before, deltas := records, updates;
      Flush();
      RecordsNeverFall(g, before, deltas, records);
    }

    method ApplyEvents(item: Item, weight: int)
      requires Valid() && 0 <= weight <= g.weight && CurrentWeight(Get(records, item.key)) <= weight
      requires item.approvals != []
      modifies this`updates, this`all
      ensures Valid() && all == old(all) + BatchEvents(g, item, weight, BatchStart())
      ensures item.key in updates && weight <= updates[item.key].weight
    {
      ghost var before := all;
      FoundFirst(item);
      ApplyNodes(item.key, item.length, weight, item.approvals);
      ApplyCalls(weight, item.calls);
      AckLast(item);
      Concat(before, if item.key == g.key && item.length == 1 then [Found(g.key, g.weight)] else [],
             NodeEvents(Link(item.key, item.length), weight, item.approvals, |item.approvals|),
             CallEvents(weight, item.calls, |item.calls|),
             if item.optimistic then [Ack(item.key, BatchStart())] else []);
    }

    method FoundFirst(item: Item)
      requires Valid()
      modifies this`updates, this`all
      ensures Valid() && Raised(old(updates), updates)
      ensures all == old(all) + if item.key == g.key && item.length == 1 then [Found(g.key, g.weight)] else []
    {
      if item.key == g.key && item.length == 1 {
        AddWriter(g.key, g.weight, Founding);
      }
    }

    method AckLast(item: Item)
      requires Valid()
      modifies this`updates, this`all
      ensures Valid() && Raised(old(updates), updates)
      ensures all == old(all) + if item.optimistic then [Ack(item.key, BatchStart())] else []
    {
      if item.optimistic {
        AckWriter(item.key);
      }
    }

    method ApplyNodes(k: Key, length: nat, weight: int, approvals: seq<seq<Approval>>)
      requires Valid() && 0 <= weight <= g.weight && CurrentWeight(Get(records, k)) <= weight
      requires approvals != []
      modifies this`updates, this`all
      ensures Valid() && Raised(old(updates), updates)
      ensures all == old(all) + NodeEvents(Link(k, length), weight, approvals, |approvals|)
      ensures k in updates && weight <= updates[k].weight
    {
      ghost var before, start := all, updates;
      for i := 0 to |approvals|
        invariant Valid() && Raised(start, updates)
        invariant all == before + NodeEvents(Link(k, length), weight, approvals, i)
        invariant i > 0 ==> k in updates && weight <= updates[k].weight
      {
        ghost var last := updates;
        ApplyNode(k, length, weight, approvals, i, before);
        RaisedOn(start, last, updates);
      }
    }

    method ApplyNode(k: Key, length: nat, weight: int, approvals: seq<seq<Approval>>, i: nat, ghost before: seq<Event>)
      requires Valid() && 0 <= weight <= g.weight && CurrentWeight(Get(records, k)) <= weight
      requires i < |approvals| && all == before + NodeEvents(Link(k, length), weight, approvals, i)
      modifies this`updates, this`all
      ensures Valid() && Raised(old(updates), updates)
      ensures all == before + NodeEvents(Link(k, length), weight, approvals, i + 1)
      ensures k in updates && weight <= updates[k].weight
    {
      AddNode(k, weight);
      ApplyApprovals(Link(k, length + i), weight, approvals[i]);
      NodeAppended(before, k, length, weight, approvals, i, all);
    }

    method ApplyApprovals(place: Link, weight: int, approvals: seq<Approval>)
      requires Valid() && weight <= g.weight
      modifies this`updates, this`all
      ensures Valid() && Raised(old(updates), updates)
      ensures all == old(all) + ApprovalEvents(place, weight, approvals, |approvals|)
    {
      for i := 0 to |approvals|
        invariant Valid() && Raised(old(updates), updates)
        invariant all == old(all) + ApprovalEvents(place, weight, approvals, i)
      {
        AddWriter(approvals[i].key, approvals[i].weight, Carried(weight, Some(place)));
      }
    }

    method ApplyCalls(weight: int, calls: seq<Call>)
      requires Valid() && weight <= g.weight
      modifies this`updates, this`all
      ensures Valid() && Raised(old(updates), updates)
      ensures all == old(all) + CallEvents(weight, calls, |calls|)
    {
      for i := 0 to |calls|
        invariant Valid() && Raised(old(updates), updates)
        invariant all == old(all) + CallEvents(weight, calls, i)
      {
        match calls[i]
        case AddWriter(k, w) => AddWriter(k, w, Carried(weight, None));
        case RemoveWriter(k) => RemoveWriter(k);
        case AddAnchor(k) => AddAnchor(k);
      }
    }

    // A whole log. Whatever it holds, in the end every record is exactly what the batches and the
    // weights they resolved to say, and so is every hint and every request.
    method ApplyLog(items: seq<Item>, oplogs: Oplogs) returns (weights: seq<int>)
      requires Valid() && Rested() && forall i :: i in items ==> i.approvals != []
      modifies this
      ensures Valid() && Rested()
      ensures |weights| == |items| && forall w :: w in weights ==> 0 <= w <= g.weight
      ensures all == LogEvents(g, old(all), items, weights, |items|)
      ensures ends == LogEnds(g, old(all), old(ends), items, weights, |items|)
      ensures forall k :: k in records <==> Mentioned(all, |all|, k)
      ensures forall k :: k in records ==>
                && records[k].maxWeight == Level(all, |all|, k)
                && records[k].weight == Written(all, |all|, k)
                && (records[k].isRemoved <==> Out(all, |all|, k))
      ensures Ends(all, ends)
      ensures forall k :: P.Get(hints, k) == HintAfter(all, ends, |ends|, k)
      ensures forall k :: P.Get(requests, k) == RequestAfter(all, ends, |ends|, k)
      ensures NeverFalls(old(records), records)
      ensures forall i :: 0 <= i < |items| ==> items[i].key in records && weights[i] <= records[items[i].key].weight
    {
      weights := ApplyAll(items, oplogs);
      TableTells();
    }

    method ApplyAll(items: seq<Item>, oplogs: Oplogs) returns (weights: seq<int>)
      requires Valid() && Rested() && forall i :: i in items ==> i.approvals != []
      modifies this
      ensures Valid() && Rested()
      ensures |weights| == |items| && forall w :: w in weights ==> 0 <= w <= g.weight
      ensures all == LogEvents(g, old(all), items, weights, |items|)
      ensures ends == LogEnds(g, old(all), old(ends), items, weights, |items|)
      ensures NeverFalls(old(records), records)
      ensures forall i :: 0 <= i < |items| ==> items[i].key in records && weights[i] <= records[items[i].key].weight
    {
      weights := [];
      for i := 0 to |items|
        invariant Valid() && Rested() && |weights| == i
        invariant Applied(items, weights, old(all), old(ends), old(records))
      {
        weights := ApplyNext(items, weights, oplogs, old(all), old(ends), old(records));
      }
    }

    // As many batches have been applied as there are weights.
    ghost predicate Applied(items: seq<Item>, weights: seq<int>, before: seq<Event>, first: seq<nat>, start: Records)
      reads this
    {
      && Served(g, items, weights, records) && NeverFalls(start, records)
      && all == LogEvents(g, before, items, weights, |weights|)
      && ends == LogEnds(g, before, first, items, weights, |weights|)
    }

    method ApplyNext(items: seq<Item>, weights: seq<int>, oplogs: Oplogs,
                     ghost before: seq<Event>, ghost first: seq<nat>, ghost start: Records)
      returns (after: seq<int>)
      requires Valid() && Rested() && Applied(items, weights, before, first, start)
      requires |weights| < |items| && items[|weights|].approvals != []
      modifies this
      ensures Valid() && Rested() && Applied(items, after, before, first, start) && |after| == |weights| + 1
    {
      ghost var was := records;
      var w := ApplyBatch(items[|weights|], oplogs);
      ServedOn(g, items, weights, w, was, records);
      NeverFallsOn(start, was, records);
      LogNext(g, before, first, items, weights, w, |weights|);
      after := weights + [w];
    }

    lemma TableTells()
      requires Told() && updates == map[]
      ensures forall k :: k in records <==> Mentioned(all, |all|, k)
      ensures forall k :: k in records ==>
                && records[k].maxWeight == Level(all, |all|, k)
                && records[k].weight == Written(all, |all|, k)
                && (records[k].isRemoved <==> Out(all, |all|, k))
      ensures forall k :: P.Get(hints, k) == HintAfter(all, ends, |ends|, k)
      ensures forall k :: P.Get(requests, k) == RequestAfter(all, ends, |ends|, k)
    {
      forall k
        ensures k in records <==> Mentioned(all, |all|, k)
        ensures k in records ==>
                  && records[k].maxWeight == Level(all, |all|, k)
                  && records[k].weight == Written(all, |all|, k)
                  && (records[k].isRemoved <==> Out(all, |all|, k))
      {
        assert Tells(all, BatchStart(), k, Get(records, k), Pending(k));
      }
      forall k
        ensures P.Get(hints, k) == HintAfter(all, ends, |ends|, k)
        ensures P.Get(requests, k) == RequestAfter(all, ends, |ends|, k)
      {
        assert Indexed(all, ends, k, hints, requests);
      }
    }
  }

  lemma Concat<T>(s: seq<T>, a: seq<T>, b: seq<T>, c: seq<T>, d: seq<T>)
    ensures s + a + b + c + d == s + (a + b + c + d)
  {
  }

  // The records hold at least what the batches so far resolved to.
  ghost predicate Served(g: Genesis, items: seq<Item>, weights: seq<int>, records: Records) {
    && |weights| <= |items|
    && forall i :: 0 <= i < |weights| ==>
         0 <= weights[i] <= g.weight && items[i].key in records && weights[i] <= records[items[i].key].weight
  }

  lemma ServedOn(g: Genesis, items: seq<Item>, weights: seq<int>, w: int, before: Records, after: Records)
    requires Served(g, items, weights, before) && NeverFalls(before, after) && |weights| < |items|
    requires 0 <= w <= g.weight
    requires var k := items[|weights|].key; k in after && w <= after[k].weight
    ensures Served(g, items, weights + [w], after)
  {
  }

  lemma NeverFallsOn(a: Records, b: Records, c: Records)
    requires NeverFalls(a, b) && NeverFalls(b, c)
    ensures NeverFalls(a, c)
  {
  }

  lemma RaisedOn(a: Deltas, b: Deltas, c: Deltas)
    requires Raised(a, b) && Raised(b, c)
    ensures Raised(a, c)
  {
  }

  lemma NodeAppended(before: seq<Event>, k: Key, length: nat, weight: int, approvals: seq<seq<Approval>>, i: nat,
                     now: seq<Event>)
    requires i < |approvals|
    requires now == before + NodeEvents(Link(k, length), weight, approvals, i) + [Write(k, weight)]
                    + ApprovalEvents(Link(k, length + i), weight, approvals[i], |approvals[i]|)
    ensures now == before + NodeEvents(Link(k, length), weight, approvals, i + 1)
  {
  }

  // ----- flushing -----

  // everything that is stored
  datatype Table = Table(records: Records, hints: P.Hints, requests: P.Requests)

  // what an update asks of the promotion indexes
  function IndexUpdate(k: Key, d: Option<Delta>): P.Update {
    P.Update(k, if d.Some? then d.value.grant else None, if d.Some? then d.value.pending else -1,
             d.Some? && d.value.isRemoved)
  }

  function GetDelta(updates: Deltas, k: Key): Option<Delta> {
    if k in updates then Some(updates[k]) else None
  }

  // what is stored for a writer once the updates of these writers have been written
  ghost predicate Written1(before: Table, updates: Deltas, done: set<Key>, k: Key, now: Table) {
    var d := if k in done then GetDelta(updates, k) else None;
    && Get(now.records, k) == (if d.Some? then Some(RecordAfter(Get(before.records, k), d.value)) else Get(before.records, k))
    && P.Get(now.hints, k) == P.HintAfter(before.hints, IndexUpdate(k, d))
    && P.Get(now.requests, k) == P.RequestAfter(before.hints, before.requests, IndexUpdate(k, d))
  }

  ghost predicate Flushed(before: Records, updates: Deltas, after: Records) {
    && (forall k :: k in after <==> k in before || k in updates)
    && (forall k :: k in after ==> after[k] == if k in updates then RecordAfter(Get(before, k), updates[k]) else before[k])
  }

  ghost predicate Indexed(all: seq<Event>, ends: seq<nat>, k: Key, hints: P.Hints, requests: P.Requests)
    requires Ends(all, ends)
  {
    && P.Get(hints, k) == HintAfter(all, ends, |ends|, k)
    && P.Get(requests, k) == RequestAfter(all, ends, |ends|, k)
  }

  // Only what is stored for the writer itself matters.
  lemma SameAt(hints: P.Hints, requests: P.Requests, h: P.Hints, r: P.Requests, upd: P.Update)
    requires P.Get(hints, upd.key) == P.Get(h, upd.key) && P.Get(requests, upd.key) == P.Get(r, upd.key)
    ensures P.HintAfter(hints, upd) == P.HintAfter(h, upd)
    ensures P.RequestAfter(hints, requests, upd) == P.RequestAfter(h, r, upd)
  {
  }

  lemma FlushTells(all: seq<Event>, ends: seq<nat>, before: Table, updates: Deltas, after: Table)
    requires Ends(all, ends)
    requires forall k :: Tells(all, From(ends, |ends|), k, Get(before.records, k), GetDelta(updates, k))
    requires forall k :: Indexed(all, ends, k, before.hints, before.requests)
    requires forall k :: Written1(before, updates, updates.Keys, k, after)
    ensures Ends(all, ends + [|all|]) && From(ends + [|all|], |ends| + 1) == |all|
    ensures forall k :: Tells(all, |all|, k, Get(after.records, k), None)
    ensures forall k :: Indexed(all, ends + [|all|], k, after.hints, after.requests)
    ensures Flushed(before.records, updates, after.records)
  {
    forall k
      ensures Tells(all, |all|, k, Get(after.records, k), None)
      ensures Ends(all, ends + [|all|]) && Indexed(all, ends + [|all|], k, after.hints, after.requests)
    {
      var rec, d := Get(before.records, k), GetDelta(updates, k);
      assert Tells(all, From(ends, |ends|), k, rec, d) && Indexed(all, ends, k, before.hints, before.requests);
      assert Written1(before, updates, updates.Keys, k, after);
      TellsFlushed(all, From(ends, |ends|), k, rec, d);
      TellsIndexes(all, ends, k, rec, d, before.hints, before.requests);
    }
    forall k
      ensures k in after.records <==> k in before.records || k in updates
      ensures k in after.records ==>
                after.records[k] == if k in updates then RecordAfter(Get(before.records, k), updates[k]) else before.records[k]
    {
      assert Written1(before, updates, updates.Keys, k, after);
    }
  }

  lemma FlushWithin(g: Genesis, before: Table, updates: Deltas, after: Table)
    requires Bounded(g, before.records) && forall k :: k in before.hints ==> before.hints[k].weight <= g.weight
    requires forall k :: k in updates ==> DeltaBounded(g, Get(before.records, k), updates[k])
    requires forall k :: Written1(before, updates, updates.Keys, k, after)
    ensures Bounded(g, after.records) && forall k :: k in after.hints ==> after.hints[k].weight <= g.weight
  {
    forall k
      ensures k in after.records ==> BoundedRecord(g, after.records[k])
      ensures k in after.hints ==> after.hints[k].weight <= g.weight
    {
      assert Written1(before, updates, updates.Keys, k, after);
      if k in updates {
        FlushedRecord(g, Get(before.records, k), updates[k]);
      }
    }
  }
}
