// Writer records and the updates that wait to be flushed into them, in lib/system.js.
module Weights {
  import opened Batches
  import opened Witness
  import opened Events
  import P = Promotions

  // What one flush accumulates for a writer; -1 stands for no change. The grant becomes its hint, and
  // pending is what was asked for it.
  datatype Delta = Delta(
    weight: int, maxWeight: int, isGenesis: bool, isRemoved: bool, isAdded: bool,
    grant: Option<P.Hint>, pending: int)

  const NO_CHANGE := Delta(-1, -1, false, false, false, None, -1)

  type Deltas = map<Key, Delta>

  function Max(a: int, b: int): int {
    if a < b then b else a
  }

  // One update merged into a delta: weights only rise, the last standing and membership win.
  function Merge(d: Delta, u: Delta): Delta {
    Delta(
      if u.weight == -1 then d.weight else if d.weight == -1 then u.weight else Max(d.weight, u.weight),
      if u.maxWeight == -1 then d.maxWeight else u.maxWeight,
      if u.maxWeight == -1 then d.isGenesis else u.isGenesis,
      u.isRemoved || (d.isRemoved && !u.isAdded),
      (u.isAdded || d.isAdded) && !u.isRemoved,
      if u.grant.Some? && (d.grant == None || u.grant.value.weight > d.grant.value.weight) then u.grant else d.grant,
      Max(d.pending, u.pending))
  }

  // The record after a flush.
  function RecordAfter(rec: Option<Record>, d: Delta): Record {
    Record(
      if d.weight != -1 then d.weight else if rec.Some? then rec.value.weight else 0,
      if d.maxWeight != -1 then d.maxWeight else if rec.Some? then rec.value.maxWeight else 0,
      if d.maxWeight != -1 then d.isGenesis else rec.Some? && rec.value.isGenesis,
      d.isRemoved || (!d.isAdded && rec.Some? && rec.value.isRemoved))
  }

  // What an unflushed read sees of the standing of a writer.
  function UnflushedMax(rec: Option<Record>, d: Option<Delta>): int {
    if d.Some? && d.value.maxWeight != -1 then d.value.maxWeight
    else if rec.Some? then rec.value.maxWeight else 0
  }

  // ----- adding a writer -----

  // Who grants: the founding bypass, or a batch of some weight (its carrier). An approval is carried
  // at a place in an oplog, and leaves a hint.
  datatype Grantor = Founding | Carried(carrier: int, place: Option<Link>)

  function Effective(weight: nat, grantor: Grantor): nat {
    if grantor.Carried? && grantor.carrier < weight then Max(grantor.carrier, 0) else weight
  }

  function AddWriterUpdate(rec: Option<Record>, d: Option<Delta>, weight: nat, grantor: Grantor): Delta {
    var effective := Effective(weight, grantor);
    var hint := if grantor.Carried? && grantor.place.Some?
                then Some(P.Hint(grantor.place.value.key, grantor.place.value.length, effective)) else None;
    var pending := if grantor.Carried? then weight else -1;
    if effective <= UnflushedMax(rec, d) then Delta(-1, -1, false, false, true, hint, pending)
    else Delta(if grantor.Founding? then effective else -1, effective, grantor.Founding?, false, true, hint, pending)
  }

  // ----- invariants -----

  // What a pending delta may do to a record.
  ghost predicate DeltaBounded(g: Genesis, rec: Option<Record>, d: Delta) {
    && -1 <= d.weight <= g.weight && -1 <= d.maxWeight <= g.weight
    && (d.grant.Some? ==> d.grant.value.weight <= g.weight)
    && (d.weight != -1 ==> d.weight >= CurrentWeight(rec))
    && (d.maxWeight > 0 && d.isGenesis ==> d.maxWeight == d.weight == g.weight)
  }

  lemma MergeBounded(g: Genesis, rec: Option<Record>, d: Delta, u: Delta)
    requires DeltaBounded(g, rec, d) && DeltaBounded(g, rec, u)
    ensures DeltaBounded(g, rec, Merge(d, u))
  {
  }

  lemma AddWriterBounded(g: Genesis, rec: Option<Record>, d: Option<Delta>, weight: nat, grantor: Grantor)
    requires rec.Some? ==> BoundedRecord(g, rec.value)
    requires if grantor.Founding? then weight == g.weight else grantor.carrier <= g.weight
    ensures DeltaBounded(g, rec, AddWriterUpdate(rec, d, weight, grantor))
    ensures Effective(weight, grantor) <= weight && Effective(weight, grantor) <= g.weight
    ensures grantor.Carried? ==>
              var u := AddWriterUpdate(rec, d, weight, grantor);
              u.maxWeight <= Max(grantor.carrier, 0) && (u.grant.Some? ==> u.grant.value.weight <= Max(grantor.carrier, 0))
  {
  }

  // A flush keeps the ceiling and the genesis bypass, and never lowers a stored weight.
  lemma FlushedRecord(g: Genesis, rec: Option<Record>, d: Delta)
    requires rec.Some? ==> BoundedRecord(g, rec.value)
    requires DeltaBounded(g, rec, d)
    ensures BoundedRecord(g, RecordAfter(rec, d))
    ensures rec.Some? ==> rec.value.weight <= RecordAfter(rec, d).weight
    ensures CurrentWeight(rec) <= CurrentWeight(Some(RecordAfter(rec, d)))
    ensures d.weight != -1 ==> RecordAfter(rec, d).weight == d.weight
  {
  }

  // ----- what records and pending updates say together -----

  function UnflushedWeight(rec: Option<Record>, d: Option<Delta>): int {
    if d.Some? && d.value.weight != -1 then d.value.weight
    else if rec.Some? then rec.value.weight else 0
  }

  // The update says whether the writer is in.
  predicate Touched(d: Option<Delta>) {
    d.Some? && (d.value.isAdded || d.value.isRemoved)
  }

  predicate UnflushedOut(rec: Option<Record>, d: Option<Delta>) {
    (d.Some? && d.value.isRemoved) || (!(d.Some? && d.value.isAdded) && rec.Some? && rec.value.isRemoved)
  }

  // Record and update of a writer tell what happened to it: the record before the batch that starts
  // at this event, the update since then.
  ghost predicate Tells(all: seq<Event>, start: nat, k: Key, rec: Option<Record>, d: Option<Delta>) {
    var i := |all|;
    && start <= i
    && (rec.Some? || d.Some? <==> Mentioned(all, i, k))
    && UnflushedMax(rec, d) == Level(all, i, k)
    && UnflushedWeight(rec, d) == Written(all, i, k)
    && UnflushedOut(rec, d) == Out(all, i, k)
    && (rec.Some? || Touched(d) <==> Known(all, start, i, k))
    && (rec.Some? && rec.value.isRemoved <==> Out(all, start, k))
    && (if d.Some? then d.value.grant else None) == BestApproval(all, start, i, k)
    && (if d.Some? then d.value.pending else -1) == Asked(all, start, i, k)
    && (d.Some? ==> !(d.value.isAdded && d.value.isRemoved))
    && (d.Some? && (d.value.grant.Some? || d.value.pending != -1) ==> Touched(d))
  }

  function Merged(d: Option<Delta>, u: Delta): Option<Delta> {
    Some(Merge(if d.Some? then d.value else NO_CHANGE, u))
  }

  // One more event: what was said about earlier ones stays.
  lemma Earlier(all: seq<Event>, start: nat, e: Event, k: Key)
    requires start <= |all|
    ensures var more, i := all + [e], |all|;
            && Level(more, i, k) == Level(all, i, k) && Written(more, i, k) == Written(all, i, k)
            && Out(more, i, k) == Out(all, i, k) && Out(more, start, k) == Out(all, start, k)
            && BestApproval(more, start, i, k) == BestApproval(all, start, i, k)
            && Asked(more, start, i, k) == Asked(all, start, i, k)
            && (Mentioned(more, i + 1, k) <==> Mentioned(all, i, k) || e.key == k)
            && (Known(more, start, i + 1, k) <==> Known(all, start, i, k) || (e.key == k && !e.Write?))
            && forall b :: Known(more, b, i, k) <==> Known(all, b, i, k)
  {
    var more, i := all + [e], |all|;
    Prefix(all, [e], i, k);
    Prefix(all, [e], start, k);
    WithinPrefix(all, [e], start, i, k);
    forall b ensures Known(more, b, i, k) <==> Known(all, b, i, k) {
      KnownPrefix(all, [e], b, i, k);
    }
    KnownPrefix(all, [e], start, i, k);
    assert more[i] == e;
    if Known(more, start, i + 1, k) && !Known(more, start, i, k) {
      assert e.key == k && !e.Write?;
    }
    if Mentioned(more, i + 1, k) && !Mentioned(more, i, k) {
      assert e.key == k;
    }
  }

  lemma TellsOther(all: seq<Event>, start: nat, e: Event, k: Key, rec: Option<Record>, d: Option<Delta>)
    requires Tells(all, start, k, rec, d) && e.key != k
    ensures Tells(all + [e], start, k, rec, d)
  {
    Earlier(all, start, e, k);
  }

  lemma TellsWrite(g: Genesis, all: seq<Event>, start: nat, e: Event, rec: Option<Record>, d: Option<Delta>)
    requires Tells(all, start, e.key, rec, d) && e.Write? && CurrentWeight(rec) <= e.weight && 0 <= e.weight
    requires (rec.Some? ==> BoundedRecord(g, rec.value)) && (d.Some? ==> DeltaBounded(g, rec, d.value))
    ensures Tells(all + [e], start, e.key, rec, Merged(d, NO_CHANGE.(weight := e.weight)))
  {
    Earlier(all, start, e, e.key);
  }

  lemma TellsDrop(all: seq<Event>, start: nat, e: Event, rec: Option<Record>, d: Option<Delta>)
    requires Tells(all, start, e.key, rec, d) && e.Drop?
    ensures Tells(all + [e], start, e.key, rec, Merged(d, NO_CHANGE.(maxWeight := 0, isRemoved := true)))
  {
    Earlier(all, start, e, e.key);
  }

  lemma TellsAnchor(all: seq<Event>, start: nat, e: Event, rec: Option<Record>, d: Option<Delta>)
    requires Tells(all, start, e.key, rec, d) && e.Anchor?
    ensures Tells(all + [e], start, e.key, rec, Merged(d, NO_CHANGE.(isAdded := true)))
  {
    Earlier(all, start, e, e.key);
  }

  lemma TellsAck(all: seq<Event>, start: nat, e: Event, rec: Option<Record>, d: Option<Delta>, granted: bool)
    requires Tells(all, start, e.key, rec, d) && e.Ack? && e.before == start
    requires granted == if Touched(d) then d.value.isAdded else rec.Some? && !rec.value.isRemoved
    ensures Tells(all + [e], start, e.key, rec, Merged(d, NO_CHANGE.(isRemoved := !granted)))
  {
    Earlier(all, start, e, e.key);
  }

  // The event of a grant: what it asks for, capped by what its carrier has.
  ghost function GrantEvent(k: Key, weight: nat, grantor: Grantor): Event {
    match grantor
    case Founding => Found(k, weight)
    case Carried(carrier, place) =>
      if place.Some? then Approve(k, Capped(weight, carrier), weight, place.value)
      else Grant(k, Capped(weight, carrier), weight)
  }

  lemma TellsGrant(g: Genesis, all: seq<Event>, start: nat, e: Event, rec: Option<Record>, d: Option<Delta>,
                   weight: nat, grantor: Grantor)
    requires Tells(all, start, e.key, rec, d) && e == GrantEvent(e.key, weight, grantor)
    requires (rec.Some? ==> BoundedRecord(g, rec.value)) && (d.Some? ==> DeltaBounded(g, rec, d.value))
    requires grantor.Founding? ==> weight == g.weight
    ensures var u := AddWriterUpdate(rec, d, weight, grantor);
            && Tells(all + [e], start, e.key, rec, Merged(d, u))
            && (Skips(rec, d, u) ==> Tells(all + [e], start, e.key, rec, d))
  {
    Earlier(all, start, e, e.key);
  }

  // nothing to record: known, present, no better standing, no hint and no request
  predicate Skips(rec: Option<Record>, d: Option<Delta>, u: Delta) {
    && (rec.Some? || (d.Some? && d.value.isAdded))
    && !((rec.Some? && rec.value.isRemoved) || (d.Some? && d.value.isRemoved))
    && u.maxWeight == -1 && u.grant == None && u.pending == -1
  }

  // A flush turns the update into the record.
  lemma TellsFlushed(all: seq<Event>, start: nat, k: Key, rec: Option<Record>, d: Option<Delta>)
    requires Tells(all, start, k, rec, d)
    ensures Tells(all, |all|, k, if d.Some? then Some(RecordAfter(rec, d.value)) else rec, None)
  {
    if Mentioned(all, |all|, k) {
      var m :| 0 <= m < |all| && all[m].key == k;
    }
  }

  // It leaves the hint and the request that the events tell of.
  lemma TellsIndexes(all: seq<Event>, ends: seq<nat>, k: Key, rec: Option<Record>, d: Option<Delta>,
                     hints: P.Hints, requests: P.Requests)
    requires Ends(all, ends) && Tells(all, From(ends, |ends|), k, rec, d)
    requires P.Get(hints, k) == HintAfter(all, ends, |ends|, k)
    requires P.Get(requests, k) == RequestAfter(all, ends, |ends|, k)
    ensures Ends(all, ends + [|all|])
    ensures var upd := P.Update(k, if d.Some? then d.value.grant else None,
                                if d.Some? then d.value.pending else -1, d.Some? && d.value.isRemoved);
            && P.HintAfter(hints, upd) == HintAfter(all, ends + [|all|], |ends| + 1, k)
            && P.RequestAfter(hints, requests, upd) == RequestAfter(all, ends + [|all|], |ends| + 1, k)
  {
    NextAfter(all, ends, k);
    var hint := HintAfter(all, ends, |ends|, k);
    var best := if d.Some? then d.value.grant else None;
    if Out(all, |all|, k) && !Touched(d) {
      OutBefore(all, ends, k);
    }
    if d.Some? && d.value.isRemoved {
    } else if best == None && (d == None || d.value.pending == -1) {
    } else {
      assert Touched(d);
    }
  }

  // A batch more.
  lemma NextAfter(all: seq<Event>, ends: seq<nat>, k: Key)
    requires Ends(all, ends)
    ensures Ends(all, ends + [|all|])
    ensures var n, more, start := |ends|, ends + [|all|], From(ends, |ends|);
            var before, best := HintAfter(all, ends, n, k), BestApproval(all, start, |all|, k);
            && HintAfter(all, more, n + 1, k) ==
                 (if Out(all, |all|, k) then None
                  else if best.Some? && (before == None || before.value.weight < best.value.weight) then best
                  else before)
            && WantAfter(all, more, n + 1, k) ==
                 (if Out(all, |all|, k) then 0
                  else if Asked(all, start, |all|, k) > WantAfter(all, ends, n, k) then Asked(all, start, |all|, k)
                  else WantAfter(all, ends, n, k))
  {
    var n := |ends|;
    EndsPrefix(all, ends, |all|, n, k);
    assert (ends + [|all|])[n] == |all| && From(ends + [|all|], n) == From(ends, n);
  }

  lemma OutBefore(all: seq<Event>, ends: seq<nat>, k: Key)
    requires Ends(all, ends) && Out(all, From(ends, |ends|), k)
    ensures HintAfter(all, ends, |ends|, k) == None && WantAfter(all, ends, |ends|, k) == 0
  {
  }

  // every pending weight is still there or has risen
  ghost predicate Raised(before: Deltas, after: Deltas) {
    forall k :: k in before ==> k in after && before[k].weight <= after[k].weight
  }

  ghost predicate NeverFalls(before: Records, after: Records) {
    forall k :: k in before ==> k in after && before[k].weight <= after[k].weight
  }

  lemma RecordsNeverFall(g: Genesis, before: Records, deltas: Deltas, after: Records)
    requires Bounded(g, before)
    requires forall k :: k in deltas ==> DeltaBounded(g, Get(before, k), deltas[k])
    requires forall k :: k in after <==> k in before || k in deltas
    requires forall k :: k in after ==> after[k] == if k in deltas then RecordAfter(Get(before, k), deltas[k]) else before[k]
    ensures NeverFalls(before, after)
    ensures forall k :: k in deltas && deltas[k].weight != -1 ==> after[k].weight == deltas[k].weight
  {
    forall k | k in deltas
      ensures (k in before ==> before[k].weight <= after[k].weight)
      ensures deltas[k].weight != -1 ==> after[k].weight == deltas[k].weight
    {
      FlushedRecord(g, Get(before, k), deltas[k]);
    }
  }
}
