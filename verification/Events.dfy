// What happens to writers along a log, one event after another, and what that leaves them with.
// Nothing here knows how records and pending updates are kept.
module Events {
  import opened Batches
  import opened Promotions

  datatype Event =
    | Found(key: Key, amount: nat)                             // the founder is let in
    | Write(key: Key, weight: int)                             // a node of the writer is applied
    | Approve(key: Key, amount: nat, asked: nat, place: Link)  // a node carries an approval
    | Grant(key: Key, amount: nat, asked: nat)                 // the application grants a weight
    | Anchor(key: Key)                                         // the application lets a writer in
    | Drop(key: Key)                                           // the application removes a writer
    | Ack(key: Key, before: nat)                               // an optimistic batch is consumed; so many
                                                               // events came before the batch

  predicate Raises(e: Event) {
    e.Found? || e.Approve? || e.Grant?
  }

  // ----- what a batch does -----

  // What the application's apply handler may ask for.
  datatype Call = AddWriter(key: Key, weight: nat) | RemoveWriter(key: Key) | AddAnchor(key: Key)

  // Nobody gives more than there is.
  ghost function Capped(asked: nat, weight: int): nat {
    if asked <= weight then asked else if weight < 0 then 0 else weight
  }

  // the first i approvals of the node at a place
  ghost function ApprovalEvents(place: Link, weight: int, approvals: seq<Approval>, i: nat): seq<Event>
    requires i <= |approvals|
  {
    if i == 0 then []
    else
      var a := approvals[i - 1];
      ApprovalEvents(place, weight, approvals, i - 1) + [Approve(a.key, Capped(a.weight, weight), a.weight, place)]
  }

  // the first i nodes of a batch with their approvals
  ghost function NodeEvents(head: Link, weight: int, approvals: seq<seq<Approval>>, i: nat): seq<Event>
    requires i <= |approvals|
  {
    if i == 0 then []
    else
      NodeEvents(head, weight, approvals, i - 1) + [Write(head.key, weight)]
      + ApprovalEvents(Link(head.key, head.length + i - 1), weight, approvals[i - 1], |approvals[i - 1]|)
  }

  // the first i calls of the handler
  ghost function CallEvents(weight: int, calls: seq<Call>, i: nat): seq<Event>
    requires i <= |calls|
  {
    if i == 0 then [] else CallEvents(weight, calls, i - 1) + [CallEvent(weight, calls[i - 1])]
  }

  ghost function CallEvent(weight: int, call: Call): Event {
    match call
    case AddWriter(k, w) => Grant(k, Capped(w, weight), w)
    case RemoveWriter(k) => Drop(k)
    case AddAnchor(k) => Anchor(k)
  }

  // ----- after the first i events -----

  ghost predicate Mentioned(all: seq<Event>, i: nat, k: Key)
    requires i <= |all|
  {
    exists m :: 0 <= m < i && all[m].key == k
  }

  // The largest amount granted to the writer since it was last dropped.
  ghost function Level(all: seq<Event>, i: nat, k: Key): nat
    requires i <= |all|
  {
    if i == 0 then 0
    else
      var before, e := Level(all, i - 1, k), all[i - 1];
      if e.key != k then before
      else if e.Drop? then 0
      else if Raises(e) && e.amount > before then e.amount
      else before
  }

  // In other words: no grant that still stands is for more, and one is for as much.
  lemma {:induction false} LevelMeans(all: seq<Event>, i: nat, k: Key)
    requires i <= |all|
    ensures var s := Level(all, i, k);
            && (forall m :: 0 <= m < i && Stands(all, m, i, k) ==> all[m].amount <= s)
            && (s > 0 ==> exists m :: 0 <= m < i && Stands(all, m, i, k) && all[m].amount == s)
  {
    if i > 0 {
      LevelMeans(all, i - 1, k);
      forall m | 0 <= m < i - 1
        ensures Stands(all, m, i, k) <==> Stands(all, m, i - 1, k) && !(all[i - 1].Drop? && all[i - 1].key == k)
      {
        StandsOn(all, m, i, k);
      }
      if Level(all, i, k) > 0 {
        if Level(all, i, k) == Level(all, i - 1, k) {
          var m :| 0 <= m < i - 1 && Stands(all, m, i - 1, k) && all[m].amount == Level(all, i, k);
          assert Stands(all, m, i, k);
        } else {
          assert Stands(all, i - 1, i, k);
        }
      }
    }
  }

  // Event m granted the writer something, and no later one dropped it.
  ghost predicate Stands(all: seq<Event>, m: nat, i: nat, k: Key)
    requires m < i <= |all|
  {
    all[m].key == k && Raises(all[m]) && forall j :: m < j < i ==> !(all[j].Drop? && all[j].key == k)
  }

  lemma StandsOn(all: seq<Event>, m: nat, i: nat, k: Key)
    requires m < i - 1 && i <= |all|
    ensures Stands(all, m, i, k) <==> Stands(all, m, i - 1, k) && !(all[i - 1].Drop? && all[i - 1].key == k)
  {
  }

  // The writer was there before the batch that starts at event before, or something but writing has
  // happened to it in that batch.
  ghost predicate Known(all: seq<Event>, before: nat, i: nat, k: Key)
    requires i <= |all|
  {
    exists m :: 0 <= m < i && all[m].key == k && (m < before || !all[m].Write?)
  }

  // The last change put the writer out: it was dropped, or an optimistic batch of it was consumed
  // while it was unknown.
  ghost predicate Out(all: seq<Event>, i: nat, k: Key)
    requires i <= |all|
  {
    i > 0 &&
    var e := all[i - 1];
    if e.key != k || e.Write? then Out(all, i - 1, k)
    else if e.Ack? then Out(all, i - 1, k) || !Known(all, e.before, i - 1, k)
    else e.Drop?
  }

  // The largest weight the writer has written with.
  ghost function Written(all: seq<Event>, i: nat, k: Key): int
    requires i <= |all|
  {
    if i == 0 then 0
    else
      var before, e := Written(all, i - 1, k), all[i - 1];
      if e.key != k then before
      else if e.Write? && e.weight > before then e.weight
      else if e.Found? && e.amount > Level(all, i - 1, k) && e.amount > before then e.amount
      else before
  }

  // ----- within one batch, from event a on -----

  // the strongest approval of the writer, the first of equals
  ghost function BestApproval(all: seq<Event>, a: nat, i: nat, k: Key): Option<Hint>
    requires i <= |all|
  {
    if i <= a then None
    else
      var best, e := BestApproval(all, a, i - 1, k), all[i - 1];
      if e.Approve? && e.key == k && (best == None || best.value.weight < e.amount)
      then Some(Hint(e.place.key, e.place.length, e.amount)) else best
  }

  // the largest weight asked for the writer, or -1
  ghost function Asked(all: seq<Event>, a: nat, i: nat, k: Key): (w: int)
    requires i <= |all|
    ensures w >= -1
  {
    if i <= a then -1
    else
      var best, e := Asked(all, a, i - 1, k), all[i - 1];
      if (e.Approve? || e.Grant?) && e.key == k && e.asked > best then e.asked else best
  }

  // ----- over whole batches, which end at these events -----

  ghost predicate Ends(all: seq<Event>, ends: seq<nat>) {
    && (forall n :: 0 <= n < |ends| ==> ends[n] <= |all|)
    && (forall m, n :: 0 <= m < n < |ends| ==> ends[m] <= ends[n])
  }

  ghost function From(ends: seq<nat>, n: nat): nat
    requires n <= |ends|
  {
    if n == 0 then 0 else ends[n - 1]
  }

  // The strongest approval since the last batch that left the writer out.
  ghost function HintAfter(all: seq<Event>, ends: seq<nat>, n: nat, k: Key): Option<Hint>
    requires Ends(all, ends) && n <= |ends|
  {
    if n == 0 then None
    else
      var before, best := HintAfter(all, ends, n - 1, k), BestApproval(all, From(ends, n - 1), ends[n - 1], k);
      if Out(all, ends[n - 1], k) then None
      else if best.Some? && (before == None || before.value.weight < best.value.weight) then best
      else before
  }

  // The largest weight asked for the writer since then.
  ghost function WantAfter(all: seq<Event>, ends: seq<nat>, n: nat, k: Key): nat
    requires Ends(all, ends) && n <= |ends|
  {
    if n == 0 then 0
    else
      var before, asked := WantAfter(all, ends, n - 1, k), Asked(all, From(ends, n - 1), ends[n - 1], k);
      if Out(all, ends[n - 1], k) then 0 else if asked > before then asked else before
  }

  // A request is pending while more is wanted than the hint is worth.
  ghost function RequestAfter(all: seq<Event>, ends: seq<nat>, n: nat, k: Key): Option<nat>
    requires Ends(all, ends) && n <= |ends|
  {
    var want, hint := WantAfter(all, ends, n, k), HintAfter(all, ends, n, k);
    if want > (if hint.Some? then hint.value.weight else 0) then Some(want) else None
  }

  // ----- later events change nothing about earlier ones -----

  lemma {:induction false} Prefix(all: seq<Event>, more: seq<Event>, i: nat, k: Key)
    requires i <= |all|
    ensures Level(all + more, i, k) == Level(all, i, k)
    ensures Out(all + more, i, k) == Out(all, i, k)
    ensures Written(all + more, i, k) == Written(all, i, k)
  {
    if i > 0 {
      Prefix(all, more, i - 1, k);
      assert (all + more)[i - 1] == all[i - 1];
      if all[i - 1].Ack? {
        KnownPrefix(all, more, all[i - 1].before, i - 1, k);
      }
    }
  }

  lemma KnownPrefix(all: seq<Event>, more: seq<Event>, before: nat, i: nat, k: Key)
    requires i <= |all|
    ensures Known(all + more, before, i, k) == Known(all, before, i, k)
    ensures Mentioned(all + more, i, k) == Mentioned(all, i, k)
  {
    assert forall m :: 0 <= m < i ==> (all + more)[m] == all[m];
  }

  lemma {:induction false} WithinPrefix(all: seq<Event>, more: seq<Event>, a: nat, i: nat, k: Key)
    requires i <= |all|
    ensures BestApproval(all + more, a, i, k) == BestApproval(all, a, i, k)
    ensures Asked(all + more, a, i, k) == Asked(all, a, i, k)
  {
    if i > a {
      WithinPrefix(all, more, a, i - 1, k);
      assert (all + more)[i - 1] == all[i - 1];
    }
  }

  lemma {:induction false} AfterPrefix(all: seq<Event>, more: seq<Event>, ends: seq<nat>, n: nat, k: Key)
    requires Ends(all, ends) && n <= |ends|
    ensures HintAfter(all + more, ends, n, k) == HintAfter(all, ends, n, k)
    ensures WantAfter(all + more, ends, n, k) == WantAfter(all, ends, n, k)
  {
    if n > 0 {
      AfterPrefix(all, more, ends, n - 1, k);
      Prefix(all, more, ends[n - 1], k);
      WithinPrefix(all, more, From(ends, n - 1), ends[n - 1], k);
    }
  }

  lemma {:induction false} EndsPrefix(all: seq<Event>, ends: seq<nat>, end: nat, n: nat, k: Key)
    requires Ends(all, ends) && Ends(all, ends + [end]) && n <= |ends|
    ensures HintAfter(all, ends + [end], n, k) == HintAfter(all, ends, n, k)
    ensures WantAfter(all, ends + [end], n, k) == WantAfter(all, ends, n, k)
  {
    if n > 0 {
      EndsPrefix(all, ends, end, n - 1, k);
      assert (ends + [end])[n - 1] == ends[n - 1];
      assert From(ends + [end], n - 1) == From(ends, n - 1);
    }
  }
}
