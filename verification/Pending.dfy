// The writers with something to apply, in lib/writers.js, and the choice of the next batch.
module Pending {
  import opened Batches

  class PendingWriter {
    var index: nat
    var isPending: bool
    var isFrozen: bool    // its oplog could not be read

    constructor ()
      ensures !isPending && !isFrozen
    {
      index, isPending, isFrozen := 0, false, false;
    }
  }

  // What a writer answers when it is asked for its next batch: there may be none for now, it may
  // have to wait for a block or a link, or its oplog may be unreadable.
  datatype Answer = Ready(batch: Batch) | Later | Waiting | Unreadable

  // A writer stays pending unless it will be woken, or cannot be read.
  predicate Stays(answer: Answer) {
    answer.Ready? || answer.Later?
  }

  // A batch whose sort weight is still -1 gets it resolved when it is looked at.
  function Weighed(b: Batch, resolve: Batch -> int): Batch {
    if b.weight < 0 then b.(weight := resolve(b)) else b
  }

  // A dense list with back-indexes, kept by swap-removal, and the next batch of every writer that
  // has one.
  class PendingList {
    var pending: seq<PendingWriter>
    var buffer: map<PendingWriter, Batch>

    ghost predicate Valid()
      reads this, pending
    {
      forall i :: 0 <= i < |pending| ==> pending[i].index == i && pending[i].isPending
    }

    method AddPending(w: PendingWriter)
      requires Valid() && (w.isPending ==> w in pending)
      modifies this`pending, w
      ensures Valid() && w.isPending
      ensures multiset(pending) == multiset(old(pending)) + if old(w.isPending) then multiset{} else multiset{w}
    {
      if w.isPending {
        return;
      }
      assert w !in pending;
      w.isPending := true;
      w.index := |pending|;
      pending := pending + [w];
    }

    method RemovePending(w: PendingWriter)
      requires Valid() && (w.isPending <==> w in pending)
      modifies this, w`isPending, pending`index
      ensures Valid() && !w.isPending && w !in pending
      ensures multiset(old(pending)) == multiset(pending) + if old(w.isPending) then multiset{w} else multiset{}
      ensures buffer == if old(w.isPending) then old(buffer) - {w} else old(buffer)
    {
      if !w.isPending {
        return;
      }
      ghost var before := pending;
      w.isPending := false;
      buffer := buffer - {w};
      var head := pending[|pending| - 1];
      pending := pending[..|pending| - 1];
      assert before == pending + [head];
      if head != w {
        pending := pending[w.index := head];
        head.index := w.index;
      }
    }

    // The pending writers to ask: those with no batch in the buffer that can be read.
    ghost function Asked(local: Option<PendingWriter>): set<PendingWriter>
      reads this, pending
    {
      set w | w in pending && (local == None || local.value == w) && w !in buffer && !w.isFrozen
    }

    // Asks every pending writer that has no batch in the buffer for its next one. Those that must
    // wait, or cannot be read, are pending no longer.
    method Refill(local: Option<PendingWriter>, next: PendingWriter -> Answer)
      requires Valid()
      modifies this, Elems(pending)
      ensures Valid()
      ensures buffer == old(buffer) + Answered(old(Asked(local)), next)
      ensures Elems(pending) == old(Elems(pending)) - Dropped(old(Asked(local)), next)
      ensures forall w :: w in old(Elems(pending)) ==>
                (w.isFrozen <==> old(w.isFrozen) || (w in old(Asked(local)) && next(w).Unreadable?))
    {
      var todo := pending;
      ghost var asked, done := Asked(local), {};
      ValidDistinct();
      while todo != []
        invariant Valid() && Asking(old(Elems(pending)), Elems(pending), todo, done, asked, next)
        invariant buffer == old(buffer) + Answered(asked * done, next)
        invariant forall w :: w in old(Elems(pending)) ==>
                    (w.isFrozen <==> old(w.isFrozen) || (w in asked * done && next(w).Unreadable?))
        decreases |todo|
      {
        var w := todo[0];
        AskingNext(old(Elems(pending)), Elems(pending), todo, done, asked, next);
        Visit(w, local, next, old(buffer), asked, done);
        todo, done := todo[1..], done + {w};
      }
    }

    method Visit(w: PendingWriter, local: Option<PendingWriter>, next: PendingWriter -> Answer,
                 ghost before: map<PendingWriter, Batch>, ghost asked: set<PendingWriter>, ghost done: set<PendingWriter>)
      requires Valid() && w in Elems(pending) && w !in done
      requires w in asked <==> (local == None || local.value == w) && w !in before && !w.isFrozen
      requires buffer == before + Answered(asked * done, next)
      modifies this, Elems(pending)
      ensures Valid() && buffer == before + Answered(asked * (done + {w}), next)
      ensures Elems(pending) == old(Elems(pending)) - if w in asked && !Stays(next(w)) then {w} else {}
      ensures forall v :: v in old(Elems(pending)) ==>
                (v.isFrozen <==> old(v.isFrozen) || (v == w && w in asked && next(w).Unreadable?))
    {
      AnsweredMore(before, asked, done, next, w);
      if (local == None || local.value == w) && w !in buffer && !w.isFrozen {
        Ask(w, next(w));
      }
    }

    lemma ValidDistinct()
      requires Valid()
      ensures Distinct(pending)
    {
    }

    method Ask(w: PendingWriter, answer: Answer)
      requires Valid() && w in pending && w !in buffer && !w.isFrozen
      modifies this, Elems(pending)
      ensures Valid()
      ensures buffer == if answer.Ready? then old(buffer)[w := answer.batch] else old(buffer)
      ensures Elems(pending) == old(Elems(pending)) - if Stays(answer) then {} else {w}
      ensures forall v :: v in old(Elems(pending)) ==>
                v.isFrozen == if v == w then answer.Unreadable? else old(v.isFrozen)
    {
      match answer
      case Ready(batch) =>
        buffer := buffer[w := batch];
      case Later =>
      case Waiting =>
        Drop(w);
      case Unreadable =>
        w.isFrozen := true;
        Drop(w);
    }

    method Drop(w: PendingWriter)
      requires Valid() && w in pending && w !in buffer
      modifies this, w`isPending, pending`index
      ensures Valid() && buffer == old(buffer) && Elems(pending) == old(Elems(pending)) - {w}
    {
      ghost var before := pending;
      RemovePending(w);
      forall v ensures v in Elems(pending) <==> v in Elems(before) - {w} {
        assert v in before <==> v in multiset(before);
        assert v in pending <==> v in multiset(pending);
      }
    }

    // Asks the pending writers that have no batch yet for their next one, and takes a batch that
    // none sorts before, so that the applied prefix stays put: out of all, or out of the local
    // writer's. Batches that take part have their weights resolved, if they were not before.
    method NextPending(local: Option<PendingWriter>, next: PendingWriter -> Answer, resolve: Batch -> int)
      returns (best: Option<(PendingWriter, Batch)>)
      requires Valid()
      modifies this, Elems(pending)
      ensures Valid()
      ensures forall w :: w in pending <==>
                w in old(pending) &&
                !((local == None || local.value == w) && w !in old(buffer) && !old(w.isFrozen) &&
                  (next(w).Waiting? || next(w).Unreadable?))
      ensures forall w :: w in buffer || (best.Some? && best.value.0 == w) <==>
                w in old(buffer) ||
                (w in old(pending) && (local == None || local.value == w) && !old(w.isFrozen) && next(w).Ready?)
      ensures forall w :: w in buffer ==>
                var x := if w in old(buffer) then old(buffer)[w] else next(w).batch;
                buffer[w] == if x.weight < 0 && (local == None || local.value == w) then x.(weight := resolve(x)) else x
      ensures best.Some? ==>
                var (w, b) := best.value;
                var x := if w in old(buffer) then old(buffer)[w] else next(w).batch;
                && w !in buffer && (local == None || local.value == w)
                && b == (if x.weight < 0 then x.(weight := resolve(x)) else x)
                && forall v :: v in buffer && (local == None || local.value == v) ==> !Before(buffer[v], b)
      ensures best == None ==> forall w :: w in buffer ==> local.Some? && local.value != w
    {
      ghost var asked := Asked(local);
      Refill(local, next);
      ghost var filled := buffer;
      best := TakeFirst(local, resolve);
      TakenMeans(filled, local, resolve, best, buffer);
      forall w ensures w in pending <==> w in Elems(pending) {
      }
    }

    // All weights that take part are resolved before they are compared.
    method TakeFirst(local: Option<PendingWriter>, resolve: Batch -> int)
      returns (best: Option<(PendingWriter, Batch)>)
      modifies this`buffer
      ensures TakenFrom(old(buffer), local, resolve, best, buffer)
    {
      best := None;
      var todo := buffer.Keys;
      ghost var before, seen := buffer, {};
      while todo != {}
        invariant todo <= before.Keys && seen == Choices(before, local) - todo
        invariant buffer == WeighedIn(before, seen, resolve) && IsFirst(buffer, seen, best)
        decreases todo
      {
        var w :| w in todo;
        todo := todo - {w};
        if local == None || local.value == w {
          var head := Weighed(buffer[w], resolve);
          OneMore(before, buffer, seen, best, w, head, resolve);
          seen := seen + {w};
          buffer := buffer[w := head];
          if best == None || SortsBefore(head, best.value.1) {
            best := Some((w, head));
          }
        }
      }
      assert seen == Choices(before, local);
      if best.Some? {
        buffer := buffer - {best.value.0};
      }
    }
  }

  // what the asked writers have
  ghost function Answered(asked: set<PendingWriter>, next: PendingWriter -> Answer): map<PendingWriter, Batch> {
    map w | w in asked && next(w).Ready? :: next(w).batch
  }

  // the asked writers that are pending no longer
  ghost function Dropped(asked: set<PendingWriter>, next: PendingWriter -> Answer): set<PendingWriter> {
    set w | w in asked && !Stays(next(w))
  }

  // One more pending writer has been asked, or passed over.
  lemma AnsweredMore(before: map<PendingWriter, Batch>, asked: set<PendingWriter>, done: set<PendingWriter>,
                     next: PendingWriter -> Answer, w: PendingWriter)
    requires w !in done
    ensures var buffer := before + Answered(asked * done, next);
            && (w in buffer <==> w in before)
            && before + Answered(asked * (done + {w}), next) ==
               if w in asked && next(w).Ready? then buffer[w := next(w).batch] else buffer
  {
  }

  lemma DroppedMore(asked: set<PendingWriter>, done: set<PendingWriter>, next: PendingWriter -> Answer, w: PendingWriter)
    requires w !in done
    ensures w !in Dropped(asked * done, next)
    ensures Dropped(asked * (done + {w}), next) ==
            Dropped(asked * done, next) + if w in asked && !Stays(next(w)) then {w} else {}
  {
  }

  // Of all pending writers, those in done have been visited and those in todo have not.
  ghost predicate Asking(all: set<PendingWriter>, pending: set<PendingWriter>, todo: seq<PendingWriter>,
                         done: set<PendingWriter>, asked: set<PendingWriter>, next: PendingWriter -> Answer)
  {
    && Distinct(todo) && done !! Elems(todo) && done + Elems(todo) == all
    && pending == all - Dropped(asked * done, next)
  }

  lemma AskingNext(all: set<PendingWriter>, pending: set<PendingWriter>, todo: seq<PendingWriter>,
                   done: set<PendingWriter>, asked: set<PendingWriter>, next: PendingWriter -> Answer)
    requires Asking(all, pending, todo, done, asked, next) && todo != []
    ensures var w := todo[0];
            && w in all && w in pending && w !in done
            && Asking(all, pending - if w in asked && !Stays(next(w)) then {w} else {}, todo[1..], done + {w}, asked, next)
  {
    DistinctTail(todo);
    DroppedMore(asked, done, next, todo[0]);
  }

  // the writers to choose from: all in the buffer, or the local one
  ghost function Choices(buffer: map<PendingWriter, Batch>, local: Option<PendingWriter>): set<PendingWriter> {
    set w | w in buffer && (local == None || local.value == w)
  }

  // The best is what no other choice sorts before, and is no longer in the buffer.
  ghost predicate TakenFrom(before: map<PendingWriter, Batch>, local: Option<PendingWriter>, resolve: Batch -> int,
                            best: Option<(PendingWriter, Batch)>, after: map<PendingWriter, Batch>)
  {
    var all := WeighedIn(before, Choices(before, local), resolve);
    && IsFirst(all, Choices(before, local), best)
    && after == if best.Some? then all - {best.value.0} else all
  }

  lemma TakenMeans(before: map<PendingWriter, Batch>, local: Option<PendingWriter>, resolve: Batch -> int,
                   best: Option<(PendingWriter, Batch)>, after: map<PendingWriter, Batch>)
    requires TakenFrom(before, local, resolve, best, after)
    ensures forall w :: w in after || (best.Some? && best.value.0 == w) <==> w in before
    ensures forall w :: w in after ==>
              after[w] == (if before[w].weight < 0 && (local == None || local.value == w)
                           then before[w].(weight := resolve(before[w])) else before[w])
    ensures best.Some? ==>
              var (w, b) := best.value;
              && w in before && w !in after && (local == None || local.value == w)
              && b == (if before[w].weight < 0 then before[w].(weight := resolve(before[w])) else before[w])
              && forall v :: v in after && (local == None || local.value == v) ==> !Before(after[v], b)
    ensures best == None ==> forall w :: w in after ==> local.Some? && local.value != w
  {
    forall w | w in after && best == None ensures local.Some? && local.value != w {
      assert w !in Choices(before, local);
    }
  }

  // the buffer once the weights of these batches have been resolved
  ghost function WeighedIn(buffer: map<PendingWriter, Batch>, seen: set<PendingWriter>, resolve: Batch -> int)
    : map<PendingWriter, Batch>
  {
    map w | w in buffer :: if w in seen then Weighed(buffer[w], resolve) else buffer[w]
  }

  // No batch of these writers sorts before the best.
  ghost predicate IsFirst(buffer: map<PendingWriter, Batch>, seen: set<PendingWriter>,
                          best: Option<(PendingWriter, Batch)>)
  {
    if best == None then seen == {}
    else
      && best.value.0 in seen && best.value.0 in buffer && buffer[best.value.0] == best.value.1
      && forall w :: w in seen && w in buffer ==> !Before(buffer[w], best.value.1)
  }

  lemma OneMore(before: map<PendingWriter, Batch>, buffer: map<PendingWriter, Batch>, seen: set<PendingWriter>,
                best: Option<(PendingWriter, Batch)>, w: PendingWriter, head: Batch, resolve: Batch -> int)
    requires buffer == WeighedIn(before, seen, resolve) && IsFirst(buffer, seen, best)
    requires w in before && w !in seen && head == Weighed(buffer[w], resolve)
    ensures buffer[w := head] == WeighedIn(before, seen + {w}, resolve)
    ensures IsFirst(buffer[w := head], seen + {w},
                    if best == None || SortsBefore(head, best.value.1) then Some((w, head)) else best)
  {
    NowFirst(best, head);
  }

  // What sorts before the best so far sorts before everything that the best sorts before.
  lemma NowFirst(best: Option<(PendingWriter, Batch)>, head: Batch)
    ensures best.Some? && SortsBefore(head, best.value.1) ==>
              forall b :: !Before(b, best.value.1) ==> !Before(b, head)
  {
    forall b | best.Some? && SortsBefore(head, best.value.1) && !Before(b, best.value.1)
      ensures !Before(b, head)
    {
      if Before(b, head) {
        BeforeTransitive(b, head, best.value.1);
      }
    }
  }

  // Mirrors the sort comparison.
  predicate SortsBefore(a: Batch, b: Batch) {
    if a.weight != b.weight then a.weight > b.weight
    else if a.timestamp != b.timestamp then a.timestamp < b.timestamp
    else if a.key != b.key then a.key < b.key
    else a.length < b.length
  }
}
