// lib/topo.js as it runs: a clock and a list that are updated in place.
module Linearizer {
  import opened Batches
  import opened Topo
  import opened Settle

  class Clock {
    var lengths: ClockMap

    constructor ()
      ensures lengths == map[]
    {
      lengths := map[];
    }

    method Add(l: Link)
      modifies this
      ensures lengths == Tick(old(lengths), l)
    {
      if l.key !in lengths || lengths[l.key] < l.length {
        lengths := lengths[l.key := l.length];
      }
    }

    method AddAll(links: seq<Link>)
      modifies this
      ensures lengths == TickAll(old(lengths), links)
    {
      for i := 0 to |links|
        invariant lengths == TickAll(old(lengths), links[..i])
      {
        Add(links[i]);
        assert links[..i + 1][..i] == links[..i];
      }
      assert links[..|links|] == links;
    }

    predicate Has(b: Batch)
      reads this
    {
      Hit(lengths, b)
    }
  }

  // An entry of the list being sorted: what to rewind to in order to remove it, and its position
  // in the list before the sort (-1 for the new batch).
  datatype Entry<U> = Entry(undo: U, batch: Batch, index: int)

  function Units<U>(list: seq<Entry<U>>): seq<Batch> {
    seq(|list|, i requires 0 <= i < |list| => list[i].batch)
  }

  function Reverse<T>(s: seq<T>): seq<T> {
    if s == [] then [] else [s[|s| - 1]] + Reverse(s[..|s| - 1])
  }

  lemma ReverseAppend<T>(s: seq<T>, x: T)
    ensures Reverse(s + [x]) == [x] + Reverse(s)
  {
    assert (s + [x])[..|s + [x]| - 1] == s;
  }

  lemma UnitsConcat<U>(a: seq<Entry<U>>, b: seq<Entry<U>>)
    ensures Units(a + b) == Units(a) + Units(b)
  {
  }

  // the first shared entries of the list are where they were before
  ghost predicate IsShared<U>(list: seq<Entry<U>>, shared: nat) {
    && shared <= |list|
    && (forall i :: 0 <= i < shared ==> list[i].index == i)
    && (shared < |list| ==> list[shared].index != shared)
  }

  // The walk over what is left of the list, with the two stacks, makes up the whole walk.
  ghost predicate Rejoins<U>(whole: Split, items: seq<Entry<U>>, linked: seq<Entry<U>>, tip: seq<Entry<U>>,
                             n: Batch, clock: ClockMap) {
    var w := Walk(Units(items), n, clock);
    whole == Split(w.prefix, w.linked + Units(Reverse(linked)), w.tip + Units(Reverse(tip)))
  }

  lemma RejoinStart<U>(items: seq<Entry<U>>, n: Batch, clock: ClockMap)
    ensures Rejoins(Walk(Units(items), n, clock), items, [], [], n, clock)
  {
  }

  lemma UnitsReverse<U>(stack: seq<Entry<U>>, b: Entry<U>)
    ensures Units(Reverse(stack + [b])) == [b.batch] + Units(Reverse(stack))
  {
    ReverseAppend(stack, b);
    UnitsConcat([b], Reverse(stack));
  }

  lemma RejoinTip<U>(whole: Split, items: seq<Entry<U>>, b: Entry<U>, linked: seq<Entry<U>>, tip: seq<Entry<U>>,
                     n: Batch, clock: ClockMap)
    requires Rejoins(whole, items + [b], linked, tip, n, clock)
    requires Cmp(n, b.batch) <= 0 && !Hit(clock, b.batch)
    ensures Rejoins(whole, items, linked, tip + [b], n, clock)
  {
    UnitsConcat(items, [b]);
    assert (Units(items) + [b.batch])[..|items|] == Units(items);
    UnitsReverse(tip, b);
  }

  lemma RejoinLinked<U>(whole: Split, items: seq<Entry<U>>, b: Entry<U>, linked: seq<Entry<U>>, tip: seq<Entry<U>>,
                        n: Batch, clock: ClockMap)
    requires Rejoins(whole, items + [b], linked, tip, n, clock)
    requires Cmp(n, b.batch) <= 0 && Hit(clock, b.batch)
    ensures Rejoins(whole, items, linked + [b], tip, n, TickAll(clock, b.batch.links))
  {
    UnitsConcat(items, [b]);
    assert (Units(items) + [b.batch])[..|items|] == Units(items);
    UnitsReverse(linked, b);
  }

  lemma RejoinStop<U>(whole: Split, items: seq<Entry<U>>, linked: seq<Entry<U>>, tip: seq<Entry<U>>,
                      n: Batch, clock: ClockMap)
    requires Rejoins(whole, items, linked, tip, n, clock)
    requires items == [] || Cmp(n, items[|items| - 1].batch) > 0
    ensures whole == Split(Units(items), Units(Reverse(linked)), Units(Reverse(tip)))
  {
  }

  lemma PopStack<U>(stack: seq<Entry<U>>) returns (front: seq<Entry<U>>, e: Entry<U>)
    requires stack != []
    ensures front == stack[..|stack| - 1] && e == stack[|stack| - 1]
    ensures multiset(stack) == multiset(front) + multiset{e}
    ensures Units(Reverse(stack)) == [e.batch] + Units(Reverse(front))
  {
    front, e := stack[..|stack| - 1], stack[|stack| - 1];
    assert stack == front + [e];
    UnitsReverse(front, e);
  }

  // done has been put back already, the rest of the stack has not.
  ghost predicate PutBack<U>(done: seq<Batch>, left: seq<Entry<U>>, stack: seq<Entry<U>>) {
    done + Units(Reverse(left)) == Units(Reverse(stack))
  }

  lemma PutBackNext<U>(done: seq<Batch>, left: seq<Entry<U>>, stack: seq<Entry<U>>)
    requires left != [] && PutBack(done, left, stack)
    ensures PutBack(done + [left[|left| - 1].batch], left[..|left| - 1], stack)
  {
    var front, e := PopStack(left);
    assert done + ([e.batch] + Units(Reverse(front))) == done + [e.batch] + Units(Reverse(front));
  }

  lemma PutBackAll<U>(done: seq<Batch>, stack: seq<Entry<U>>)
    requires PutBack(done, [], stack)
    ensures done == Units(Reverse(stack))
  {
    assert done + [] == done;
  }

  // the three lists together hold exactly the entries of all
  ghost predicate Shares<U>(all: seq<Entry<U>>, a: seq<Entry<U>>, b: seq<Entry<U>>, c: seq<Entry<U>>) {
    multiset(all) == multiset(a) + multiset(b) + multiset(c)
  }

  lemma SharesTip<U>(all: seq<Entry<U>>, a: seq<Entry<U>>, e: Entry<U>, b: seq<Entry<U>>, c: seq<Entry<U>>)
    ensures Shares(all, a + [e], b, c) ==> Shares(all, a, b, c + [e])
    ensures Shares(all, a + [e], c, b) ==> Shares(all, a, c + [e], b)
  {
  }

  lemma SizesAdd<U>(all: seq<Entry<U>>, a: seq<Entry<U>>, b: seq<Entry<U>>, c: seq<Entry<U>>)
    requires multiset(all) == multiset(a) + multiset(b) + multiset(c)
    ensures |a| + |b| + |c| == |all|
  {
    assert |multiset(all)| == |multiset(a)| + |multiset(b)| + |multiset(c)|;
  }

  // What holds while the list is taken apart.
  ghost predicate Unwinding<U>(all: seq<Entry<U>>, whole: Split, items: seq<Entry<U>>, linked: seq<Entry<U>>,
                               tip: seq<Entry<U>>, n: Batch, clock: ClockMap) {
    Shares(all, items, linked, tip) && Rejoins(whole, items, linked, tip, n, clock)
  }

  lemma UnwindTip<U>(all: seq<Entry<U>>, whole: Split, items: seq<Entry<U>>, b: Entry<U>, linked: seq<Entry<U>>,
                     tip: seq<Entry<U>>, n: Batch, clock: ClockMap)
    requires Unwinding(all, whole, items + [b], linked, tip, n, clock)
    requires Cmp(n, b.batch) <= 0 && !Hit(clock, b.batch)
    ensures Unwinding(all, whole, items, linked, tip + [b], n, clock)
  {
    SharesTip(all, items, b, linked, tip);
    RejoinTip(whole, items, b, linked, tip, n, clock);
  }

  lemma UnwindLinked<U>(all: seq<Entry<U>>, whole: Split, items: seq<Entry<U>>, b: Entry<U>, linked: seq<Entry<U>>,
                        tip: seq<Entry<U>>, n: Batch, clock: ClockMap)
    requires Unwinding(all, whole, items + [b], linked, tip, n, clock)
    requires Cmp(n, b.batch) <= 0 && Hit(clock, b.batch)
    ensures Unwinding(all, whole, items, linked + [b], tip, n, TickAll(clock, b.batch.links))
  {
    SharesTip(all, items, b, tip, linked);
    RejoinLinked(whole, items, b, linked, tip, n, clock);
  }

  lemma UnwindStop<U>(all: seq<Entry<U>>, whole: Split, items: seq<Entry<U>>, linked: seq<Entry<U>>,
                      tip: seq<Entry<U>>, n: Batch, clock: ClockMap)
    requires Unwinding(all, whole, items, linked, tip, n, clock)
    requires items == [] || Cmp(n, items[|items| - 1].batch) > 0
    ensures whole == Split(Units(items), Units(Reverse(linked)), Units(Reverse(tip)))
    ensures |items| + |linked| + |tip| == |all|
    ensures multiset(all) == multiset(items) + multiset(linked) + multiset(tip)
  {
    RejoinStop(whole, items, linked, tip, n, clock);
    SizesAdd(all, items, linked, tip);
  }

  lemma SameSize<U>(after: seq<Entry<U>>, before: seq<Entry<U>>, e: Entry<U>)
    requires multiset(after) == multiset(before) + multiset{e}
    ensures |after| == |before| + 1
  {
    assert |multiset(after)| == |multiset(before)| + 1;
  }

  lemma InsertAllAppend(list: seq<Batch>, done: seq<Batch>, e: Batch)
    ensures InsertAll(list, done + [e]) == Insert(InsertAll(list, done), e)
  {
    assert (done + [e])[..|done + [e]| - 1] == done;
  }

  class List<U> {
    var items: seq<Entry<U>>

    constructor (items: seq<Entry<U>>)
      ensures this.items == items
    {
      this.items := items;
    }

    method Push(e: Entry<U>)
      modifies this
      ensures items == old(items) + [e]
    {
      items := items + [e];
    }

    method Pop() returns (e: Entry<U>)
      requires items != []
      modifies this
      ensures old(items) == items + [e]
    {
      e := items[|items| - 1];
      items := items[..|items| - 1];
    }

    // Takes off the end everything the walk passes, keeping the past of the batch and the rest
    // on two stacks.
    method Unwind(n: Batch) returns (linked: seq<Entry<U>>, tip: seq<Entry<U>>)
      modifies this
      ensures Walk(Units(old(items)), n, StartClock(n)) ==
              Split(Units(items), Units(Reverse(linked)), Units(Reverse(tip)))
      ensures multiset(old(items)) == multiset(items) + multiset(linked) + multiset(tip)
      ensures |items| + |linked| + |tip| == |old(items)|
    {
      var clock := new Clock();
      clock.Add(Link(n.key, n.length));
      clock.AddAll(n.links);
      if n.cited.Some? {
        clock.Add(n.cited.value);
      }
      linked, tip := [], [];
      ghost var whole := Walk(Units(items), n, clock.lengths);
      RejoinStart(items, n, clock.lengths);
      while items != []
        invariant Unwinding(old(items), whole, items, linked, tip, n, clock.lengths)
        decreases |items|
      {
        if Cmp(n, items[|items| - 1].batch) > 0 {
          break;
        }
        var b := Pop();
        if !clock.Has(b.batch) {
          UnwindTip(old(items), whole, items, b, linked, tip, n, clock.lengths);
          tip := tip + [b];
        } else {
          UnwindLinked(old(items), whole, items, b, linked, tip, n, clock.lengths);
          linked := linked + [b];
          clock.AddAll(b.batch.links);
        }
      }
      UnwindStop(old(items), whole, items, linked, tip, n, clock.lengths);
    }

    // Re-inserts the linked entries, oldest first.
    method Relink(stack: seq<Entry<U>>)
      modifies this
      ensures Units(items) == InsertAll(Units(old(items)), Units(Reverse(stack)))
      ensures multiset(items) == multiset(old(items)) + multiset(stack)
      decreases |items| + |stack|, 0
    {
      var linked := stack;
      ghost var done: seq<Batch> := [];
      ghost var start := Units(items);
      while linked != []
        invariant |items| == |old(items)| + |stack| - |linked|
        invariant PutBack(done, linked, stack)
        invariant Units(items) == InsertAll(start, done)
        invariant multiset(items) + multiset(linked) == multiset(old(items)) + multiset(stack)
        decreases |linked|
      {
        PutBackNext(done, linked, stack);
        ghost var f, l := PopStack(linked);
        var e := linked[|linked| - 1];
        linked := linked[..|linked| - 1];
        ghost var before := items;
        var s := AddSorted(e);
        SameSize(items, before, e);
        InsertAllAppend(start, done, e.batch);
        done := done + [e.batch];
      }
      PutBackAll(done, stack);
    }

    method Restore(stack: seq<Entry<U>>)
      modifies this
      ensures Units(items) == Units(old(items)) + Units(Reverse(stack))
      ensures multiset(items) == multiset(old(items)) + multiset(stack)
    {
      var tip := stack;
      ghost var done: seq<Batch> := [];
      while tip != []
        invariant PutBack(done, tip, stack)
        invariant Units(items) == Units(old(items)) + done
        invariant multiset(items) + multiset(tip) == multiset(old(items)) + multiset(stack)
        decreases |tip|
      {
        PutBackNext(done, tip, stack);
        ghost var f, l := PopStack(tip);
        var e := tip[|tip| - 1];
        tip := tip[..|tip| - 1];
        UnitsConcat(items, [e]);
        Push(e);
        done := done + [e.batch];
      }
      PutBackAll(done, stack);
    }

    // Inserts a batch in place, and tells how much of the list kept its position.
    method AddSorted(e: Entry<U>) returns (shared: nat)
      modifies this
      ensures Units(items) == Insert(Units(old(items)), e.batch)
      ensures multiset(items) == multiset(old(items)) + multiset{e}
      ensures IsShared(items, shared)
      decreases |items|, 1
    {
      var linked, tip := Unwind(e.batch);
      Relink(linked);
      Push(e);
      Restore(tip);
      shared := 0;
      while shared < |items|
        invariant shared <= |items|
        invariant forall i :: 0 <= i < shared ==> items[i].index == i
      {
        if items[shared].index != shared {
          break;
        }
        shared := shared + 1;
      }
    }
  }

  // The order the batches settle in.
  method Linearize(batches: seq<Batch>) returns (r: seq<Batch>)
    ensures r == Settled(batches)
  {
    var list := new List<()>([]);
    for i := 0 to |batches|
      invariant Units(list.items) == Settled(batches[..i])
    {
      var s := list.AddSorted(Entry((), batches[i], -1));
      assert batches[..i + 1][..i] == batches[..i];
    }
    assert batches[..|batches|] == batches;
    r := Units(list.items);
  }
}
