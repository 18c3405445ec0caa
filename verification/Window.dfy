// Facts about the walk that hold of any list: it permutes, and it never looks further back than
// the first entry its batch does not sort before.
module Window {
  import opened Batches
  import opened Topo

  // ----- permutation -----

  lemma {:induction false} WalkPermutes(list: seq<Batch>, n: Batch, clock: ClockMap)
    ensures var w := Walk(list, n, clock);
            multiset(list) == multiset(w.prefix) + multiset(w.linked) + multiset(w.tip)
    decreases |list|
  {
    if !(list == [] || Cmp(n, list[|list| - 1]) > 0) {
      var front, e := list[..|list| - 1], list[|list| - 1];
      assert list == front + [e];
      if Hit(clock, e) {
        WalkPermutes(front, n, TickAll(clock, e.links));
      } else {
        WalkPermutes(front, n, clock);
      }
    }
  }

  lemma {:induction false} InsertPermutes(list: seq<Batch>, n: Batch)
    ensures multiset(Insert(list, n)) == multiset(list) + multiset{n}
    decreases |list|, 1
  {
    var w := Walk(list, n, StartClock(n));
    WalkPermutes(list, n, StartClock(n));
    InsertAllPermutes(w.prefix, w.linked);
  }

  lemma {:induction false} InsertAllPermutes(list: seq<Batch>, linked: seq<Batch>)
    ensures multiset(InsertAll(list, linked)) == multiset(list) + multiset(linked)
    decreases |list| + |linked|, 0
  {
    if linked != [] {
      var front, e := linked[..|linked| - 1], linked[|linked| - 1];
      assert linked == front + [e];
      InsertAllPermutes(list, front);
      InsertPermutes(InsertAll(list, front), e);
    }
  }

  // ----- the window -----

  // the walk cannot pass the end of a
  ghost predicate Stops(a: seq<Batch>, n: Batch) {
    a == [] || Cmp(n, a[|a| - 1]) > 0
  }

  ghost predicate AllStop(a: seq<Batch>, s: seq<Batch>) {
    forall x :: x in s ==> Stops(a, x)
  }

  lemma {:induction false} WalkWindow(a: seq<Batch>, b: seq<Batch>, n: Batch, clock: ClockMap)
    requires Stops(a, n) && AllStop(a, b)
    ensures var w := Walk(b, n, clock);
            && Walk(a + b, n, clock) == w.(prefix := a + w.prefix)
            && AllStop(a, w.prefix) && AllStop(a, w.linked)
    decreases |b|
  {
    if b == [] {
      assert a + b == a;
    } else {
      var front, e := b[..|b| - 1], b[|b| - 1];
      assert (a + b)[..|a + b| - 1] == a + front && (a + b)[|a + b| - 1] == e;
      if Cmp(n, e) > 0 {
        assert Walk(a + b, n, clock) == Split(a + b, [], []);
      } else if Hit(clock, e) {
        WalkWindow(a, front, n, TickAll(clock, e.links));
      } else {
        WalkWindow(a, front, n, clock);
      }
    }
  }

  // Inserting into the window alone is the same as inserting into the whole list.
  lemma {:induction false} InsertWindow(a: seq<Batch>, b: seq<Batch>, n: Batch)
    requires Stops(a, n) && AllStop(a, b)
    ensures Insert(a + b, n) == a + Insert(b, n)
    decreases |b|, 1
  {
    var w := Walk(b, n, StartClock(n));
    WalkWindow(a, b, n, StartClock(n));
    InsertAllWindow(a, w.prefix, w.linked);
    assert (a + InsertAll(w.prefix, w.linked)) + [n] + w.tip == a + (InsertAll(w.prefix, w.linked) + [n] + w.tip);
  }

  lemma {:induction false} InsertAllWindow(a: seq<Batch>, b: seq<Batch>, linked: seq<Batch>)
    requires AllStop(a, b) && AllStop(a, linked)
    ensures InsertAll(a + b, linked) == a + InsertAll(b, linked)
    ensures AllStop(a, InsertAll(b, linked))
    decreases |b| + |linked|, 0
  {
    if linked != [] {
      var front, e := linked[..|linked| - 1], linked[|linked| - 1];
      InsertAllWindow(a, b, front);
      InsertWindow(a, InsertAll(b, front), e);
      InsertPermutes(InsertAll(b, front), e);
      forall x | x in InsertAll(b, linked)
        ensures Stops(a, x)
      {
        assert x in multiset(InsertAll(b, linked));
      }
    }
  }

  // the length of the part of the log that the bounded walk leaves alone: everything up to the
  // last batch that n does not sort before
  function WindowStart(log: seq<Batch>, n: Batch): (k: nat)
    ensures k <= |log|
  {
    WindowFrom(log, n, |log|)
  }

  function WindowFrom(log: seq<Batch>, n: Batch, end: nat): (k: nat)
    requires end <= |log|
    ensures k <= end
  {
    if end == 0 || Cmp(n, log[end - 1]) >= 0 then end else WindowFrom(log, n, end - 1)
  }

  // The window is the longest end of the log that n sorts before.
  lemma {:induction false} WindowBounds(log: seq<Batch>, n: Batch, end: nat)
    requires end <= |log|
    ensures var k := WindowFrom(log, n, end);
            && (k > 0 ==> Cmp(n, log[k - 1]) >= 0)
            && forall i :: k <= i < end ==> Cmp(n, log[i]) < 0
  {
    if !(end == 0 || Cmp(n, log[end - 1]) >= 0) {
      WindowBounds(log, n, end - 1);
    }
  }

  // Loading only the window is exact, whatever is in the log.
  lemma WindowExact(log: seq<Batch>, n: Batch)
    ensures var k := WindowStart(log, n);
            Insert(log, n) == log[..k] + Insert(log[k..], n)
  {
    var k := WindowStart(log, n);
    var a, b := log[..k], log[k..];
    WindowBounds(log, n, |log|);
    assert log == a + b;
    if k > 0 {
      var last := log[k - 1];
      assert a[|a| - 1] == last;
      forall x | x in b
        ensures Stops(a, x)
      {
        var i :| 0 <= i < |b| && b[i] == x;
        assert log[k + i] == x;
        CmpChain(last, n, x);
      }
    }
    InsertWindow(a, b, n);
  }

  lemma CmpChain(a: Batch, n: Batch, x: Batch)
    requires Cmp(n, a) > 0 && Cmp(n, x) < 0
    ensures Cmp(x, a) > 0
  {
  }
}
