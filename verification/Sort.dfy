// Sorting one batch into the applied log: lib/topo.js sort.
module Sort {
  import opened Batches
  import opened Topo
  import opened Window
  import opened System
  import opened Linearizer

  // One flush of the changes stream: the batch it applied and the head it was written on.
  datatype Ref<V> = Ref(undo: Bee<V>, oplog: Batch)

  // The stream compares against the writer record, which holds the position of the last member.
  function RecordOf(b: Batch): Batch
    requires b.values != []
  {
    b.(length := b.End() - 1)
  }

  lemma RecordSortsAlike(n: Batch, b: Batch)
    requires n.values != [] && b.values != [] && (n.key == b.key ==> b.End() <= n.length || n.End() <= b.length)
    ensures Cmp(n, RecordOf(b)) < 0 <==> Cmp(n, b) < 0
  {
  }

  // n is not in the log and shares no node with it
  ghost predicate Apart(log: seq<Batch>, n: Batch) {
    n.values != [] && forall b :: b in log ==>
      b.values != [] && b != n && (n.key == b.key ==> b.End() <= n.length || n.End() <= b.length)
  }

  // above is the flush of b on below
  ghost predicate FlushedOn<V>(below: Bee<V>, b: Batch, above: Bee<V>) {
    above.Flush? && above.oplog == b && above.tail == below
  }

  // snaps are the heads of a chain of flushes: below the log, and after each of its batches
  ghost predicate Chain<V>(snaps: seq<Bee<V>>, log: seq<Batch>) {
    && |snaps| == |log| + 1 && snaps[0] == Empty
    && forall i :: 0 <= i < |log| ==> FlushedOn(snaps[i], log[i], snaps[i + 1])
  }

  // refs are the flushes of the end of the log, latest first
  ghost predicate Streamed<V>(snaps: seq<Bee<V>>, log: seq<Batch>, refs: seq<Ref<V>>)
    requires |snaps| == |log| + 1
  {
    && |refs| <= |log|
    && forall j :: 0 <= j < |refs| ==> refs[j] == Ref(snaps[|log| - 1 - j], log[|log| - 1 - j])
  }

  // Reads the log from its end up to the first batch that n does not sort before.
  method ReadWindow<V>(ghost snaps: seq<Bee<V>>, ghost log: seq<Batch>, bee: Bee<V>, n: Batch)
    returns (refs: seq<Ref<V>>)
    requires Chain(snaps, log) && bee == snaps[|log|] && Apart(log, n)
    ensures Streamed(snaps, log, refs) && |log| - |refs| == WindowStart(log, n)
  {
    refs := [];
    var cur := bee;
    ghost var k := |log|;
    while cur.Flush?
      invariant Streamed(snaps, log, refs) && k == |log| - |refs|
      invariant cur == snaps[k]
      invariant WindowFrom(log, n, k) == WindowStart(log, n)
      decreases cur
    {
      assert FlushedOn(snaps[k - 1], log[k - 1], snaps[k]);
      RecordSortsAlike(n, log[k - 1]);
      if !(Cmp(n, RecordOf(cur.oplog)) < 0) {
        break;
      }
      refs := refs + [Ref(cur.tail, cur.oplog)];
      cur := cur.tail;
      k := k - 1;
    }
  }

  // entries are the end of the log in log order, each with the head below it
  ghost predicate Inflated<V>(snaps: seq<Bee<V>>, log: seq<Batch>, k: nat, entries: seq<Entry<Option<Bee<V>>>>)
    requires |snaps| == |log| + 1
  {
    && k + |entries| <= |log|
    && forall i :: 0 <= i < |entries| ==> entries[i] == Entry(Some(snaps[k + i]), log[k + i], i)
  }

  method Inflate<V>(ghost snaps: seq<Bee<V>>, ghost log: seq<Batch>, refs: seq<Ref<V>>)
    returns (entries: seq<Entry<Option<Bee<V>>>>)
    requires |snaps| == |log| + 1 && Streamed(snaps, log, refs)
    ensures |entries| == |refs| && Inflated(snaps, log, |log| - |refs|, entries)
  {
    entries := [];
    for i := 0 to |refs|
      invariant |entries| == i && Inflated(snaps, log, |log| - |refs|, entries)
    {
      var ref := refs[|refs| - 1 - i];
      entries := entries + [Entry(Some(ref.undo), ref.oplog, i)];
    }
  }

  // at is where the new order first differs from the old one
  ghost predicate FirstDifference(log: seq<Batch>, after: seq<Batch>, at: nat) {
    && at <= |log| && at <= |after| && after[..at] == log[..at]
    && (at < |log| ==> at < |after| && after[at] != log[at])
  }

  // The prefix that kept its positions is the longest common prefix.
  lemma SharedIsCommonPrefix<V>(snaps: seq<Bee<V>>, log: seq<Batch>, k: nat, before: seq<Entry<Option<Bee<V>>>>,
                                e: Entry<Option<Bee<V>>>, items: seq<Entry<Option<Bee<V>>>>, shared: nat)
    requires |snaps| == |log| + 1 && Inflated(snaps, log, k, before) && k + |before| == |log| && Distinct(log)
    requires e.index == -1 && e.batch !in log
    requires multiset(items) == multiset(before) + multiset{e}
    requires IsShared(items, shared)
    ensures shared <= |before| && |items| == |before| + 1
    ensures forall i :: 0 <= i < shared ==> items[i] == before[i]
    ensures shared < |before| ==> items[shared].batch != log[k + shared]
  {
    SameSize(items, before, e);
    forall i | 0 <= i < |items|
      ensures items[i] == e || (0 <= items[i].index < |before| && items[i] == before[items[i].index])
    {
      ItemKnown(before, e, items, i);
      if items[i] != e {
        var j :| 0 <= j < |before| && before[j] == items[i];
      }
    }
    assert e in multiset(items);
    var j :| 0 <= j < |items| && items[j] == e;
  }

  lemma ItemKnown<U>(before: seq<Entry<U>>, e: Entry<U>, items: seq<Entry<U>>, i: nat)
    requires multiset(items) == multiset(before) + multiset{e} && i < |items|
    ensures items[i] == e || items[i] in before
  {
    assert items[i] in multiset(items);
  }

  // The new order is the log up to its first difference, and the tip; undo is the snapshot of
  // that common prefix, if anything above it has to go.
  ghost predicate SortedInto<V>(snaps: seq<Bee<V>>, log: seq<Batch>, n: Batch,
                                undo: Option<Bee<V>>, tip: seq<Batch>, at: nat)
    requires |snaps| == |log| + 1
  {
    && FirstDifference(log, Insert(log, n), at)
    && Insert(log, n) == log[..at] + tip
    && undo == if at < |log| then Some(snaps[at]) else None
  }

  // The batches from the first changed position on, and the snapshot to rewind to, if any.
  method SortBatch<V>(ghost snaps: seq<Bee<V>>, ghost log: seq<Batch>, bee: Bee<V>, n: Batch)
    returns (undo: Option<Bee<V>>, tip: seq<Batch>, ghost at: nat)
    requires Chain(snaps, log) && bee == snaps[|log|] && Apart(log, n) && Distinct(log)
    ensures SortedInto(snaps, log, n, undo, tip, at)
  {
    var refs := ReadWindow(snaps, log, bee, n);
    var inflated := Inflate(snaps, log, refs);
    var items, shared := SortWindow(inflated, n);
    tip := Units(items[shared..]);
    undo := if shared < |inflated| then inflated[shared].undo else None;
    at := |log| - |refs| + shared;
    WindowSorted(snaps, log, |log| - |refs|, n, inflated, items, shared, undo, tip, at);
  }

  method SortWindow<V>(inflated: seq<Entry<Option<Bee<V>>>>, n: Batch)
    returns (items: seq<Entry<Option<Bee<V>>>>, shared: nat)
    ensures Units(items) == Insert(Units(inflated), n) && IsShared(items, shared)
    ensures multiset(items) == multiset(inflated) + multiset{Entry(None, n, -1)}
  {
    var list := new List(inflated);
    shared := list.AddSorted(Entry(None, n, -1));
    items := list.items;
  }

  lemma WindowSorted<V>(snaps: seq<Bee<V>>, log: seq<Batch>, k: nat, n: Batch, before: seq<Entry<Option<Bee<V>>>>,
                        items: seq<Entry<Option<Bee<V>>>>, shared: nat,
                        undo: Option<Bee<V>>, tip: seq<Batch>, at: nat)
    requires |snaps| == |log| + 1 && Inflated(snaps, log, k, before) && k + |before| == |log| && k == WindowStart(log, n)
    requires Distinct(log) && Apart(log, n)
    requires Units(items) == Insert(Units(before), n) && IsShared(items, shared)
    requires multiset(items) == multiset(before) + multiset{Entry(None, n, -1)}
    requires tip == Units(items[shared..]) && at == k + shared
    requires undo == if shared < |before| then before[shared].undo else None
    ensures SortedInto(snaps, log, n, undo, tip, at)
  {
    SharedIsCommonPrefix(snaps, log, k, before, Entry(None, n, -1), items, shared);
    WindowOrder(snaps, log, k, n, before, items, shared);
    UndoAt(snaps, log, k, before, shared);
  }

  lemma UndoAt<V>(snaps: seq<Bee<V>>, log: seq<Batch>, k: nat, before: seq<Entry<Option<Bee<V>>>>, i: nat)
    requires |snaps| == |log| + 1 && Inflated(snaps, log, k, before)
    ensures i < |before| ==> before[i].undo == Some(snaps[k + i])
  {
  }

  lemma WindowOrder<V>(snaps: seq<Bee<V>>, log: seq<Batch>, k: nat, n: Batch, before: seq<Entry<Option<Bee<V>>>>,
                       items: seq<Entry<Option<Bee<V>>>>, shared: nat)
    requires |snaps| == |log| + 1 && Inflated(snaps, log, k, before) && k + |before| == |log| && k == WindowStart(log, n)
    requires Units(items) == Insert(Units(before), n)
    requires shared <= |before| && |items| == |before| + 1
    requires forall i :: 0 <= i < shared ==> items[i] == before[i]
    requires shared < |before| ==> items[shared].batch != log[k + shared]
    ensures Insert(log, n) == log[..k + shared] + Units(items[shared..])
    ensures FirstDifference(log, Insert(log, n), k + shared)
  {
    UnitsInflated(snaps, log, k, before);
    PrefixAndTip(snaps, log, k, before, items, shared);
    var tip := Units(items[shared..]);
    assert tip[0] == items[shared].batch;
    OrderFromWindow(log, k, n, k + shared, tip);
  }

  lemma UnitsInflated<V>(snaps: seq<Bee<V>>, log: seq<Batch>, k: nat, before: seq<Entry<Option<Bee<V>>>>)
    requires |snaps| == |log| + 1 && Inflated(snaps, log, k, before) && k + |before| == |log|
    ensures Units(before) == log[k..]
  {
    forall i | 0 <= i < |before|
      ensures Units(before)[i] == log[k..][i]
    {
      assert before[i].batch == log[k + i];
    }
  }

  lemma OrderFromWindow(log: seq<Batch>, k: nat, n: Batch, at: nat, tip: seq<Batch>)
    requires k == WindowStart(log, n) && at <= |log|
    requires log[..k] + Insert(log[k..], n) == log[..at] + tip
    requires tip != [] && (at < |log| ==> tip[0] != log[at])
    ensures Insert(log, n) == log[..at] + tip && FirstDifference(log, Insert(log, n), at)
  {
    WindowExact(log, n);
    PrefixDiffers(log, at, tip);
  }

  lemma PrefixDiffers(log: seq<Batch>, at: nat, tip: seq<Batch>)
    requires at <= |log| && tip != [] && (at < |log| ==> tip[0] != log[at])
    ensures FirstDifference(log, log[..at] + tip, at)
  {
  }

  lemma PrefixAndTip<V>(snaps: seq<Bee<V>>, log: seq<Batch>, k: nat, before: seq<Entry<Option<Bee<V>>>>,
                        items: seq<Entry<Option<Bee<V>>>>, shared: nat)
    requires |snaps| == |log| + 1 && Inflated(snaps, log, k, before) && k + |before| == |log|
    requires shared <= |before| && |items| == |before| + 1
    requires forall i :: 0 <= i < shared ==> items[i] == before[i]
    ensures log[..k] + Units(items) == log[..k + shared] + Units(items[shared..])
  {
    var kept := Units(items[..shared]);
    forall i | 0 <= i < shared
      ensures kept[i] == log[k..k + shared][i]
    {
      assert items[i] == before[i];
    }
    assert kept == log[k..k + shared];
    assert items == items[..shared] + items[shared..];
    UnitsConcat(items[..shared], items[shared..]);
    SplitJoin(log, k, shared, Units(items[shared..]));
  }

  lemma SplitJoin(log: seq<Batch>, k: nat, n: nat, rest: seq<Batch>)
    requires k + n <= |log|
    ensures log[..k] + (log[k..k + n] + rest) == log[..k + n] + rest
  {
    assert log[..k + n] == log[..k] + log[k..k + n];
  }
}
