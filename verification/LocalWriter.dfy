// The local writer of lib/writers.js: nodes wait in memory until they are applied, and are then
// moved to the core a whole batch at a time.
module LocalWriter {
  import opened Batches

  // Every node of the history knows its place in its batch, and every batch is complete.
  ghost predicate Batched(h: seq<Node>) {
    forall i :: 0 <= i < |h| ==> InBatch(h, i)
  }

  ghost predicate InBatch(h: seq<Node>, i: nat)
    requires i < |h|
  {
    && h[i].start <= i && i + h[i].end < |h|
    && forall j :: i - h[i].start <= j <= i + h[i].end ==>
         h[j].start == j - (i - h[i].start) && h[j].end == i + h[i].end - j
  }

  ghost predicate Consecutive(h: seq<Node>) {
    forall i :: 0 <= i < |h| ==> h[i].length == i + 1
  }

  // position k separates two batches
  ghost predicate Boundary(h: seq<Node>, k: nat) {
    k <= |h| && (k == 0 || h[k - 1].end == 0)
  }

  // the batch that ends at position k
  ghost function BatchBefore(h: seq<Node>, k: nat): seq<Node>
    requires Batched(h) && 0 < k && Boundary(h, k)
  {
    assert InBatch(h, k - 1);
    h[k - 1 - h[k - 1].start..k]
  }

  // Right after a boundary a batch starts.
  lemma BoundaryStarts(h: seq<Node>, k: nat)
    requires Batched(h) && Boundary(h, k) && k < |h|
    ensures h[k].start == 0
  {
    if k > 0 {
      InsideNotLast(h, k);
    }
    assert InBatch(h, k);
  }

  lemma InsideNotLast(h: seq<Node>, k: nat)
    requires Batched(h) && 0 < k < |h|
    ensures h[k].start > 0 ==> h[k - 1].end == h[k].end + 1
  {
    assert InBatch(h, k);
  }

  // A batch has no boundary inside.
  lemma NoBoundaryInside(h: seq<Node>, k: nat, j: nat)
    requires Batched(h) && Boundary(h, k) && k < |h| && k <= j <= k + h[k].end
    ensures j < |h| && h[j].start == j - k && h[j].end == k + h[k].end - j
  {
    BoundaryStarts(h, k);
    assert InBatch(h, k);
  }

  class Writer {
    var core: seq<Node>
    var pending: Option<seq<Node>>
    var processed: nat
    var appendLength: nat

    function Waiting(): seq<Node>
      reads this`pending
    {
      if pending.Some? then pending.value else []
    }

    // everything appended so far, in order
    ghost function History(): seq<Node>
      reads this`core, this`pending
    {
      core + Waiting()
    }

    // Whatever has been appended is numbered and comes in whole batches.
    ghost predicate Whole()
      reads this`core, this`pending
    {
      Consecutive(History()) && Batched(History())
    }

    ghost predicate Valid()
      reads this
    {
      && Whole() && appendLength == |History()| + 1
      && processed <= |Waiting()|
      && Boundary(History(), |core|) && Boundary(History(), |core| + processed)
      && (pending.Some? ==> pending.value != [])
    }

    constructor ()
      ensures Valid() && History() == []
    {
      core, pending, processed, appendLength := [], None, 0, 1;
    }

    // One node; start and end say where it stands in its batch.
    method Append(key: Key, value: string, timestamp: int, start: nat, end: nat,
                  links: seq<Link>, cited: Option<Link>, hash: Option<nat>, approvals: seq<Approval>)
      returns (node: Node)
      modifies this
      ensures core == old(core) && processed == old(processed)
      ensures pending == Some(old(Waiting()) + [node]) && appendLength == old(appendLength) + 1
      ensures node == Node(key, old(appendLength), timestamp, -1, links, cited, hash, approvals, value, start, end)
    {
      if pending == None {
        pending := Some([]);
      }
      node := Node(key, appendLength, timestamp, -1, links, cited, hash, approvals, value, start, end);
      appendLength := appendLength + 1;
      pending := Some(pending.value + [node]);
    }

    method AppendNodes(key: Key, values: seq<string>, timestamp: int,
                       links: seq<Link>, cited: Option<Link>, hash: Option<nat>, approvals: seq<Approval>)
      returns (batch: seq<Node>)
      modifies this
      ensures batch == Members(Batch(key, old(appendLength), values, timestamp, -1, links, cited, hash, approvals))
      ensures core == old(core) && processed == old(processed) && appendLength == old(appendLength) + |values|
      ensures Waiting() == old(Waiting()) + batch && (values != [] ==> pending.Some?)
    {
      batch := [];
      ghost var whole := Batch(key, appendLength, values, timestamp, -1, links, cited, hash, approvals);
      for i := 0 to |values|
        invariant batch == Members(whole)[..i] && core == old(core) && processed == old(processed)
        invariant appendLength == old(appendLength) + i
        invariant Waiting() == old(Waiting()) + batch && (i > 0 ==> pending.Some?)
      {
        var node := Append(key, values[i], timestamp, i, |values| - 1 - i, if i == 0 then links else [],
                           if i == 0 then cited else None, if i == 0 then hash else None,
                           if i == 0 then approvals else []);
        assert node == Member(whole, i);
        batch := batch + [node];
      }
    }

    // A batch of values: only its first node carries links, the citation, the hash and approvals.
    method AppendBatch(key: Key, values: seq<string>, timestamp: int,
                       links: seq<Link>, cited: Option<Link>, hash: Option<nat>, approvals: seq<Approval>)
      returns (batch: seq<Node>)
      requires Valid() && values != []
      modifies this
      ensures Valid() && History() == old(History()) + batch
      ensures core == old(core) && processed == old(processed)
      ensures batch == Members(Batch(key, old(appendLength), values, timestamp, -1, links, cited, hash, approvals))
    {
      ghost var before := History();
      batch := AppendNodes(key, values, timestamp, links, cited, hash, approvals);
      AppendKeepsBatched(before, batch);
      assert History() == before + batch;
    }

    // Takes the next batch to apply: skips what the system already has and nothing else, then
    // takes nodes up to the end of a batch as long as they may be applied. Only the head of a
    // batch has links to wait for, so once it is let in the gate lets in the rest.
    method Next(length: nat, ready: Node -> bool) returns (batch: Option<seq<Node>>)
      requires Valid() && |core| <= length && Boundary(History(), length)
      requires HeadDecides(History(), ready)
      modifies this`processed
      ensures Valid() && processed >= old(processed)
      ensures batch.Some? ==> Handed(batch.value, Start(old(|core| + processed), length)) && ready(batch.value[0])
      ensures batch == None ==> processed == |Waiting()| || !ready(Waiting()[processed])
      ensures batch == None ==> |core| + processed <= Start(old(|core| + processed), length)
    {
      if pending == None {
        return None;
      }
      Skip(length);
      ghost var start := |core| + processed;
      batch := Take(ready);
      assert batch.Some? ==> start == Start(old(|core| + processed), length);
    }

    // where the next batch starts: the system may be ahead of what was handed out
    function Start(mark: nat, length: nat): nat {
      if mark < length then length else mark
    }

    // The batch is whole, starts at this position of the history and ends at the new mark.
    ghost predicate Handed(batch: seq<Node>, start: nat)
      reads this
    {
      && |core| <= start && processed <= |Waiting()| && IsBatch(History(), start, |core| + processed)
      && batch == Waiting()[start - |core|..processed]
    }

    method Skip(length: nat)
      requires Valid() && pending.Some? && |core| <= length && Boundary(History(), length)
      modifies this`processed
      ensures Valid() && processed >= old(processed)
      ensures |core| + processed <= Start(old(|core| + processed), length)
      ensures processed < |Waiting()| ==> |core| + processed == Start(old(|core| + processed), length)
    {
      var start := processed;
      var end := |pending.value|;
      while start < end && pending.value[start].length <= length
        invariant old(processed) <= start <= end && processed == start
        invariant start == old(processed) || |core| + start <= length
      {
        assert History()[|core| + start] == pending.value[start];
        start := start + 1;
        processed := start;
      }
      StartIsBoundary(start, length, old(processed));
      assert start < end ==> History()[|core| + start] == pending.value[start];
    }

    method Take(ready: Node -> bool) returns (batch: Option<seq<Node>>)
      requires Valid() && pending.Some? && HeadDecides(History(), ready)
      modifies this`processed
      ensures Valid() && processed >= old(processed)
      ensures batch.Some? ==> Handed(batch.value, |core| + old(processed)) && ready(batch.value[0])
      ensures batch == None ==> processed == old(processed)
      ensures batch == None ==> processed == |Waiting()| || !ready(Waiting()[processed])
    {
      var end := TakeUntil(processed, ready);
      if end == processed {
        return None;
      }
      batch := Some(pending.value[processed..end]);
      processed := end;
    }

    // How far the nodes from start on can be taken: to the end of their batch, or not at all.
    method TakeUntil(start: nat, ready: Node -> bool) returns (i: nat)
      requires pending.Some? && start <= |pending.value| && Batched(History())
      requires Boundary(History(), |core| + start) && HeadDecides(History(), ready)
      ensures start <= i <= |pending.value|
      ensures i == start ==> i == |pending.value| || !ready(pending.value[i])
      ensures i > start ==> IsBatch(History(), |core| + start, |core| + i) && ready(pending.value[start])
    {
      ghost var h, at := History(), |core| + start;
      i := start;
      while i < |pending.value|
        invariant start <= i <= |pending.value|
        invariant i > start ==> Partial(h, ready, at, |core| + i)
        decreases |pending.value| - i
      {
        var node := pending.value[i];
        assert h[|core| + i] == node;
        NextMember(h, ready, at, |core| + i);
        if !ready(node) {
          return;
        }
        i := i + 1;
        if node.end == 0 {
          return;
        }
      }
      NothingCutOff(h, ready, at);
    }

    // Skipping ends at a boundary: where the last call stopped, or where the system stands.
    lemma StartIsBoundary(start: nat, length: nat, before: nat)
      requires Boundary(History(), |core| + before) && Boundary(History(), length)
      requires Consecutive(History()) && before <= start <= |Waiting()| && |core| <= length
      requires start == before || |core| + start <= length
      requires start < |Waiting()| ==> Waiting()[start].length > length
      ensures Boundary(History(), |core| + start)
    {
      if start < |Waiting()| {
        assert History()[|core| + start] == Waiting()[start];
      }
    }

    // Drops what has been moved to the core.
    method Clear()
      modifies this`pending, this`processed
      requires processed <= |Waiting()|
      ensures processed == 0 && Waiting() == old(Waiting())[old(processed)..]
      ensures pending.Some? && old(pending.Some? && pending.value != []) ==> pending.value != []
    {
      if pending == None {
        processed := 0;
        return;
      }
      if processed == |pending.value| {
        pending := None;
      } else {
        pending := Some(pending.value[processed..]);
      }
      processed := 0;
    }

    // Moves the applied nodes to the core: whole batches, and the history stays what it was.
    method Flush()
      requires Valid()
      modifies this
      ensures Valid() && History() == old(History())
      ensures |core| == old(|core| + processed) && core == old(History())[..|core|]
    {
      if pending == None || processed == 0 {
        return;
      }
      ghost var h := History();
      core := core + pending.value[..processed];
      Clear();
      assert History() == h;
    }

    // The batch that ends at a length, wherever it is by now.
    method GetBatch(length: nat) returns (batch: seq<Node>)
      requires Valid() && 0 < length && Boundary(History(), length)
      ensures batch == BatchBefore(History(), length)
    {
      if length > |core| {
        batch := GetPending(length);
      } else {
        batch := GetStored(length);
      }
    }

    method GetPending(length: nat) returns (batch: seq<Node>)
      requires Valid() && |core| < length && Boundary(History(), length)
      ensures batch == BatchBefore(History(), length)
    {
      ghost var h := History();
      var i := 0;
      while i < |pending.value| && pending.value[i].length != length
        invariant i <= length - |core| - 1
      {
        assert h[|core| + i] == pending.value[i];
        i := i + 1;
      }
      assert h[|core| + i] == pending.value[i];
      var head := pending.value[i];
      CoreIsWhole(h, |core|, length);
      SliceOfConcat(core, pending.value, i - head.start, i + head.end + 1);
      batch := pending.value[i - head.start..i + head.end + 1];
    }

    method GetStored(length: nat) returns (batch: seq<Node>)
      requires Valid() && 0 < length <= |core| && Boundary(History(), length)
      ensures batch == BatchBefore(History(), length)
    {
      var head := core[length - 1];
      StoredBatch(core, Waiting(), length);
      batch := Gather(core, length - 1 - head.start, length - 1 + head.end);
      batch := batch + [head];
    }
  }

  method Gather(core: seq<Node>, start: nat, end: nat) returns (nodes: seq<Node>)
    requires start <= end <= |core|
    ensures nodes == core[start..end]
  {
    nodes := [];
    for i := start to end
      invariant nodes == core[start..i]
    {
      nodes := nodes + [core[i]];
    }
  }

  lemma StoredBatch(core: seq<Node>, waiting: seq<Node>, length: nat)
    requires Batched(core + waiting) && 0 < length <= |core| && Boundary(core + waiting, length)
    ensures var head := core[length - 1];
            && head.end == 0 && head.start < length
            && core[length - 1 - head.start..length - 1] + [head] == BatchBefore(core + waiting, length)
  {
    assert (core + waiting)[length - 1] == core[length - 1];
    assert InBatch(core + waiting, length - 1);
  }

  // A batch that ends past a boundary starts there or later.
  lemma CoreIsWhole(h: seq<Node>, k: nat, length: nat)
    requires Batched(h) && Boundary(h, k) && k < length && Boundary(h, length)
    ensures h[length - 1].start <= length - 1 - k
  {
    if k > 0 {
      EndsCountDown(h, length - 1, k - 1);
    }
    assert InBatch(h, length - 1);
  }

  lemma EndsCountDown(h: seq<Node>, i: nat, j: nat)
    requires Batched(h) && j <= i < |h|
    ensures i - h[i].start <= j ==> h[j].end == i + h[i].end - j
  {
    assert InBatch(h, i);
  }

  lemma WholeBatch(h: seq<Node>, at: nat, pos: nat)
    requires Batched(h) && Boundary(h, at) && at <= pos < |h| && pos <= at + h[at].end && h[pos].end == 0
    ensures Boundary(h, pos + 1) && BatchBefore(h, pos + 1) == h[at..pos + 1]
  {
    NoBoundaryInside(h, at, pos);
  }

  // The gate lets in the rest of a batch with its head: only the head has anything to wait for.
  ghost predicate HeadDecides(h: seq<Node>, ready: Node -> bool) {
    forall i :: 0 < i < |h| ==> AfterPrevious(h, ready, i)
  }

  ghost predicate AfterPrevious(h: seq<Node>, ready: Node -> bool, i: nat)
    requires 0 < i < |h|
  {
    h[i].start > 0 && ready(h[i - 1]) ==> ready(h[i])
  }

  // some nodes of the batch that starts at a boundary have been taken, but not all
  ghost predicate Partial(h: seq<Node>, ready: Node -> bool, at: nat, k: nat) {
    at < k <= |h| && k <= at + h[at].end && ready(h[k - 1]) && ready(h[at])
  }

  // positions at to k hold one whole batch
  ghost predicate IsBatch(h: seq<Node>, at: nat, k: nat) {
    Batched(h) && at < k && Boundary(h, k) && BatchBefore(h, k) == h[at..k]
  }

  // The next member of a batch under way is ready too, and ends the batch or leaves it under way.
  lemma NextMember(h: seq<Node>, ready: Node -> bool, at: nat, k: nat)
    requires Batched(h) && Boundary(h, at) && HeadDecides(h, ready) && k < |h|
    requires k == at || Partial(h, ready, at, k)
    ensures k > at ==> ready(h[k])
    ensures ready(h[k]) && h[k].end > 0 ==> Partial(h, ready, at, k + 1)
    ensures ready(h[k]) && h[k].end == 0 ==>
              ready(h[at]) && IsBatch(h, at, k + 1)
  {
    assert k > 0 ==> AfterPrevious(h, ready, k);
    NoBoundaryInside(h, at, k);
    if h[k].end == 0 {
      WholeBatch(h, at, k);
    }
  }

  // The history does not end inside a batch.
  lemma NothingCutOff(h: seq<Node>, ready: Node -> bool, at: nat)
    requires Batched(h)
    ensures !Partial(h, ready, at, |h|)
  {
    if at < |h| {
      assert InBatch(h, at);
    }
  }

  lemma SliceOfConcat<T>(a: seq<T>, b: seq<T>, i: nat, j: nat)
    requires i <= j <= |b|
    ensures (a + b)[|a| + i..|a| + j] == b[i..j]
  {
  }

  lemma AppendKeepsBatched(h: seq<Node>, batch: seq<Node>)
    requires Batched(h)
    requires forall i :: 0 <= i < |batch| ==> batch[i].start == i && batch[i].end == |batch| - 1 - i
    ensures Batched(h + batch)
    ensures forall k :: Boundary(h, k) ==> Boundary(h + batch, k)
  {
    var t := h + batch;
    forall i | 0 <= i < |t|
      ensures InBatch(t, i)
    {
      if i < |h| {
        assert InBatch(h, i);
      }
    }
  }
}
