// Grouping loose nodes into wire batches in reference/order.js.
module Grouping {
  import opened Batches
  import opened Reference

  // n continues the batch that p has left open
  predicate Continues(p: Node, n: Node) {
    p.key == n.key && n.length == p.length + 1 && n.start == p.start + 1 && p.end != 0
  }

  predicate Follows(p: Node, n: Node) {
    Continues(p, n) && n.weight == p.weight
  }

  // the first members of a batch, numbered from its head
  predicate IsOpen(m: seq<Node>) {
    && (forall i :: 0 <= i < |m| ==> m[i].start == i)
    && (forall i :: 0 < i < |m| ==> Continues(m[i - 1], m[i]))
  }

  predicate UniformWeight(m: seq<Node>) {
    forall n :: n in m ==> n.weight == m[0].weight
  }

  // one whole batch
  predicate IsUnit(m: seq<Node>) {
    m != [] && IsOpen(m) && m[|m| - 1].end == 0 && UniformWeight(m)
  }

  // In other words: one writer, one weight, consecutive lengths, and only the last ends the batch.
  lemma UnitMeans(m: seq<Node>)
    ensures IsUnit(m) <==>
              m != [] && forall i :: 0 <= i < |m| ==>
                m[i].key == m[0].key && m[i].weight == m[0].weight && m[i].length == m[0].length + i &&
                m[i].start == i && (m[i].end == 0 <==> i == |m| - 1)
  {
    if IsUnit(m) {
      forall i | 0 <= i < |m|
        ensures m[i].key == m[0].key && m[i].weight == m[0].weight && m[i].length == m[0].length + i
        ensures m[i].end == 0 <==> i == |m| - 1
      {
        OpenNumbers(m, i);
        assert m[i] in m;
        assert i + 1 < |m| ==> Continues(m[i], m[i + 1]);
      }
    }
  }

  lemma {:induction false} OpenNumbers(m: seq<Node>, i: nat)
    requires IsOpen(m) && i < |m|
    ensures m[i].key == m[0].key && m[i].length == m[0].length + i
  {
    if i > 0 {
      OpenNumbers(m, i - 1);
      assert Continues(m[i - 1], m[i]);
    }
  }

  predicate AllUnits(units: seq<seq<Node>>) {
    forall m :: m in units ==> IsUnit(m)
  }

  // Every node that is not a head follows another, and every node that ends no batch is followed.
  ghost predicate WellBatched(nodes: seq<Node>) {
    && (forall n :: n in nodes && n.start != 0 ==> exists p :: p in nodes && Follows(p, n))
    && (forall p :: p in nodes && p.end != 0 ==> exists n :: n in nodes && Follows(p, n))
  }

  // No two nodes hold the same place in an oplog.
  ghost predicate DistinctIds(nodes: seq<Node>) {
    forall i, j :: 0 <= i < j < |nodes| ==> nodes[i].key != nodes[j].key || nodes[i].length != nodes[j].length
  }

  ghost function Flat(units: seq<seq<Node>>): seq<Node> {
    if units == [] then [] else Flat(units[..|units| - 1]) + units[|units| - 1]
  }

  lemma FlatAppend(units: seq<seq<Node>>, m: seq<Node>)
    ensures Flat(units + [m]) == Flat(units) + m
  {
    assert (units + [m])[..|units + [m]| - 1] == units;
  }

  lemma {:induction false} FlatConcat(us: seq<seq<Node>>, vs: seq<seq<Node>>)
    ensures Flat(us + vs) == Flat(us) + Flat(vs)
    decreases |vs|
  {
    if vs == [] {
      assert us + vs == us;
    } else {
      var front, m := vs[..|vs| - 1], vs[|vs| - 1];
      FlatConcat(us, front);
      assert us + vs == (us + front) + [m];
      FlatAppend(us + front, m);
      Associative(Flat(us), Flat(front), m);
    }
  }

  // ----- one writer's nodes, in the order of their lengths -----

  // n may come right after p
  predicate Fits(p: Node, n: Node) {
    if p.end == 0 then n.start == 0 else Follows(p, n)
  }

  // the nodes can be cut into whole batches
  ghost predicate Chained(arr: seq<Node>) {
    && (arr != [] ==> arr[0].start == 0 && arr[|arr| - 1].end == 0)
    && (forall i :: 0 < i < |arr| ==> Fits(arr[i - 1], arr[i]))
  }

  ghost predicate Ascending(arr: seq<Node>) {
    forall i, j :: 0 <= i < j < |arr| ==> arr[i].key == arr[j].key && arr[i].length < arr[j].length
  }

  lemma ChainedAppend(arr: seq<Node>, m: seq<Node>)
    requires Chained(arr) && IsUnit(m)
    ensures Chained(arr + m)
  {
    var all := arr + m;
    forall i | 0 < i < |all|
      ensures Fits(all[i - 1], all[i])
    {
      if i > |arr| {
        var k := i - |arr|;
        assert all[i - 1] == m[k - 1] && all[i] == m[k];
        assert Continues(m[k - 1], m[k]) && m[k - 1] in m && m[k] in m;
      }
    }
  }

  // In a chained sequence a batch that has been opened has one weight.
  lemma {:induction false} ChainedUniform(arr: seq<Node>, a: nat, b: nat)
    requires Chained(arr) && a < b <= |arr|
    requires forall i :: a <= i < b - 1 ==> arr[i].end != 0
    ensures UniformWeight(arr[a..b])
    decreases b
  {
    if a + 1 < b {
      ChainedUniform(arr, a, b - 1);
      assert Fits(arr[b - 2], arr[b - 1]);
      assert arr[a..b] == arr[a..b - 1] + [arr[b - 1]];
      assert arr[b - 2] in arr[a..b - 1];
    }
  }

  // For distinct nodes in order, what holds of neighbours is what holds of the set.
  lemma ChainedIffWellBatched(arr: seq<Node>)
    requires Ascending(arr)
    ensures Chained(arr) <==> WellBatched(arr)
  {
    if Chained(arr) {
      forall i | 0 <= i < |arr| && arr[i].start != 0
        ensures exists p :: p in arr && Follows(p, arr[i])
      {
        assert Fits(arr[i - 1], arr[i]) && arr[i - 1] in arr;
      }
      forall i | 0 <= i < |arr| && arr[i].end != 0
        ensures exists n :: n in arr && Follows(arr[i], n)
      {
        assert Fits(arr[i], arr[i + 1]) && arr[i + 1] in arr;
      }
    }
    if WellBatched(arr) {
      forall i | 0 < i < |arr|
        ensures Fits(arr[i - 1], arr[i])
      {
        WellBatchedFits(arr, i);
      }
      if arr != [] {
        WellBatchedEnds(arr);
      }
    }
  }

  // In order, a node can only follow its neighbour.
  lemma FollowsIsNext(arr: seq<Node>)
    requires Ascending(arr)
    ensures forall k, i :: 0 <= k < |arr| && 0 <= i < |arr| && Follows(arr[k], arr[i]) ==> i == k + 1
  {
    forall k, i | 0 <= k < |arr| && 0 <= i < |arr| && i != k + 1
      ensures !Follows(arr[k], arr[i])
    {
      if i > k {
        assert arr[k].length < arr[k + 1].length && arr[k + 1].length < arr[i].length;
      }
    }
  }

  lemma WellBatchedFits(arr: seq<Node>, i: nat)
    requires Ascending(arr) && WellBatched(arr) && 0 < i < |arr|
    ensures Fits(arr[i - 1], arr[i])
  {
    FollowsIsNext(arr);
    assert arr[i - 1] in arr && arr[i] in arr;
  }

  lemma WellBatchedEnds(arr: seq<Node>)
    requires Ascending(arr) && WellBatched(arr) && arr != []
    ensures arr[0].start == 0 && arr[|arr| - 1].end == 0
  {
    FollowsIsNext(arr);
    assert arr[0] in arr && arr[|arr| - 1] in arr;
  }

  // The members must share one weight.
  method MakeUnit(members: seq<Node>) returns (r: Result<seq<Node>>)
    requires members != []
    ensures r.Ok? <==> UniformWeight(members)
    ensures r.Ok? ==> r.value == members
  {
    for i := 0 to |members|
      invariant forall n :: n in members[..i] ==> n.weight == members[0].weight
    {
      assert members[..i + 1] == members[..i] + [members[i]];
      if members[i].weight != members[0].weight {
        assert members[i] in members;
        return Err("batch with non-uniform weight");
      }
    }
    assert members[..|members|] == members;
    return Ok(members);
  }

  // what the scan has cut off arr[..i], and the batch it has open
  ghost predicate Cut(arr: seq<Node>, i: nat, units: seq<seq<Node>>, open: seq<Node>)
    requires i <= |arr|
  {
    && |open| <= i && open == arr[i - |open|..i] && IsOpen(open)
    && (forall n :: n in open ==> n.end != 0)
    && Flat(units) == arr[..i - |open|] && Chained(arr[..i - |open|])
    && AllUnits(units)
  }

  // Whether n can be the next node: a head when no batch is open, its next member otherwise.
  predicate Accepts(open: seq<Node>, n: Node) {
    if open == [] then n.start == 0
    else n.length == open[|open| - 1].length + 1 && n.start == |open|
  }

  // Why the scan stops with an error at arr[i].
  lemma ScanStuck(arr: seq<Node>, i: nat, units: seq<seq<Node>>, open: seq<Node>)
    requires i < |arr| && Cut(arr, i, units, open) && !Accepts(open, arr[i])
    ensures !Chained(arr)
  {
    if i > 0 {
      if open == [] {
        var done := arr[..i];
        assert done[|done| - 1] == arr[i - 1];
      } else {
        assert open[|open| - 1] == arr[i - 1] && open[|open| - 1] in open;
      }
      assert !Fits(arr[i - 1], arr[i]);
    }
  }

  // Why the scan may not end with a batch open.
  lemma ScanEnds(arr: seq<Node>, units: seq<seq<Node>>, open: seq<Node>)
    requires Cut(arr, |arr|, units, open)
    ensures Chained(arr) <==> open == []
    ensures open == [] ==> Flat(units) == arr
  {
    assert arr[..|arr|] == arr;
    if open != [] {
      assert open[|open| - 1] == arr[|arr| - 1] && open[|open| - 1] in open;
    }
  }

  method Refusal(open: seq<Node>, n: Node) returns (error: Option<string>)
    ensures error == None <==> Accepts(open, n)
  {
    if n.start == 0 {
      return if open == [] then None else Some("truncated batch");
    }
    if open == [] {
      return Some("batch member without head");
    }
    if n.length != open[|open| - 1].length + 1 || n.start != |open| {
      return Some("inconsistent batch bookkeeping");
    }
    return None;
  }

  // the batch that n continues or starts
  ghost predicate Grown(arr: seq<Node>, i: nat, m: seq<Node>)
    requires i <= |arr|
  {
    && 0 < |m| <= i && m == arr[i - |m|..i] && IsOpen(m)
    && forall j :: 0 <= j < |m| - 1 ==> m[j].end != 0
  }

  method CloseBatch(ghost arr: seq<Node>, ghost i: nat, units: seq<seq<Node>>, open: seq<Node>)
    returns (r: Result<seq<seq<Node>>>)
    requires i <= |arr| && Grown(arr, i, open) && open[|open| - 1].end == 0
    requires Flat(units) == arr[..i - |open|] && Chained(arr[..i - |open|]) && AllUnits(units)
    ensures r.Ok? ==> Cut(arr, i, r.value, [])
    ensures r.Err? ==> !Chained(arr)
  {
    var unit := MakeUnit(open);
    if unit.Err? {
      NotUniform(arr, i, open);
      return Err(unit.error);
    }
    CloseUnit(arr, i, units, open);
    return Ok(units + [unit.value]);
  }

  // Cuts one writer's nodes into batches; fails exactly when that cannot be done.
  method ScanWriter(arr: seq<Node>) returns (r: Result<seq<seq<Node>>>)
    requires forall i, j :: 0 <= i < j < |arr| ==> arr[i].key == arr[j].key
    ensures r.Ok? <==> Chained(arr)
    ensures r.Ok? ==> Flat(r.value) == arr && AllUnits(r.value)
  {
    var units: seq<seq<Node>> := [];
    var open: seq<Node> := [];
    for i := 0 to |arr|
      invariant Cut(arr, i, units, open)
    {
      var error := Refusal(open, arr[i]);
      if error.Some? {
        ScanStuck(arr, i, units, open);
        return Err(error.value);
      }
      OpenAppend(arr, i, units, open);
      open := open + [arr[i]];
      if arr[i].end == 0 {
        var closed := CloseBatch(arr, i + 1, units, open);
        if closed.Err? {
          return closed;
        }
        units, open := closed.value, [];
      }
    }
    ScanEnds(arr, units, open);
    if open != [] {
      return Err("truncated batch at the tail of a writer");
    }
    return Ok(units);
  }

  lemma OpenAppend(arr: seq<Node>, i: nat, units: seq<seq<Node>>, open: seq<Node>)
    requires i < |arr| && Cut(arr, i, units, open) && Accepts(open, arr[i])
    requires forall k, j :: 0 <= k < j < |arr| ==> arr[k].key == arr[j].key
    ensures Grown(arr, i + 1, open + [arr[i]])
    ensures arr[i].end != 0 ==> Cut(arr, i + 1, units, open + [arr[i]])
    ensures i + 1 - |open + [arr[i]]| == i - |open|
  {
    var m := open + [arr[i]];
    forall j | 0 <= j < |open| ensures m[j].end != 0 {
      assert open[j] in open;
    }
    OpenGrows(open, arr[i]);
  }

  lemma OpenGrows(open: seq<Node>, n: Node)
    requires IsOpen(open) && Accepts(open, n)
    requires open != [] ==> open[|open| - 1].key == n.key && open[|open| - 1].end != 0
    ensures IsOpen(open + [n])
  {
    var m := open + [n];
    forall j | 0 < j < |m|
      ensures Continues(m[j - 1], m[j])
    {
      if j < |open| {
        assert Continues(open[j - 1], open[j]);
      }
    }
  }

  lemma NotUniform(arr: seq<Node>, i: nat, open: seq<Node>)
    requires i <= |arr| && Grown(arr, i, open) && !UniformWeight(open)
    ensures !Chained(arr)
  {
    var a := i - |open|;
    if Chained(arr) {
      assert forall j :: a <= j < i - 1 ==> arr[j] == open[j - a];
      ChainedUniform(arr, a, i);
    }
  }

  lemma CloseUnit(arr: seq<Node>, i: nat, units: seq<seq<Node>>, open: seq<Node>)
    requires i <= |arr| && Grown(arr, i, open) && open[|open| - 1].end == 0 && UniformWeight(open)
    requires Flat(units) == arr[..i - |open|] && Chained(arr[..i - |open|])
    requires AllUnits(units)
    ensures Cut(arr, i, units + [open], [])
  {
    assert arr[..i] == arr[..i - |open|] + open;
    ChainedAppend(arr[..i - |open|], open);
    FlatAppend(units, open);
    UnitsAppend(units, open);
  }

  lemma UnitsAppend(units: seq<seq<Node>>, m: seq<Node>)
    requires AllUnits(units) && IsUnit(m)
    ensures AllUnits(units + [m])
  {
  }

  // ----- all writers -----

  function OfWriter(nodes: seq<Node>, key: Key): seq<Node> {
    if nodes == [] then []
    else
      var front := OfWriter(nodes[..|nodes| - 1], key);
      if nodes[|nodes| - 1].key == key then front + [nodes[|nodes| - 1]] else front
  }

  lemma OfWriterAppend(nodes: seq<Node>, n: Node, key: Key)
    ensures OfWriter(nodes + [n], key) == OfWriter(nodes, key) + if n.key == key then [n] else []
  {
    assert (nodes + [n])[..|nodes + [n]| - 1] == nodes;
  }

  lemma {:induction false} OfWriterCount(nodes: seq<Node>, key: Key, n: Node)
    ensures multiset(OfWriter(nodes, key))[n] == if n.key == key then multiset(nodes)[n] else 0
  {
    if nodes != [] {
      var front, last := nodes[..|nodes| - 1], nodes[|nodes| - 1];
      OfWriterCount(front, key, n);
      assert nodes == front + [last];
    }
  }

  method GroupByWriter(nodes: seq<Node>) returns (byWriter: map<Key, seq<Node>>)
    ensures byWriter.Keys == set n | n in nodes :: n.key
    ensures forall k :: k in byWriter ==> byWriter[k] == OfWriter(nodes, k)
  {
    byWriter := map[];
    for i := 0 to |nodes|
      invariant byWriter.Keys == set n | n in nodes[..i] :: n.key
      invariant forall k :: k in byWriter ==> byWriter[k] == OfWriter(nodes[..i], k)
      invariant forall k :: k !in byWriter ==> OfWriter(nodes[..i], k) == []
    {
      var n := nodes[i];
      assert nodes[..i + 1] == nodes[..i] + [n];
      forall k ensures OfWriter(nodes[..i + 1], k) == OfWriter(nodes[..i], k) + if n.key == k then [n] else [] {
        OfWriterAppend(nodes[..i], n, k);
      }
      var arr := if n.key in byWriter then byWriter[n.key] else [];
      byWriter := byWriter[n.key := arr + [n]];
    }
    assert nodes[..|nodes|] == nodes;
  }

  // the stable sort by length
  function InsertByLength(arr: seq<Node>, n: Node): seq<Node> {
    if arr == [] || arr[|arr| - 1].length <= n.length then arr + [n]
    else InsertByLength(arr[..|arr| - 1], n) + [arr[|arr| - 1]]
  }

  function SortByLength(arr: seq<Node>): seq<Node> {
    if arr == [] then [] else InsertByLength(SortByLength(arr[..|arr| - 1]), arr[|arr| - 1])
  }

  ghost predicate Ordered(arr: seq<Node>) {
    forall i, j :: 0 <= i < j < |arr| ==> arr[i].length <= arr[j].length
  }

  lemma {:induction false} InsertByLengthSorts(arr: seq<Node>, n: Node)
    requires Ordered(arr)
    ensures var r := InsertByLength(arr, n);
            Ordered(r) && multiset(r) == multiset(arr) + multiset{n}
  {
    if arr != [] && arr[|arr| - 1].length > n.length {
      var front, last := arr[..|arr| - 1], arr[|arr| - 1];
      InsertByLengthSorts(front, n);
      var r := InsertByLength(front, n);
      assert arr == front + [last];
      BoundedAlike(r, front + [n], last.length);
      OrderedAppend(r, last);
    } else {
      OrderedAppend(arr, n);
    }
  }

  lemma BoundedAlike(r: seq<Node>, arr: seq<Node>, bound: nat)
    requires multiset(r) == multiset(arr) && forall x :: x in arr ==> x.length <= bound
    ensures forall x :: x in r ==> x.length <= bound
  {
    forall x | x in r ensures x.length <= bound {
      assert x in multiset(r);
    }
  }

  lemma OrderedAppend(arr: seq<Node>, n: Node)
    requires Ordered(arr) && forall x :: x in arr ==> x.length <= n.length
    ensures Ordered(arr + [n])
  {
  }

  lemma {:induction false} SortByLengthSorts(arr: seq<Node>)
    ensures Ordered(SortByLength(arr)) && multiset(SortByLength(arr)) == multiset(arr)
  {
    if arr != [] {
      var front, last := arr[..|arr| - 1], arr[|arr| - 1];
      SortByLengthSorts(front);
      var sorted := SortByLength(front);
      assert SortByLength(arr) == InsertByLength(sorted, last);
      InsertByLengthSorts(sorted, last);
      assert multiset(arr) == multiset(front) + multiset{last} by {
        assert arr == front + [last];
      }
    }
  }

  lemma DistinctCount(nodes: seq<Node>, i: nat, j: nat)
    requires i < j < |nodes| && nodes[i] == nodes[j]
    ensures multiset(nodes)[nodes[i]] >= 2
  {
    assert nodes == nodes[..i] + [nodes[i]] + nodes[i + 1..j] + [nodes[j]] + nodes[j + 1..];
  }

  // arr holds the nodes of one writer
  ghost predicate HoldsWriter(nodes: seq<Node>, key: Key, arr: seq<Node>) {
    forall n: Node :: multiset(arr)[n] == if n.key == key then multiset(nodes)[n] else 0
  }

  lemma SortedWriter(nodes: seq<Node>, key: Key)
    ensures var arr := SortByLength(OfWriter(nodes, key));
            HoldsWriter(nodes, key, arr) && Ordered(arr)
  {
    SortByLengthSorts(OfWriter(nodes, key));
    forall n: Node ensures multiset(SortByLength(OfWriter(nodes, key)))[n] == if n.key == key then multiset(nodes)[n] else 0 {
      OfWriterCount(nodes, key, n);
    }
  }

  lemma HeldMembers(nodes: seq<Node>, key: Key, arr: seq<Node>)
    requires HoldsWriter(nodes, key, arr)
    ensures forall n :: n in arr <==> n in nodes && n.key == key
  {
    forall n: Node ensures n in arr <==> n in nodes && n.key == key {
      assert n in arr <==> multiset(arr)[n] > 0;
      assert n in nodes <==> multiset(nodes)[n] > 0;
    }
  }

  lemma DistinctAscend(nodes: seq<Node>, key: Key, arr: seq<Node>)
    requires DistinctIds(nodes) && HoldsWriter(nodes, key, arr) && Ordered(arr)
    ensures Ascending(arr)
  {
    HeldMembers(nodes, key, arr);
    forall i, j | 0 <= i < j < |arr|
      ensures arr[i].key == arr[j].key && arr[i].length < arr[j].length
    {
      var x, y := arr[i], arr[j];
      assert x in nodes && y in nodes;
      if x.length == y.length {
        SameId(nodes, x, y);
        DistinctCount(arr, i, j);
        CountDistinct(nodes, x);
      }
    }
  }

  lemma SameId(nodes: seq<Node>, x: Node, y: Node)
    requires DistinctIds(nodes) && x in nodes && y in nodes
    ensures x.key == y.key && x.length == y.length ==> x == y
  {
  }

  // the nodes of some writers make whole batches
  ghost predicate WellBatchedFor(nodes: seq<Node>, keys: set<Key>) {
    forall k :: k in keys ==> Chained(SortByLength(OfWriter(nodes, k)))
  }

  // Whether nodes make whole batches is a matter of each writer alone.
  lemma WriterByWriter(nodes: seq<Node>, keys: set<Key>)
    requires keys == set n | n in nodes :: n.key
    ensures DistinctIds(nodes) ==> (WellBatchedFor(nodes, keys) <==> WellBatched(nodes))
  {
    forall k | k in keys && DistinctIds(nodes)
      ensures Chained(SortByLength(OfWriter(nodes, k))) <==> WellBatchedAt(nodes, k)
    {
      SortedWriter(nodes, k);
      var arr := SortByLength(OfWriter(nodes, k));
      HeldMembers(nodes, k, arr);
      DistinctAscend(nodes, k, arr);
      ChainedIffWellBatched(arr);
      SameMembers(nodes, k, arr);
    }
    if forall k :: k in keys ==> WellBatchedAt(nodes, k) {
      forall n | n in nodes ensures WellBatchedAt(nodes, n.key) {
        assert n.key in keys;
      }
    }
  }

  ghost predicate WellBatchedAt(nodes: seq<Node>, k: Key) {
    && (forall n :: n in nodes && n.key == k && n.start != 0 ==> exists p :: p in nodes && Follows(p, n))
    && (forall p :: p in nodes && p.key == k && p.end != 0 ==> exists n :: n in nodes && Follows(p, n))
  }

  lemma SameMembers(nodes: seq<Node>, k: Key, arr: seq<Node>)
    requires forall n :: n in arr <==> n in nodes && n.key == k
    ensures WellBatched(arr) <==> WellBatchedAt(nodes, k)
  {
    if WellBatched(arr) {
      forall n | n in nodes && n.key == k && n.start != 0
        ensures exists p :: p in nodes && Follows(p, n)
      {
        var p :| p in arr && Follows(p, n);
      }
      forall p | p in nodes && p.key == k && p.end != 0
        ensures exists n :: n in nodes && Follows(p, n)
      {
        var n :| n in arr && Follows(p, n);
      }
    }
    if WellBatchedAt(nodes, k) {
      forall n | n in arr && n.start != 0
        ensures exists p :: p in arr && Follows(p, n)
      {
        var p :| p in nodes && Follows(p, n);
        assert p in arr;
      }
      forall p | p in arr && p.end != 0
        ensures exists n :: n in arr && Follows(p, n)
      {
        var n :| n in nodes && Follows(p, n);
        assert n in arr;
      }
    }
  }

  // units hold exactly the nodes of some writers
  ghost predicate HoldsWriters(nodes: seq<Node>, keys: set<Key>, units: seq<seq<Node>>) {
    forall n: Node :: multiset(Flat(units))[n] == if n.key in keys then multiset(nodes)[n] else 0
  }

  lemma HoldsOneMore(nodes: seq<Node>, keys: set<Key>, units: seq<seq<Node>>, key: Key, more: seq<seq<Node>>)
    requires HoldsWriters(nodes, keys, units) && key !in keys && HoldsWriter(nodes, key, Flat(more))
    ensures HoldsWriters(nodes, keys + {key}, units + more)
  {
    FlatConcat(units, more);
  }

  lemma HoldsAll(nodes: seq<Node>, keys: set<Key>, units: seq<seq<Node>>)
    requires HoldsWriters(nodes, keys, units) && keys == set n | n in nodes :: n.key
    ensures multiset(Flat(units)) == multiset(nodes)
  {
    forall n: Node ensures multiset(Flat(units))[n] == multiset(nodes)[n] {
      assert n in nodes <==> multiset(nodes)[n] > 0;
    }
  }

  method GroupWriter(own: seq<Node>, ghost nodes: seq<Node>, key: Key) returns (r: Result<seq<seq<Node>>>)
    requires own == OfWriter(nodes, key)
    ensures r.Ok? <==> Chained(SortByLength(OfWriter(nodes, key)))
    ensures r.Ok? ==> HoldsWriter(nodes, key, Flat(r.value)) && AllUnits(r.value)
  {
    var arr := SortByLength(own);
    SortedWriter(nodes, key);
    HeldMembers(nodes, key, arr);
    OneWriter(arr, key);
    r := ScanWriter(arr);
  }

  // Groups nodes, in whatever order they come, into whole batches that hold each of them once. It
  // fails exactly when the nodes of some writer, sorted by length, cannot be cut into batches; for
  // distinct nodes that is when some batch is cut short.
  method GroupUnits(nodes: seq<Node>) returns (r: Result<seq<seq<Node>>>)
    ensures r.Ok? <==> WellBatchedFor(nodes, set n | n in nodes :: n.key)
    ensures r.Ok? ==> multiset(Flat(r.value)) == multiset(nodes) && AllUnits(r.value)
    ensures DistinctIds(nodes) ==> (r.Ok? <==> WellBatched(nodes))
  {
    var byWriter := GroupByWriter(nodes);
    WriterByWriter(nodes, byWriter.Keys);
    r := GroupWriters(nodes, byWriter);
    if r.Ok? {
      HoldsAll(nodes, byWriter.Keys, r.value);
    }
  }

  method GroupWriters(ghost nodes: seq<Node>, byWriter: map<Key, seq<Node>>) returns (r: Result<seq<seq<Node>>>)
    requires forall k :: k in byWriter ==> byWriter[k] == OfWriter(nodes, k)
    ensures r.Ok? <==> WellBatchedFor(nodes, byWriter.Keys)
    ensures r.Ok? ==> HoldsWriters(nodes, byWriter.Keys, r.value) && AllUnits(r.value)
  {
    var units: seq<seq<Node>> := [];
    var todo := byWriter.Keys;
    while todo != {}
      invariant todo <= byWriter.Keys
      invariant WellBatchedFor(nodes, byWriter.Keys - todo)
      invariant HoldsWriters(nodes, byWriter.Keys - todo, units)
      invariant AllUnits(units)
      decreases todo
    {
      var key :| key in todo;
      var scanned := GroupWriter(byWriter[key], nodes, key);
      if scanned.Err? {
        return Err(scanned.error);
      }
      HoldsOneMore(nodes, byWriter.Keys - todo, units, key, scanned.value);
      units := units + scanned.value;
      assert byWriter.Keys - todo + {key} == byWriter.Keys - (todo - {key});
      todo := todo - {key};
    }
    assert byWriter.Keys - {} == byWriter.Keys;
    return Ok(units);
  }

  lemma OneWriter(arr: seq<Node>, key: Key)
    requires forall n :: n in arr ==> n.key == key
    ensures forall i, j :: 0 <= i < j < |arr| ==> arr[i].key == arr[j].key
  {
    forall i | 0 <= i < |arr| ensures arr[i].key == key {
      assert arr[i] in arr;
    }
  }

  // Nodes that take a place twice are grouped or not depending on the order they come in: take any
  // batch of two nodes, and a single node in the place of the second.
  lemma RepeatedPlaces(head: Node, rest: Node, twin: Node)
    requires head.start == 0 && Follows(head, rest) && rest.end == 0
    requires twin.key == rest.key && twin.length == rest.length && twin.start == 0 && twin.end == 0
    ensures multiset([head, rest, twin]) == multiset([head, twin, rest])
    ensures Chained(SortByLength(OfWriter([head, rest, twin], head.key)))
    ensures !Chained(SortByLength(OfWriter([head, twin, rest], head.key)))
  {
    CutThree(head, rest, twin);
    CutThree(head, twin, rest);
    Swapped(head, rest, twin);
  }

  lemma CutThree(a: Node, b: Node, c: Node)
    requires a.key == b.key == c.key && a.length <= b.length <= c.length
    ensures Chained(SortByLength(OfWriter([a, b, c], a.key))) <==>
              a.start == 0 && c.end == 0 && Fits(a, b) && Fits(b, c)
  {
    SortThree(a, b, c);
    ThreeChained(a, b, c);
  }

  lemma Swapped<T>(a: T, b: T, c: T)
    ensures multiset([a, b, c]) == multiset([a, c, b])
  {
    assert [a, b, c] == [a] + [b] + [c] && [a, c, b] == [a] + [c] + [b];
  }

  lemma ThreeChained(a: Node, b: Node, c: Node)
    ensures Chained([a, b, c]) <==> a.start == 0 && c.end == 0 && Fits(a, b) && Fits(b, c)
  {
    var s := [a, b, c];
    assert Chained(s) ==> Fits(s[0], s[1]) && Fits(s[1], s[2]);
  }

  lemma SortThree(a: Node, b: Node, c: Node)
    requires a.key == b.key == c.key && a.length <= b.length <= c.length
    ensures SortByLength(OfWriter([a, b, c], a.key)) == [a, b, c]
  {
    OfWriterAppend([], a, a.key);
    OfWriterAppend([a], b, a.key);
    OfWriterAppend([a, b], c, a.key);
    assert [a] + [b] == [a, b] && [a, b] + [c] == [a, b, c] && [] + [a] == [a];
    assert SortByLength([a]) == [a];
    assert [a, b][..1] == [a] && [a, b, c][..2] == [a, b];
    assert SortByLength([a, b]) == [a, b];
  }
}
