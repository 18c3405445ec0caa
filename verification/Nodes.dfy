// Ordering loose nodes as reference/order.js does: the nodes are grouped into units, a unit is
// ordered as one batch, and its members come out together.
module Nodes {
  import opened Batches
  import opened Graphs
  import opened Universe
  import opened Reference
  import opened Strata
  import opened Order
  import opened Grouping
  import opened Settle

  // ----- a unit as one batch -----

  // the links of the first k members, and the citations of all of them but the head
  function LinksOf(m: seq<Node>, k: nat): seq<Link>
    requires 0 < k <= |m|
  {
    if k == 1 then m[0].links
    else LinksOf(m, k - 1) + m[k - 1].links + if m[k - 1].cited.Some? then [m[k - 1].cited.value] else []
  }

  function UnitBatch(m: seq<Node>): Batch
    requires m != []
  {
    Batch(m[0].key, m[0].length, seq(|m|, i requires 0 <= i < |m| => m[i].value),
          m[0].timestamp, m[0].weight, LinksOf(m, |m|), m[0].cited, m[0].hash, m[0].approvals)
  }

  // A unit sorts by its head: by the time, the key and the length of its first member, whatever the
  // others carry.
  lemma UnitSortsByHead(m: seq<Node>, v: seq<Node>)
    requires IsUnit(m) && IsUnit(v)
    ensures UnitBatch(m).weight == m[0].weight && forall n :: n in m ==> n.weight == UnitBatch(m).weight
    ensures UnitBatch(m).key == m[0].key && UnitBatch(m).length == m[0].length && UnitBatch(m).End() == m[0].length + |m|
    ensures CmpNodes(UnitBatch(m), UnitBatch(v)) < 0 <==>
              || m[0].timestamp < v[0].timestamp
              || (m[0].timestamp == v[0].timestamp && m[0].key < v[0].key)
              || (m[0].timestamp == v[0].timestamp && m[0].key == v[0].key && m[0].length < v[0].length)
  {
  }

  ghost predicate MemberNames(m: seq<Node>, l: Link) {
    exists n :: n in m && (l in n.links || n.cited == Some(l))
  }

  lemma {:induction false} LinksOfMembers(m: seq<Node>, k: nat, l: Link)
    requires 0 < k <= |m|
    ensures l in LinksOf(m, k) || m[0].cited == Some(l) <==> MemberNames(m[..k], l)
  {
    if k > 1 {
      LinksOfMembers(m, k - 1, l);
      assert m[..k] == m[..k - 1] + [m[k - 1]];
      if MemberNames(m[..k - 1], l) {
        var n :| n in m[..k - 1] && (l in n.links || n.cited == Some(l));
        assert n in m[..k];
      }
      assert m[k - 1] in m[..k];
    } else {
      assert m[..1] == [m[0]];
    }
  }

  // A unit names its predecessor in the chain and whatever any of its members links or cites.
  lemma ReadsAllMembers(m: seq<Node>, l: Link)
    requires m != []
    ensures Names(UnitBatch(m), l) <==>
              l.length > 0 && ((m[0].length > 1 && l == Link(m[0].key, m[0].length - 1)) || MemberNames(m, l))
  {
    LinksOfMembers(m, |m|, l);
    assert m[..|m|] == m;
  }

  function UnitBatches(units: seq<seq<Node>>): seq<Batch>
    requires AllUnits(units)
  {
    seq(|units|, i requires 0 <= i < |units| => assert units[i] in units; UnitBatch(units[i]))
  }

  // the unit that makes up a batch
  function UnitOf(units: seq<seq<Node>>, b: Batch): seq<Node> {
    if units == [] then []
    else
      var m := units[|units| - 1];
      if m != [] && UnitBatch(m) == b then m else UnitOf(units[..|units| - 1], b)
  }

  // units put all the nodes into whole batches, each once
  ghost predicate Groups(units: seq<seq<Node>>, nodes: seq<Node>) {
    AllUnits(units) && multiset(Flat(units)) == multiset(nodes)
  }

  // nodes as a log holds them: no place is taken twice
  ghost predicate Placed(nodes: seq<Node>) {
    DistinctIds(nodes) && forall n :: n in nodes ==> n.length >= 1
  }

  lemma {:induction false} InFlat(units: seq<seq<Node>>, n: Node)
    ensures n in Flat(units) <==> exists m :: m in units && n in m
  {
    if units != [] {
      var front, last := units[..|units| - 1], units[|units| - 1];
      InFlat(front, n);
      if m :| m in units && n in m {
        assert m in front || m == last;
      }
    }
  }

  lemma GroupsHold(units: seq<seq<Node>>, nodes: seq<Node>)
    requires Groups(units, nodes)
    ensures forall n :: n in nodes <==> exists m :: m in units && n in m
  {
    forall n ensures n in nodes <==> exists m :: m in units && n in m {
      InFlat(units, n);
      assert n in nodes <==> n in multiset(Flat(units));
    }
  }

  // Two whole batches of the same nodes with the same head are the same.
  lemma SameUnit(nodes: seq<Node>, m: seq<Node>, v: seq<Node>)
    requires DistinctIds(nodes) && IsUnit(m) && IsUnit(v) && m[0] == v[0]
    requires forall n :: n in m || n in v ==> n in nodes
    ensures m == v
  {
    forall i | 0 <= i < |m| && i < |v|
      ensures m[i] == v[i]
    {
      OpenNumbers(m, i);
      OpenNumbers(v, i);
      assert m[i] in m && v[i] in v;
      SameId(nodes, m[i], v[i]);
    }
    OpenEnds(m, |v| - 1);
    OpenEnds(v, |m| - 1);
  }

  lemma OpenEnds(m: seq<Node>, i: nat)
    requires IsOpen(m)
    ensures i + 1 < |m| ==> m[i].end != 0
  {
    assert i + 1 < |m| ==> Continues(m[i], m[i + 1]);
  }

  // A node is in one unit only, so its place is.
  lemma PlaceOnce(nodes: seq<Node>, units: seq<seq<Node>>, i: nat, j: nat, a: nat, b: nat)
    requires DistinctIds(nodes) && Groups(units, nodes)
    requires i < j < |units| && a < |units[i]| && b < |units[j]|
    ensures units[i][a].key != units[j][b].key || units[i][a].length != units[j][b].length
  {
    var x, y := units[i][a], units[j][b];
    GroupsHold(units, nodes);
    assert units[i] in units && units[j] in units && x in nodes && y in nodes;
    SameId(nodes, x, y);
    CountDistinct(nodes, x);
    if x == y {
      TwiceInFlat(units, i, j, x);
    }
  }

  // A unit that comes twice brings its nodes twice.
  lemma TwiceInFlat(units: seq<seq<Node>>, i: nat, j: nat, n: Node)
    requires i < j < |units| && n in units[i] && n in units[j]
    ensures multiset(Flat(units))[n] >= 2
  {
    var a, b := units[..j], units[j..];
    assert units == a + b;
    FlatConcat(a, b);
    InFlat(a, n);
    InFlat(b, n);
    assert a[i] in a && b[0] in b;
    assert n in multiset(Flat(a)) && n in multiset(Flat(b));
  }

  // The batches of the units do not overlap.
  lemma UnitsDisjoint(nodes: seq<Node>, units: seq<seq<Node>>)
    requires Placed(nodes) && Groups(units, nodes)
    ensures Distinct(UnitBatches(units)) && DisjointChains(Elems(UnitBatches(units)))
  {
    var bs := UnitBatches(units);
    GroupsHold(units, nodes);
    forall i | 0 <= i < |units|
      ensures bs[i].length >= 1 && bs[i].values != []
    {
      assert units[i] in units && units[i][0] in units[i];
    }
    forall i, j | 0 <= i < j < |units|
      ensures bs[i] != bs[j]
      ensures bs[i].key == bs[j].key ==> bs[i].End() <= bs[j].length || bs[j].End() <= bs[i].length
    {
      UnitsApart(nodes, units, i, j);
    }
  }

  lemma UnitsApart(nodes: seq<Node>, units: seq<seq<Node>>, i: nat, j: nat)
    requires Placed(nodes) && Groups(units, nodes) && i < j < |units|
    ensures var x, y := UnitBatches(units)[i], UnitBatches(units)[j];
            x != y && (x.key == y.key ==> x.End() <= y.length || y.End() <= x.length)
  {
    var m, v := units[i], units[j];
    assert m in units && v in units;
    PlaceOnce(nodes, units, i, j, 0, 0);
    if m[0].length <= v[0].length < m[0].length + |m| {
      var a := v[0].length - m[0].length;
      OpenNumbers(m, a);
      PlaceOnce(nodes, units, i, j, a, 0);
    }
    if v[0].length <= m[0].length < v[0].length + |v| {
      var b := m[0].length - v[0].length;
      OpenNumbers(v, b);
      PlaceOnce(nodes, units, i, j, 0, b);
    }
  }

  // There is only one way to group distinct nodes.
  lemma GroupingUnique(nodes: seq<Node>, us: seq<seq<Node>>, vs: seq<seq<Node>>)
    requires DistinctIds(nodes) && Groups(us, nodes) && Groups(vs, nodes)
    ensures Elems(us) == Elems(vs)
  {
    forall m | m in us ensures m in vs {
      GroupedAlike(nodes, us, vs, m);
    }
    forall m | m in vs ensures m in us {
      GroupedAlike(nodes, vs, us, m);
    }
  }

  lemma GroupedAlike(nodes: seq<Node>, us: seq<seq<Node>>, vs: seq<seq<Node>>, m: seq<Node>)
    requires DistinctIds(nodes) && Groups(us, nodes) && Groups(vs, nodes) && m in us
    ensures m in vs
  {
    GroupsHold(us, nodes);
    GroupsHold(vs, nodes);
    assert IsUnit(m) && m[0] in m && m[0] in nodes;
    var v :| v in vs && m[0] in v;
    HeadFirst(v, m[0]);
    SameUnit(nodes, m, v);
  }

  lemma HeadFirst(v: seq<Node>, n: Node)
    requires IsUnit(v) && n in v && n.start == 0
    ensures v[0] == n
  {
  }

  lemma {:induction false} UnitOfFinds(units: seq<seq<Node>>, i: nat)
    requires AllUnits(units) && Distinct(UnitBatches(units)) && i < |units|
    ensures UnitOf(units, UnitBatches(units)[i]) == units[i]
  {
    var last := |units| - 1;
    assert units[last] in units;
    if i < last {
      var front := units[..last];
      assert UnitBatches(front) == UnitBatches(units)[..last];
      UnitOfFinds(front, i);
      assert UnitBatches(units)[i] != UnitBatches(units)[last];
    }
  }

  // Groupings of the same nodes give the same batches, made of the same units.
  lemma SameBatches(nodes: seq<Node>, us: seq<seq<Node>>, vs: seq<seq<Node>>)
    requires Placed(nodes) && Groups(us, nodes) && Groups(vs, nodes)
    ensures Elems(UnitBatches(us)) == Elems(UnitBatches(vs))
    ensures forall b :: b in Elems(UnitBatches(us)) ==> UnitOf(us, b) == UnitOf(vs, b)
  {
    GroupingUnique(nodes, us, vs);
    UnitsDisjoint(nodes, us);
    UnitsDisjoint(nodes, vs);
    BatchesWithin(us, vs);
    BatchesWithin(vs, us);
  }

  lemma BatchesWithin(us: seq<seq<Node>>, vs: seq<seq<Node>>)
    requires AllUnits(us) && AllUnits(vs) && Elems(us) == Elems(vs)
    requires Distinct(UnitBatches(us)) && Distinct(UnitBatches(vs))
    ensures forall b :: b in UnitBatches(us) ==> b in UnitBatches(vs) && UnitOf(us, b) == UnitOf(vs, b)
  {
    forall i | 0 <= i < |us|
      ensures UnitBatches(us)[i] in UnitBatches(vs)
      ensures UnitOf(us, UnitBatches(us)[i]) == UnitOf(vs, UnitBatches(us)[i])
    {
      assert us[i] in Elems(us);
      var j :| 0 <= j < |vs| && vs[j] == us[i];
      assert UnitBatches(vs)[j] == UnitBatches(us)[i];
      UnitOfFinds(us, i);
      UnitOfFinds(vs, j);
    }
  }

  // ----- ordering the nodes -----

  // Distinct sequences of the same things are permutations of each other.
  lemma SameMultiset<T>(s: seq<T>, t: seq<T>)
    requires Distinct(s) && Distinct(t) && Elems(s) == Elems(t)
    ensures multiset(s) == multiset(t)
  {
    forall x: T ensures multiset(s)[x] == multiset(t)[x] {
      CountDistinct(s, x);
      CountDistinct(t, x);
      assert x in s <==> x in Elems(s);
      assert x in t <==> x in Elems(t);
    }
  }

  lemma {:induction false} SpreadPermutes(members: Batch -> seq<Node>, s: seq<Batch>, t: seq<Batch>)
    requires multiset(s) == multiset(t)
    ensures multiset(Spread(members, s)) == multiset(Spread(members, t))
    decreases |s|
  {
    if s == [] {
      assert |t| == |multiset(t)| == 0;
    } else {
      var front, x := s[..|s| - 1], s[|s| - 1];
      assert s == front + [x];
      var a, b := Without(front, t, x);
      SpreadPermutes(members, front, a + b);
      SpreadAppend(members, front, x);
      SpreadAround(members, a, x, b);
    }
  }

  lemma Without(front: seq<Batch>, t: seq<Batch>, x: Batch) returns (a: seq<Batch>, b: seq<Batch>)
    requires multiset(front) + multiset{x} == multiset(t)
    ensures t == a + [x] + b && multiset(front) == multiset(a + b)
  {
    assert x in multiset(t);
    var i :| 0 <= i < |t| && t[i] == x;
    a, b := t[..i], t[i + 1..];
    assert t == a + [x] + b;
    assert multiset(a + b) == multiset(t) - multiset{x};
    assert multiset(front) == multiset(t) - multiset{x};
  }

  lemma SpreadAround(members: Batch -> seq<Node>, a: seq<Batch>, x: Batch, b: seq<Batch>)
    ensures multiset(Spread(members, a + [x] + b)) == multiset(Spread(members, a + b)) + multiset(members(x))
  {
    SpreadAppend(members, a, x);
    SpreadConcat(members, a + [x], b);
    SpreadConcat(members, a, b);
  }

  lemma {:induction false} FlatIsSpread(members: Batch -> seq<Node>, units: seq<seq<Node>>)
    requires AllUnits(units) && forall i :: 0 <= i < |units| ==> members(UnitBatches(units)[i]) == units[i]
    ensures Flat(units) == Spread(members, UnitBatches(units))
  {
    if units != [] {
      var last := |units| - 1;
      var front, bs := units[..last], UnitBatches(units);
      assert UnitBatches(front) == bs[..last];
      forall i | 0 <= i < last ensures members(UnitBatches(front)[i]) == front[i] {
        assert bs[i] == UnitBatches(front)[i];
      }
      FlatIsSpread(members, front);
      assert bs == UnitBatches(front) + [bs[last]];
      SpreadAppend(members, UnitBatches(front), bs[last]);
    }
  }

  // The canonical order lists every node once.
  lemma OrderPermutes(g: Graph, members: Batch -> seq<Node>, nodes: seq<Node>, units: seq<seq<Node>>)
    requires Placed(nodes) && Groups(units, nodes)
    requires Causal(g) && Elems(UnitBatches(units)) <= g.nodes && forall b :: members(b) == UnitOf(units, b)
    ensures multiset(Spread(members, AntiKahn(g, Elems(UnitBatches(units))))) == multiset(nodes)
  {
    var u := Elems(UnitBatches(units));
    var s := AntiKahn(g, u);
    AntiKahnElems(g, u);
    forall i, j | 0 <= i < j < |s| ensures s[i] != s[j] {
      CanonicalTopological(g, s, i, j);
    }
    UnitsDisjoint(nodes, units);
    SameMultiset(s, UnitBatches(units));
    SpreadPermutes(members, s, UnitBatches(units));
    forall i | 0 <= i < |units| ensures members(UnitBatches(units)[i]) == units[i] {
      UnitOfFinds(units, i);
    }
    FlatIsSpread(members, units);
  }

  // the batches of a grouping depend on nothing missing, and not on each other in a cycle
  ghost predicate Orderable(units: seq<seq<Node>>)
    requires AllUnits(units)
  {
    Complete(Elems(UnitBatches(units))) && Acyclic(Elems(UnitBatches(units)))
  }

  // the nodes of a grouping in the flat order of its batches
  ghost function OrderOf(units: seq<seq<Node>>): seq<Node>
    requires AllUnits(units) && Orderable(units)
  {
    var u := Elems(UnitBatches(units));
    CausalGraphIsCausal(u);
    Spread(b => UnitOf(units, b), AntiKahn(CausalGraph(u), u))
  }

  // The canonical order of any nodes that take each place in an oplog once, in whatever order
  // they are given: it is that of the one way to group them, lists every node once, and fails
  // exactly when batches are cut short, nodes are missing or there is a cycle.
  method OrderNodes(nodes: seq<Node>) returns (r: Result<seq<Node>>)
    requires Placed(nodes)
    ensures r.Ok? ==> WellBatched(nodes) && multiset(r.value) == multiset(nodes)
    ensures forall units :: Groups(units, nodes) ==>
              (r.Ok? <==> Orderable(units)) && (r.Ok? ==> r.value == OrderOf(units))
  {
    var grouped := GroupUnits(nodes);
    if grouped.Err? {
      NotGrouped(nodes);
      return Err(grouped.error);
    }
    var units := grouped.value;
    UnitsDisjoint(nodes, units);
    var members := (b: Batch) => UnitOf(units, b);
    r := CanonicalOrder(UnitBatches(units), members);
    if r.Ok? {
      OrderPermutes(CausalGraph(Elems(UnitBatches(units))), members, nodes, units);
    }
    OrderedAlike(nodes, units, members);
  }

  lemma NotGrouped(nodes: seq<Node>)
    requires DistinctIds(nodes) && !WellBatched(nodes)
    ensures forall units :: !Groups(units, nodes)
  {
    forall units
      ensures !Groups(units, nodes)
    {
      if Groups(units, nodes) {
        GroupedIsWell(nodes, units);
      }
    }
  }

  lemma GroupedIsWell(nodes: seq<Node>, units: seq<seq<Node>>)
    requires Groups(units, nodes)
    ensures WellBatched(nodes)
  {
    GroupsHold(units, nodes);
    forall n | n in nodes
      ensures n.start != 0 ==> exists p :: p in nodes && Follows(p, n)
      ensures n.end != 0 ==> exists p :: p in nodes && Follows(n, p)
    {
      var m :| m in units && n in m;
      var i :| 0 <= i < |m| && m[i] == n;
      if i > 0 {
        assert Continues(m[i - 1], m[i]) && m[i - 1] in m && Follows(m[i - 1], n);
      }
      if i + 1 < |m| {
        assert Continues(m[i], m[i + 1]) && m[i + 1] in m && Follows(n, m[i + 1]);
      }
    }
  }

  lemma OrderedAlike(nodes: seq<Node>, units: seq<seq<Node>>, members: Batch -> seq<Node>)
    requires Placed(nodes) && Groups(units, nodes) && forall b :: members(b) == UnitOf(units, b)
    ensures forall vs :: Groups(vs, nodes) ==>
              var u := Elems(UnitBatches(units));
              && Elems(UnitBatches(vs)) == u
              && (Orderable(vs) ==> Causal(CausalGraph(u)) && OrderOf(vs) == Spread(members, AntiKahn(CausalGraph(u), u)))
  {
    var u := Elems(UnitBatches(units));
    forall vs | Groups(vs, nodes)
      ensures Elems(UnitBatches(vs)) == u
      ensures Orderable(vs) ==> Causal(CausalGraph(u)) && OrderOf(vs) == Spread(members, AntiKahn(CausalGraph(u), u))
    {
      SameBatches(nodes, units, vs);
      if Orderable(vs) {
        OrderWith(vs, members);
      }
    }
  }

  lemma OrderWith(units: seq<seq<Node>>, members: Batch -> seq<Node>)
    requires AllUnits(units) && Orderable(units)
    requires forall b :: b in Elems(UnitBatches(units)) ==> members(b) == UnitOf(units, b)
    ensures var u := Elems(UnitBatches(units));
            Causal(CausalGraph(u)) && OrderOf(units) == Spread(members, AntiKahn(CausalGraph(u), u))
  {
    var u := Elems(UnitBatches(units));
    CausalGraphIsCausal(u);
    var s := AntiKahn(CausalGraph(u), u);
    AntiKahnElems(CausalGraph(u), u);
    forall i | 0 <= i < |s| ensures members(s[i]) == UnitOf(units, s[i]) {
      assert s[i] in Elems(s);
    }
    SpreadPrefix(members, b => UnitOf(units, b), s, s, |s|);
  }

  // ----- wire batches -----

  ghost predicate IsMember(u: set<Batch>, n: Node) {
    exists b :: b in u && n in Members(b)
  }

  // the nodes of u, each once, in any order
  ghost predicate HoldsNodes(nodes: seq<Node>, u: set<Batch>) {
    Distinct(nodes) && forall n :: n in nodes <==> IsMember(u, n)
  }

  lemma OwnMember(u: set<Batch>, n: Node) returns (b: Batch)
    requires IsMember(u, n)
    ensures b in u && n.start < |b.values| && n == Member(b, n.start)
  {
    b :| b in u && n in Members(b);
  }

  lemma MemberIn(u: set<Batch>, b: Batch, i: nat)
    requires b in u && i < |b.values|
    ensures IsMember(u, Member(b, i)) && Member(b, i) in Members(b)
  {
    assert Members(b)[i] == Member(b, i);
  }

  // Nodes of wire batches take each place once and make whole batches.
  lemma NodesPlaced(nodes: seq<Node>, u: set<Batch>)
    requires DisjointChains(u) && HoldsNodes(nodes, u)
    ensures Placed(nodes)
  {
    forall i, j | 0 <= i < j < |nodes|
      ensures nodes[i].key != nodes[j].key || nodes[i].length != nodes[j].length
    {
      assert nodes[i] in nodes && nodes[j] in nodes;
      var a := OwnMember(u, nodes[i]);
      var b := OwnMember(u, nodes[j]);
      assert a != b ==> a.key != b.key || a.End() <= b.length || b.End() <= a.length;
    }
    forall n | n in nodes ensures n.length >= 1 {
      var b := OwnMember(u, n);
    }
  }

  lemma {:induction false} MembersLinks(b: Batch, k: nat)
    requires 0 < k <= |b.values|
    ensures LinksOf(Members(b), k) == b.links
  {
    if k > 1 {
      MembersLinks(b, k - 1);
    }
  }

  lemma MembersAreUnit(b: Batch)
    requires b.values != []
    ensures IsUnit(Members(b)) && UnitBatch(Members(b)) == b
  {
    MembersLinks(b, |b.values|);
  }

  // A unit of such nodes holds the members of one of the wire batches.
  lemma UnitIsWire(nodes: seq<Node>, u: set<Batch>, m: seq<Node>)
    requires DisjointChains(u) && HoldsNodes(nodes, u) && IsUnit(m) && forall n :: n in m ==> n in nodes
    ensures UnitBatch(m) in u && m == Members(UnitBatch(m))
  {
    NodesPlaced(nodes, u);
    var b := OwnMember(u, m[0]);
    forall n | n in Members(b) ensures n in nodes {
      assert IsMember(u, n);
    }
    MembersAreUnit(b);
    SameUnit(nodes, m, Members(b));
  }

  // Grouping the nodes of wire batches finds the batches again.
  lemma UnitsAreWire(nodes: seq<Node>, u: set<Batch>, units: seq<seq<Node>>)
    requires DisjointChains(u) && HoldsNodes(nodes, u) && Groups(units, nodes)
    ensures Elems(UnitBatches(units)) == u
    ensures forall b :: b in u ==> UnitOf(units, b) == Members(b)
  {
    NodesPlaced(nodes, u);
    GroupsHold(units, nodes);
    UnitsDisjoint(nodes, units);
    forall i | 0 <= i < |units|
      ensures UnitBatches(units)[i] in u && UnitOf(units, UnitBatches(units)[i]) == Members(UnitBatches(units)[i])
    {
      assert units[i] in units;
      UnitIsWire(nodes, u, units[i]);
      UnitOfFinds(units, i);
    }
    forall b | b in u
      ensures b in Elems(UnitBatches(units))
    {
      MemberIn(u, b, 0);
      var m :| m in units && Member(b, 0) in m;
      var i :| 0 <= i < |units| && units[i] == m;
      UnitIsWire(nodes, u, m);
      HeadFindsBatch(u, b, UnitBatch(m));
      assert UnitBatches(units)[i] == b;
    }
  }

  lemma HeadFindsBatch(u: set<Batch>, b: Batch, x: Batch)
    requires DisjointChains(u) && b in u && x in u && Member(b, 0) in Members(x)
    ensures b == x
  {
    var i :| 0 <= i < |x.values| && Members(x)[i] == Member(b, 0);
    HeadsDiffer(u, b, x);
  }

  // The reference orders the nodes of applied batches, shuffled in any way, as the walk left them
  // under any causal arrival order.
  lemma ReplayIsReference(arrivals: seq<Batch>, nodes: seq<Node>, units: seq<seq<Node>>)
    requires CausalArrivals(arrivals) && CitationsCovered(Elems(arrivals))
    requires DisjointChains(Elems(arrivals)) && Complete(Elems(arrivals))
    requires HoldsNodes(nodes, Elems(arrivals)) && Groups(units, nodes)
    ensures Orderable(units) && OrderOf(units) == Spread(Members, Settled(arrivals))
  {
    var u := Elems(arrivals);
    UnitsAreWire(nodes, u, units);
    LinearizeIsCanonical(arrivals);
    OrderWith(units, Members);
  }
}
