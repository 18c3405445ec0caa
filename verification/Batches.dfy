// The unit of ordering is the wire batch: a contiguous stretch of one writer's oplog that is
// sorted and applied as a whole. Only its head carries links and a witness, and all members
// share one timestamp and one resolved weight.
module Batches {

  datatype Option<+T> = None | Some(value: T)

  // Writer keys are 32-byte buffers compared byte by byte, that is, as big-endian numbers.
  type Key = nat

  datatype Link = Link(key: Key, length: nat)

  // the weight that an approver grants a writer
  datatype Approval = Approval(key: Key, weight: nat)

  datatype Batch = Batch(
    key: Key,                // the writer
    length: nat,             // position of the head in the writer's oplog, counting from 1
    values: seq<string>,     // one value for each member
    timestamp: int,
    weight: int,             // the resolved sort weight
    links: seq<Link>,
    cited: Option<Link>,     // the approval the head cites, if any
    hash: Option<nat>,       // the rolling hash of the order the author saw
    approvals: seq<Approval>)   // what the author grants others
  {
    // the position right after the last member
    function End(): nat {
      length + |values|
    }

    // the last member, which is what other writers link
    function Tail(): Link
      requires values != []
    {
      Link(key, End() - 1)
    }
  }

  // The link reaches the head of batch x, so it reaches x or a later batch of x's writer.
  predicate Covers(l: Link, x: Batch) {
    l.key == x.key && x.length <= l.length
  }

  predicate CoveredBy(links: seq<Link>, x: Batch) {
    exists l :: l in links && Covers(l, x)
  }

  // b directly depends on x through its own chain or its links.
  predicate Links(b: Batch, x: Batch) {
    && x != b
    && (Covers(Link(b.key, b.length), x) || CoveredBy(b.links, x))
  }

  lemma CoveredByAppend(links: seq<Link>, l: Link, x: Batch)
    ensures CoveredBy(links + [l], x) <==> CoveredBy(links, x) || Covers(l, x)
  {
    if CoveredBy(links, x) {
      var k :| k in links && Covers(k, x);
      assert k in links + [l];
    }
    if Covers(l, x) {
      assert l in links + [l];
    }
  }

  // b directly depends on x: a link, its own chain, or the approval it cites.
  predicate DependsOn(b: Batch, x: Batch) {
    Links(b, x) || (x != b && b.cited.Some? && Covers(b.cited.value, x))
  }

  // The sort comparison: heavier first, then older, then the smaller key, then the shorter chain.
  function Cmp(a: Batch, b: Batch): int {
    if a.weight != b.weight then (if a.weight > b.weight then -1 else 1)
    else if a.timestamp != b.timestamp then (if a.timestamp < b.timestamp then -1 else 1)
    else if a.key != b.key then (if a.key < b.key then -1 else 1)
    else if a.length < b.length then -1 else 1
  }

  predicate Before(a: Batch, b: Batch) {
    Cmp(a, b) < 0
  }

  lemma BeforeTotal(a: Batch, b: Batch)
    requires a.key != b.key || a.length != b.length
    ensures Before(a, b) <==> !Before(b, a)
  {
  }

  lemma BeforeTransitive(a: Batch, b: Batch, c: Batch)
    requires Before(a, b) && Before(b, c)
    ensures Before(a, c) && a != c
  {
  }

  // One entry of a writer's oplog. start and end count the batch members before and after it.
  datatype Node = Node(
    key: Key, length: nat, timestamp: int, weight: int,
    links: seq<Link>, cited: Option<Link>, hash: Option<nat>, approvals: seq<Approval>,
    value: string, start: nat, end: nat)

  function Member(b: Batch, i: nat): Node
    requires i < |b.values|
  {
    Node(b.key, b.length + i, b.timestamp, b.weight,
         if i == 0 then b.links else [], if i == 0 then b.cited else None,
         if i == 0 then b.hash else None, if i == 0 then b.approvals else [], b.values[i], i, |b.values| - 1 - i)
  }

  function Members(b: Batch): seq<Node> {
    seq(|b.values|, i requires 0 <= i < |b.values| => Member(b, i))
  }

  // Only the first member carries what the batch links, cites, hashes and approves; all count from
  // it and share its writer, time and weight.
  lemma MembersOf(b: Batch, i: nat)
    requires i < |b.values|
    ensures var ms := Members(b);
            && |ms| == |b.values| && ms[i].value == b.values[i]
            && ms[i].key == b.key && ms[i].length == b.length + i
            && ms[i].timestamp == b.timestamp && ms[i].weight == b.weight
            && ms[i].start == i && ms[i].start + ms[i].end == |ms| - 1
            && (if i > 0 then ms[i].links == [] && ms[i].cited == None && ms[i].hash == None && ms[i].approvals == []
                else ms[i].links == b.links && ms[i].cited == b.cited && ms[i].hash == b.hash && ms[i].approvals == b.approvals)
  {
  }

  lemma Associative<T>(a: seq<T>, b: seq<T>, c: seq<T>)
    ensures a + (b + c) == a + b + c
  {
  }

  // No two batches of the set have the same head.
  ghost predicate DistinctHeads(s: set<Batch>) {
    forall a, b :: a in s && b in s && a.key == b.key && a.length == b.length ==> a == b
  }

  ghost predicate Distinct<T>(s: seq<T>) {
    forall i, j :: 0 <= i < j < |s| ==> s[i] != s[j]
  }

  lemma {:induction false} CountDistinct<T>(s: seq<T>, x: T)
    requires Distinct(s)
    ensures multiset(s)[x] == if x in s then 1 else 0
  {
    if s != [] {
      var front, last := s[..|s| - 1], s[|s| - 1];
      CountDistinct(front, x);
      assert s == front + [last];
      assert last !in front;
    }
  }

  ghost function Elems<T>(s: seq<T>): set<T> {
    set x | x in s
  }

  lemma EmptyElems<T>(s: seq<T>)
    ensures s == [] <==> Elems(s) == {}
  {
    if s != [] {
      assert s[0] in Elems(s);
    }
  }

  lemma ElemsAppend<T>(s: seq<T>, x: T)
    ensures Elems(s + [x]) == Elems(s) + {x}
  {
    forall y ensures y in Elems(s + [x]) <==> y in Elems(s) + {x} {
    }
  }

  lemma DistinctTail<T>(s: seq<T>)
    requires Distinct(s) && s != []
    ensures Distinct(s[1..]) && s[0] !in Elems(s[1..]) && Elems(s) == {s[0]} + Elems(s[1..])
  {
    assert s == [s[0]] + s[1..];
  }
}
