// lib/witness.js and the writer records of lib/system.js: how much weight a writer has.
module Witness {
  import opened Batches

  datatype Record = Record(weight: int, maxWeight: int, isGenesis: bool, isRemoved: bool)

  type Records = map<Key, Record>

  // The founding writer and the weight it starts with.
  datatype Genesis = Genesis(key: Key, weight: nat)

  // The weight a batch claims, and the node whose approval it cites for it.
  datatype Claim = Claim(weight: nat, link: Link)

  // The approvals recorded in any node, read from the oplogs.
  type Oplogs = Link -> seq<Approval>

  function Get(records: Records, k: Key): Option<Record> {
    if k in records then Some(records[k]) else None
  }

  function CurrentWeight(rec: Option<Record>): int {
    if rec == None then 0
    else if rec.value.maxWeight > 0 && rec.value.isGenesis then rec.value.maxWeight
    else rec.value.weight
  }

  function SeedWeight(g: Genesis, node: Link): int {
    if node.length == 1 && node.key == g.key then g.weight else 0
  }

  function FindApproval(approvals: seq<Approval>, k: Key): Option<Approval> {
    if approvals == [] then None
    else if approvals[0].key == k then Some(approvals[0])
    else FindApproval(approvals[1..], k)
  }

  predicate ApproverQualified(g: Genesis, records: Records, k: Key, weight: int) {
    if k == g.key then g.weight >= weight else CurrentWeight(Get(records, k)) >= weight
  }

  predicate VerifyClaim(g: Genesis, records: Records, oplogs: Oplogs, k: Key, claim: Claim) {
    claim.link.length != 0 &&
    var entry := FindApproval(oplogs(claim.link), k);
    entry.Some? && entry.value.weight >= claim.weight
    && ApproverQualified(g, records, claim.link.key, entry.value.weight)
  }

  function PreviousWeight(g: Genesis, records: Records, node: Link): int {
    if node.key in records then CurrentWeight(Some(records[node.key])) else SeedWeight(g, node)
  }

  function ResolveWeight(g: Genesis, records: Records, oplogs: Oplogs, node: Link, claim: Option<Claim>): int {
    var prev := PreviousWeight(g, records, node);
    if claim == None || claim.value.weight <= prev then prev
    else if !VerifyClaim(g, records, oplogs, node.key, claim.value) then prev
    else claim.value.weight
  }

  // ----- invariants of the records -----

  // no record exceeds the founding weight, and the genesis bypass changes nothing
  ghost predicate Bounded(g: Genesis, records: Records) {
    forall k :: k in records ==> BoundedRecord(g, records[k])
  }

  ghost predicate BoundedRecord(g: Genesis, r: Record) {
    && 0 <= r.weight <= g.weight && 0 <= r.maxWeight <= g.weight
    && (r.isGenesis && r.maxWeight > 0 ==> r.maxWeight == r.weight == g.weight)
  }

  // an approval of at least the claimed weight, by an author that stood at least as high as it
  ghost predicate Backed(g: Genesis, records: Records, oplogs: Oplogs, k: Key, claim: Claim) {
    exists a :: a in oplogs(claim.link) && a.key == k && claim.weight <= a.weight &&
                a.weight <= Standing(g, records, claim.link.key)
  }

  function Standing(g: Genesis, records: Records, k: Key): int {
    if k == g.key then g.weight else CurrentWeight(Get(records, k))
  }

  // A resolved weight never drops below the writer's standing and never exceeds the ceiling, and
  // it rises only on an approval whose author stood at least that high.
  lemma ResolvedWithin(g: Genesis, records: Records, oplogs: Oplogs, node: Link, claim: Option<Claim>)
    requires Bounded(g, records)
    ensures var w := ResolveWeight(g, records, oplogs, node, claim);
            && PreviousWeight(g, records, node) <= w <= g.weight
            && 0 <= w
            && (w > PreviousWeight(g, records, node) ==>
                  claim.Some? && w == claim.value.weight && Backed(g, records, oplogs, node.key, claim.value))
  {
    if claim.Some? {
      ApprovalFound(oplogs(claim.value.link), node.key);
      var approver := claim.value.link.key;
      assert CurrentWeight(Get(records, approver)) <= g.weight;
    }
  }

  // What the writer stands at before its claim is looked at: its record, or the founding weight
  // for the first node of the founder, or nothing.
  ghost predicate StandsAt(g: Genesis, records: Records, node: Link, prev: int) {
    if node.key in records then
      prev == (if records[node.key].isGenesis && records[node.key].maxWeight > 0 then records[node.key].maxWeight
               else records[node.key].weight)
    else prev == (if node.key == g.key && node.length == 1 then g.weight else 0)
  }

  // A claim raises a weight, to exactly what is claimed, if and only if it asks for more than the
  // writer stands at, and the first approval for the writer in the node it names is at least that
  // much and no more than its author stands at.
  lemma RisesExactly(g: Genesis, records: Records, oplogs: Oplogs, node: Link, claim: Claim, prev: int)
    requires StandsAt(g, records, node, prev)
    ensures ResolveWeight(g, records, oplogs, node, None) == prev
    ensures var w, approvals, author := ResolveWeight(g, records, oplogs, node, Some(claim)), oplogs(claim.link), claim.link.key;
            && (w == prev || w == claim.weight)
            && (w > prev <==>
                  && claim.weight > prev && claim.link.length > 0
                  && exists i :: 0 <= i < |approvals| && approvals[i].key == node.key &&
                       (forall j :: 0 <= j < i ==> approvals[j].key != node.key) &&
                       claim.weight <= approvals[i].weight &&
                       approvals[i].weight <= (if author == g.key then g.weight
                                               else if author !in records then 0
                                               else if records[author].isGenesis && records[author].maxWeight > 0
                                               then records[author].maxWeight
                                               else records[author].weight))
  {
    FirstApproval(oplogs(claim.link), node.key);
  }

  lemma {:induction false} FirstApproval(approvals: seq<Approval>, k: Key)
    ensures var a := FindApproval(approvals, k);
            if a == None then forall i :: 0 <= i < |approvals| ==> approvals[i].key != k
            else exists i :: 0 <= i < |approvals| && approvals[i] == a.value && a.value.key == k &&
                             forall j :: 0 <= j < i ==> approvals[j].key != k
    decreases |approvals|
  {
    if approvals != [] && approvals[0].key != k {
      var rest := approvals[1..];
      FirstApproval(rest, k);
      var a := FindApproval(approvals, k);
      assert a == FindApproval(rest, k);
      if a.Some? {
        var i :| 0 <= i < |rest| && rest[i] == a.value && forall j :: 0 <= j < i ==> rest[j].key != k;
        assert approvals[i + 1] == a.value;
        forall j | 0 <= j < i + 1 ensures approvals[j].key != k {
          assert j > 0 ==> approvals[j] == rest[j - 1];
        }
      } else {
        forall j | 0 <= j < |approvals| ensures approvals[j].key != k {
          assert j > 0 ==> approvals[j] == rest[j - 1];
        }
      }
    }
  }

  lemma {:induction false} ApprovalFound(approvals: seq<Approval>, k: Key)
    ensures var a := FindApproval(approvals, k); a.Some? ==> a.value in approvals && a.value.key == k
    decreases |approvals|
  {
    if approvals != [] {
      ApprovalFound(approvals[1..], k);
    }
  }

  lemma BypassEqualsStored(g: Genesis, records: Records, k: Key)
    requires Bounded(g, records) && k in records
    ensures CurrentWeight(Get(records, k)) == records[k].weight
  {
    assert BoundedRecord(g, records[k]);
  }
}
