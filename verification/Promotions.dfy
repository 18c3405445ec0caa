// lib/promotions.js: one hint for each writer (the approval that anchored its weight), one
// pending request for each writer that wants more, and a digest of the tiers still wanted.
module Promotions {
  import opened Batches

  datatype Hint = Hint(key: Key, length: nat, weight: nat)

  // What one flush has accumulated for a writer; pending is -1 when nothing was requested.
  datatype Update = Update(key: Key, grant: Option<Hint>, pending: int, isRemoved: bool)

  datatype Op = Put(key: Key, weight: nat) | Remove(key: Key)

  type Hints = map<Key, Hint>
  type Requests = map<Key, nat>

  // the weight a writer has already anchored
  function Anchored(hints: Hints, k: Key): nat {
    if k in hints then hints[k].weight else 0
  }

  // some request still needs an approver of standing w
  ghost predicate Wanted(hints: Hints, requests: Requests, w: nat) {
    exists k :: k in requests && Anchored(hints, k) < w <= requests[k]
  }

  // every request wants more than is anchored
  ghost predicate Outstanding(hints: Hints, requests: Requests) {
    forall k :: k in requests ==> Anchored(hints, k) < requests[k]
  }

  // digest[w - 1] says whether standing w is wanted, and no longer than it must be
  ghost predicate Summarizes(digest: seq<bool>, hints: Hints, requests: Requests) {
    && (forall w :: 1 <= w ==> (Wanted(hints, requests, w) <==> w <= |digest| && digest[w - 1]))
    && (digest != [] ==> digest[|digest| - 1])
  }

  lemma DigestUnique(a: seq<bool>, b: seq<bool>, hints: Hints, requests: Requests)
    requires Summarizes(a, hints, requests) && Summarizes(b, hints, requests)
    ensures a == b
  {
    assert |a| > 0 ==> Wanted(hints, requests, |a|);
    assert |b| > 0 ==> Wanted(hints, requests, |b|);
    forall i | 0 <= i < |a|
      ensures a[i] == b[i]
    {
      assert Wanted(hints, requests, i + 1) <==> a[i + 1 - 1];
      assert Wanted(hints, requests, i + 1) <==> b[i + 1 - 1];
    }
  }

  // ----- one update -----

  // the hint of a writer after an update: removed with the writer, otherwise never lowered
  function HintAfter(hints: Hints, upd: Update): Option<Hint> {
    var existing := if upd.key in hints then Some(hints[upd.key]) else None;
    if upd.isRemoved then None
    else if upd.grant == None || (existing.Some? && existing.value.weight >= upd.grant.value.weight) then existing
    else upd.grant
  }

  function AnchoredAfter(hints: Hints, upd: Update): nat {
    var prev := Anchored(hints, upd.key);
    if upd.grant.Some? && upd.grant.value.weight > prev then upd.grant.value.weight else prev
  }

  // the request of a writer after an update
  function RequestAfter(hints: Hints, requests: Requests, upd: Update): Option<nat> {
    var existing := if upd.key in requests then Some(requests[upd.key]) else None;
    if upd.isRemoved then None
    else if upd.pending == -1 && upd.grant == None then existing
    else
      var had := if existing.Some? then existing.value else 0;
      var want := if upd.pending > had then upd.pending else had;
      if want > AnchoredAfter(hints, upd) then Some(want) else None
  }

  function Get<V>(m: map<Key, V>, k: Key): Option<V> {
    if k in m then Some(m[k]) else None
  }

  // ----- one flush: at most one update for each writer -----

  ghost predicate OnePerWriter(updates: seq<Update>) {
    forall i, j :: 0 <= i < j < |updates| ==> updates[i].key != updates[j].key
  }

  function Find(updates: seq<Update>, k: Key): Option<Update> {
    if updates == [] then None
    else if updates[|updates| - 1].key == k then Some(updates[|updates| - 1])
    else Find(updates[..|updates| - 1], k)
  }

  function HintOf(hints: Hints, updates: seq<Update>, k: Key): Option<Hint> {
    var upd := Find(updates, k);
    if upd == None then Get(hints, k) else HintAfter(hints, upd.value)
  }

  function RequestOf(hints: Hints, requests: Requests, updates: seq<Update>, k: Key): Option<nat> {
    var upd := Find(updates, k);
    if upd == None then Get(requests, k) else RequestAfter(hints, requests, upd.value)
  }

  ghost function HintsAfter(hints: Hints, updates: seq<Update>): Hints {
    map k | k in hints.Keys + Writers(updates) && HintOf(hints, updates, k).Some? :: HintOf(hints, updates, k).value
  }

  ghost function RequestsAfter(hints: Hints, requests: Requests, updates: seq<Update>): Requests {
    map k | k in requests.Keys + Writers(updates) && RequestOf(hints, requests, updates, k).Some? ::
      RequestOf(hints, requests, updates, k).value
  }

  ghost function Writers(updates: seq<Update>): set<Key> {
    set u | u in updates :: u.key
  }

  lemma FindAppend(updates: seq<Update>, u: Update, k: Key)
    ensures Find(updates + [u], k) == if u.key == k then Some(u) else Find(updates, k)
  {
    assert (updates + [u])[..|updates + [u]| - 1] == updates;
  }

  lemma {:induction false} FindKnown(updates: seq<Update>, k: Key)
    ensures Find(updates, k).Some? <==> k in Writers(updates)
    ensures Find(updates, k).Some? ==> Find(updates, k).value in updates && Find(updates, k).value.key == k
  {
    if updates != [] {
      var front, u := updates[..|updates| - 1], updates[|updates| - 1];
      FindKnown(front, k);
      assert updates == front + [u];
    }
  }

  // A flush does to every writer what its update says.
  lemma FlushPointwise(hints: Hints, requests: Requests, updates: seq<Update>, k: Key)
    ensures Get(HintsAfter(hints, updates), k) == HintOf(hints, updates, k)
    ensures Get(RequestsAfter(hints, requests, updates), k) == RequestOf(hints, requests, updates, k)
    ensures var u := Find(updates, k);
            Get(HintsAfter(hints, updates), k) ==
              if u == None then Get(hints, k)
              else if u.value.isRemoved then None
              else if u.value.grant.Some? && (k in hints ==> hints[k].weight < u.value.grant.value.weight) then u.value.grant
              else Get(hints, k)
  {
    FindKnown(updates, k);
  }

  lemma AnchoredByUpdate(hints: Hints, updates: seq<Update>, k: Key)
    ensures var upd := Find(updates, k);
            Anchored(HintsAfter(hints, updates), k) ==
              if upd == None then Anchored(hints, k)
              else if upd.value.isRemoved then 0
              else AnchoredAfter(hints, upd.value)
  {
    FindKnown(updates, k);
    FlushPointwise(hints, map[], updates, k);
  }

  // A flush leaves exactly the requests that want more than is anchored by then.
  lemma FlushKeepsOutstanding(hints: Hints, requests: Requests, updates: seq<Update>)
    requires Outstanding(hints, requests)
    ensures Outstanding(HintsAfter(hints, updates), RequestsAfter(hints, requests, updates))
  {
    var h, r := HintsAfter(hints, updates), RequestsAfter(hints, requests, updates);
    forall k | k in r
      ensures Anchored(h, k) < r[k]
    {
      FindKnown(updates, k);
      FlushPointwise(hints, requests, updates, k);
      AnchoredByUpdate(hints, updates, k);
    }
  }

  // No granted weight is ever lost, except with the writer.
  lemma HintsNeverFall(hints: Hints, updates: seq<Update>, k: Key)
    requires forall u :: u in updates && u.key == k ==> !u.isRemoved
    ensures Anchored(hints, k) <= Anchored(HintsAfter(hints, updates), k)
  {
    FindKnown(updates, k);
    AnchoredByUpdate(hints, updates, k);
  }

  // ----- many flushes -----

  ghost function HintsOver(rounds: seq<seq<Update>>): Hints {
    if rounds == [] then map[] else HintsAfter(HintsOver(rounds[..|rounds| - 1]), rounds[|rounds| - 1])
  }

  ghost function RequestsOver(rounds: seq<seq<Update>>): Requests {
    if rounds == [] then map[]
    else
      var front := rounds[..|rounds| - 1];
      RequestsAfter(HintsOver(front), RequestsOver(front), rounds[|rounds| - 1])
  }

  // the largest request since the writer was last removed
  ghost function Requested(rounds: seq<seq<Update>>, k: Key): nat {
    if rounds == [] then 0
    else
      var before, u := Requested(rounds[..|rounds| - 1], k), Find(rounds[|rounds| - 1], k);
      if u == None then before
      else if u.value.isRemoved then 0
      else if u.value.pending > before then u.value.pending else before
  }

  // the largest grant since then
  ghost function Granted(rounds: seq<seq<Update>>, k: Key): nat {
    if rounds == [] then 0
    else
      var before, u := Granted(rounds[..|rounds| - 1], k), Find(rounds[|rounds| - 1], k);
      if u == None then before
      else if u.value.isRemoved then 0
      else if u.value.grant.Some? && u.value.grant.value.weight > before then u.value.grant.value.weight else before
  }

  // After any flushes a writer's hint is the largest grant since it was last removed, and a request
  // is pending exactly when more than that has been asked for since then.
  lemma {:induction false} PendingExactly(rounds: seq<seq<Update>>, k: Key)
    ensures Anchored(HintsOver(rounds), k) == Granted(rounds, k)
    ensures Get(RequestsOver(rounds), k) ==
            if Requested(rounds, k) > Granted(rounds, k) then Some(Requested(rounds, k)) else None
  {
    if rounds != [] {
      var front, updates := rounds[..|rounds| - 1], rounds[|rounds| - 1];
      PendingExactly(front, k);
      FindKnown(updates, k);
      FlushPointwise(HintsOver(front), RequestsOver(front), updates, k);
      AnchoredByUpdate(HintsOver(front), updates, k);
    }
  }

  // the strongest grant since the writer was last removed, the first of equals
  ghost function Strongest(rounds: seq<seq<Update>>, k: Key): Option<Hint> {
    if rounds == [] then None
    else
      var before, u := Strongest(rounds[..|rounds| - 1], k), Find(rounds[|rounds| - 1], k);
      if u == None then before
      else if u.value.isRemoved then None
      else if u.value.grant == None then before
      else if before.Some? && before.value.weight >= u.value.grant.value.weight then before
      else u.value.grant
  }

  // Some round since the last removal granted exactly this hint.
  ghost predicate GrantedIn(rounds: seq<seq<Update>>, k: Key, h: Hint) {
    exists i :: 0 <= i < |rounds| && HasGrant(rounds[i], k, h) &&
                forall j :: i <= j < |rounds| ==> !Removes(rounds[j], k)
  }

  ghost predicate HasGrant(updates: seq<Update>, k: Key, h: Hint) {
    exists u :: u in updates && u.key == k && u.grant == Some(h)
  }

  ghost predicate Removes(updates: seq<Update>, k: Key) {
    var u := Find(updates, k);
    u.Some? && u.value.isRemoved
  }

  // After any flushes a writer's hint is the strongest grant since it was last removed, with the
  // place of that very approval.
  lemma {:induction false} HintExactly(rounds: seq<seq<Update>>, k: Key)
    ensures Get(HintsOver(rounds), k) == Strongest(rounds, k)
    ensures k in HintsOver(rounds) ==> GrantedIn(rounds, k, HintsOver(rounds)[k])
  {
    if rounds != [] {
      var front, updates := rounds[..|rounds| - 1], rounds[|rounds| - 1];
      HintExactly(front, k);
      FindKnown(updates, k);
      FlushPointwise(HintsOver(front), RequestsOver(front), updates, k);
      var after := HintsOver(rounds);
      if k in after {
        if Get(HintsOver(front), k) == Some(after[k]) && !Removes(updates, k) {
          GrantStays(front, updates, k, after[k]);
        } else {
          assert HasGrant(rounds[|front|], k, after[k]);
        }
      }
    }
  }

  lemma GrantStays(front: seq<seq<Update>>, updates: seq<Update>, k: Key, h: Hint)
    requires GrantedIn(front, k, h) && !Removes(updates, k)
    ensures forall rounds :: |rounds| == |front| + 1 && rounds[..|front|] == front && rounds[|front|] == updates ==>
              GrantedIn(rounds, k, h)
  {
    var i :| 0 <= i < |front| && HasGrant(front[i], k, h) && forall j :: i <= j < |front| ==> !Removes(front[j], k);
    forall rounds: seq<seq<Update>> | |rounds| == |front| + 1 && rounds[..|front|] == front && rounds[|front|] == updates
      ensures GrantedIn(rounds, k, h)
    {
      assert rounds[i] == rounds[..|front|][i];
      forall j | i <= j < |rounds| ensures !Removes(rounds[j], k) {
        assert j < |front| ==> rounds[j] == rounds[..|front|][j];
      }
    }
  }

  // ----- the tier gate -----

  // A peer of this standing could still serve some request.
  ghost predicate CanServe(hints: Hints, requests: Requests, standing: nat) {
    exists k :: k in requests && Anchored(hints, k) < Amount(standing, requests[k])
  }

  function Amount(standing: nat, wanted: nat): nat {
    if standing < wanted then standing else wanted
  }

  lemma TierWanted(hints: Hints, requests: Requests, standing: nat)
    ensures CanServe(hints, requests, standing) <==> exists w :: 1 <= w <= standing && Wanted(hints, requests, w)
  {
    if CanServe(hints, requests, standing) {
      var k :| k in requests && Anchored(hints, k) < Amount(standing, requests[k]);
      assert Wanted(hints, requests, Anchored(hints, k) + 1);
    }
    if w :| 1 <= w <= standing && Wanted(hints, requests, w) {
      var k :| k in requests && Anchored(hints, k) < w <= requests[k];
      assert Anchored(hints, k) < Amount(standing, requests[k]);
    }
  }

  // index.js _pendingWork: exact for every standing.
  method PendingWork(digest: seq<bool>, standing: nat, ghost hints: Hints, ghost requests: Requests)
    returns (work: bool)
    requires Summarizes(digest, hints, requests)
    ensures work <==> CanServe(hints, requests, standing)
  {
    TierWanted(hints, requests, standing);
    var end := if standing < |digest| then standing else |digest|;
    for w := 1 to end + 1
      invariant forall v :: 0 <= v < w - 1 ==> !digest[v]
    {
      if digest[w - 1] {
        assert Wanted(hints, requests, w);
        return true;
      }
    }
    return false;
  }

  // an approval this peer would still offer for a request
  predicate Offers(hints: Hints, requests: Requests, members: set<Key>, memo: map<Key, nat>, standing: nat, k: Key) {
    && k in requests && k in members
    && (k in memo ==> memo[k] < Amount(standing, requests[k]))
    && Anchored(hints, k) < Amount(standing, requests[k])
  }

  // a request that this standing could answer at all
  predicate Servable(requests: Requests, standing: nat, k: Key) {
    k in requests && Amount(standing, requests[k]) > 0
  }

  // the approvals are exactly the offers for the requests that were looked at
  ghost predicate OffersAmong(approvals: seq<Approval>, looked: set<Key>, hints: Hints, requests: Requests,
                              members: set<Key>, memo: map<Key, nat>, standing: nat)
  {
    forall a :: a in approvals <==>
      a.key in looked && Offers(hints, requests, members, memo, standing, a.key) &&
      a.weight == Amount(standing, requests[a.key])
  }

  // index.js _collectApprovals: at most 32 servable requests are looked at. Whoever of these is a
  // member, has not got as much from a hint and has not been approved as much by this peer before
  // is approved, nobody else, and nobody is left out unless 32 requests were looked at. In
  // particular skipping the scan when the digest is quiet loses nothing. The memo remembers what
  // was approved, so that it is not offered again.
  method CollectApprovals(digest: seq<bool>, hints: Hints, requests: Requests, members: set<Key>,
                          memo: map<Key, nat>, standing: nat)
    returns (approvals: seq<Approval>, after: map<Key, nat>)
    requires Summarizes(digest, hints, requests)
    ensures forall a :: a in approvals ==>
              && a.key in requests && a.weight == (if standing < requests[a.key] then standing else requests[a.key])
              && a.key in members && (a.key in hints ==> hints[a.key].weight < a.weight) && 0 < a.weight
              && (a.key in memo ==> memo[a.key] < a.weight)
    ensures exists looked: set<Key> ::
              && |looked| <= 32 && (forall a :: a in approvals ==> a.key in looked)
              && (forall k :: k in requests && k in members && (k in looked || |looked| < 32) ==>
                    var w := if standing < requests[k] then standing else requests[k];
                    Approval(k, w) in approvals || w == 0
                    || (k in hints && w <= hints[k].weight) || (k in memo && w <= memo[k]))
    ensures forall k :: k in after ==> Approval(k, after[k]) in approvals || (k in memo && after[k] == memo[k])
    ensures forall a :: a in approvals ==> a.key in after && after[a.key] == a.weight
    ensures forall k :: k in memo ==> k in after && memo[k] <= after[k]
  {
    ghost var looked;
    approvals, looked := ScanRequests(digest, hints, requests, members, memo, standing);
    AllAnswered(approvals, looked, hints, requests, members, memo, standing);
    after := Remember(approvals, memo);
  }

  lemma AllAnswered(approvals: seq<Approval>, looked: set<Key>, hints: Hints, requests: Requests,
                    members: set<Key>, memo: map<Key, nat>, standing: nat)
    requires OffersAmong(approvals, looked, hints, requests, members, memo, standing)
    requires |looked| < 32 ==> forall k :: Offers(hints, requests, members, memo, standing, k) ==> k in looked
    ensures forall k :: k in requests && k in members && (k in looked || |looked| < 32) ==>
              var w := if standing < requests[k] then standing else requests[k];
              Approval(k, w) in approvals || w == 0
              || (k in hints && w <= hints[k].weight) || (k in memo && w <= memo[k])
  {
    forall k | k in requests && k in members && (k in looked || |looked| < 32)
      ensures var w := if standing < requests[k] then standing else requests[k];
              Approval(k, w) in approvals || w == 0
              || (k in hints && w <= hints[k].weight) || (k in memo && w <= memo[k])
    {
      if Offers(hints, requests, members, memo, standing, k) {
        assert Approval(k, Amount(standing, requests[k])) in approvals;
      }
    }
  }

  method Remember(approvals: seq<Approval>, memo: map<Key, nat>) returns (after: map<Key, nat>)
    requires forall a, b :: a in approvals && b in approvals && a.key == b.key ==> a == b
    requires forall a :: a in approvals && a.key in memo ==> memo[a.key] < a.weight
    ensures forall k :: k in after ==> Approval(k, after[k]) in approvals || (k in memo && after[k] == memo[k])
    ensures forall a :: a in approvals ==> a.key in after && after[a.key] == a.weight
    ensures forall k :: k in memo ==> k in after && memo[k] <= after[k]
  {
    after := memo;
    for i := 0 to |approvals|
      invariant forall k :: k in after ==> Approval(k, after[k]) in approvals || (k in memo && after[k] == memo[k])
      invariant forall j :: 0 <= j < i ==> approvals[j].key in after && after[approvals[j].key] == approvals[j].weight
      invariant forall k :: k in memo ==> k in after && memo[k] <= after[k]
    {
      assert approvals[i] in approvals;
      after := after[approvals[i].key := approvals[i].weight];
    }
  }

  method ScanRequests(digest: seq<bool>, hints: Hints, requests: Requests, members: set<Key>,
                      memo: map<Key, nat>, standing: nat)
    returns (approvals: seq<Approval>, ghost looked: set<Key>)
    requires Summarizes(digest, hints, requests)
    ensures OffersAmong(approvals, looked, hints, requests, members, memo, standing) && |looked| <= 32
    ensures |looked| < 32 ==> forall k :: Offers(hints, requests, members, memo, standing, k) ==> k in looked
  {
    approvals, looked := [], {};
    var work := PendingWork(digest, standing, hints, requests);
    if !work {
      return;
    }
    var todo := requests.Keys;
    var count := 0;
    while todo != {} && count < 32
      invariant todo <= requests.Keys && looked <= requests.Keys - todo && |looked| == count <= 32
      invariant forall k :: k in looked <==> k !in todo && Servable(requests, standing, k)
      invariant OffersAmong(approvals, looked, hints, requests, members, memo, standing)
      decreases todo
    {
      var k :| k in todo;
      todo := todo - {k};
      if Amount(standing, requests[k]) > 0 {
        count, looked := count + 1, looked + {k};
        if Offers(hints, requests, members, memo, standing, k) {
          approvals := approvals + [Approval(k, Amount(standing, requests[k]))];
        }
      }
    }
  }

  // ----- flushing step by step -----

  function Set<V>(m: map<Key, V>, k: Key, v: Option<V>): map<Key, V> {
    if v.Some? then m[k := v.value] else m - {k}
  }

  lemma RequestsStep(hints: Hints, requests: Requests, updates: seq<Update>, u: Update)
    requires u.key !in Writers(updates)
    ensures RequestsAfter(hints, requests, updates + [u])
            == Set(RequestsAfter(hints, requests, updates), u.key, RequestAfter(hints, requests, u))
    ensures Get(RequestsAfter(hints, requests, updates), u.key) == Get(requests, u.key)
  {
    var a := RequestsAfter(hints, requests, updates + [u]);
    var b := Set(RequestsAfter(hints, requests, updates), u.key, RequestAfter(hints, requests, u));
    FindKnown(updates, u.key);
    FlushPointwise(hints, requests, updates, u.key);
    forall k
      ensures Get(a, k) == Get(b, k)
    {
      FlushPointwise(hints, requests, updates + [u], k);
      FlushPointwise(hints, requests, updates, k);
      FindAppend(updates, u, k);
    }
    SameMap(a, b);
  }

  lemma SameMap<V>(a: map<Key, V>, b: map<Key, V>)
    requires forall k :: Get(a, k) == Get(b, k)
    ensures a == b
  {
    forall k ensures (k in a <==> k in b) && (k in a ==> a[k] == b[k]) {
      assert Get(a, k) == Get(b, k);
    }
  }

  lemma ApplyOpsAppend(requests: Requests, ops: seq<Op>, op: Op)
    ensures ApplyOps(requests, ops + [op]) ==
            ApplyOp(ApplyOps(requests, ops), op)
  {
    assert (ops + [op])[..|ops + [op]| - 1] == ops;
  }

  // What one update says about the anchored level has been recorded where it matters.
  ghost predicate Tallied(hints: Hints, updates: seq<Update>, levels: map<Key, nat>) {
    forall k :: TalliedAt(hints, Find(updates, k), levels, k)
  }

  ghost predicate TalliedAt(hints: Hints, u: Option<Update>, levels: map<Key, nat>, k: Key) {
    && (k in levels ==> u.Some? && !u.value.isRemoved && levels[k] == AnchoredAfter(hints, u.value))
    && (k !in levels && u.Some? && !u.value.isRemoved ==> AnchoredAfter(hints, u.value) == Anchored(hints, k))
  }

  lemma TalliedStep(hints: Hints, updates: seq<Update>, levels: map<Key, nat>, u: Update, after: map<Key, nat>)
    requires Tallied(hints, updates, levels) && u.key !in Writers(updates)
    requires after == if u.isRemoved || (u.pending == -1 && u.grant == None) then levels
                      else levels[u.key := AnchoredAfter(hints, u)]
    ensures Tallied(hints, updates + [u], after)
  {
    FindKnown(updates, u.key);
    forall k
      ensures TalliedAt(hints, Find(updates + [u], k), after, k)
    {
      FindAppend(updates, u, k);
      assert TalliedAt(hints, Find(updates, k), levels, k);
    }
  }

  function Level(hints: Hints, levels: map<Key, nat>, k: Key): nat {
    if k in levels then levels[k] else Anchored(hints, k)
  }

  lemma LevelIsAnchored(hints: Hints, requests: Requests, updates: seq<Update>, levels: map<Key, nat>, k: Key)
    requires Tallied(hints, updates, levels) && k in RequestsAfter(hints, requests, updates)
    ensures Level(hints, levels, k) == Anchored(HintsAfter(hints, updates), k)
  {
    assert TalliedAt(hints, Find(updates, k), levels, k);
    FlushPointwise(hints, requests, updates, k);
    AnchoredByUpdate(hints, updates, k);
    FindKnown(updates, k);
  }

  // ----- the digest -----

  ghost predicate OpenAt(hints: Hints, requests: Requests, levels: map<Key, nat>, keys: set<Key>, w: nat) {
    exists k :: k in keys && k in requests && Level(hints, levels, k) < w <= requests[k]
  }

  method OpenTiers(hints: Hints, requests: Requests, levels: map<Key, nat>) returns (open: set<nat>)
    ensures forall w :: w in open <==> OpenAt(hints, requests, levels, requests.Keys, w)
  {
    open := {};
    var todo := requests.Keys;
    while todo != {}
      invariant todo <= requests.Keys
      invariant forall w :: w in open <==> OpenAt(hints, requests, levels, requests.Keys - todo, w)
      decreases todo
    {
      var k :| k in todo;
      var anchored := Level(hints, levels, k);
      ghost var before := open;
      var w := anchored + 1;
      while w <= requests[k]
        invariant anchored < w && (w <= requests[k] + 1 || w == anchored + 1)
        invariant forall v :: v in open <==> v in before || anchored < v < w
      {
        open := open + {w};
        w := w + 1;
      }
      OpenNext(hints, requests, levels, requests.Keys - todo, k);
      todo := todo - {k};
      assert requests.Keys - todo == requests.Keys - (todo + {k}) + {k};
    }
    assert requests.Keys - todo == requests.Keys;
  }

  lemma OpenNext(hints: Hints, requests: Requests, levels: map<Key, nat>, keys: set<Key>, k: Key)
    requires k in requests
    ensures forall w :: OpenAt(hints, requests, levels, keys + {k}, w) <==>
              OpenAt(hints, requests, levels, keys, w) || Level(hints, levels, k) < w <= requests[k]
  {
    forall w
      ensures OpenAt(hints, requests, levels, keys + {k}, w) <==>
              OpenAt(hints, requests, levels, keys, w) || Level(hints, levels, k) < w <= requests[k]
    {
      if OpenAt(hints, requests, levels, keys, w) {
        var j :| j in keys && j in requests && Level(hints, levels, j) < w <= requests[j];
        assert j in keys + {k};
      }
      if Level(hints, levels, k) < w <= requests[k] {
        assert k in keys + {k};
      }
    }
  }

  method BuildDigest(open: set<nat>) returns (digest: seq<bool>)
    requires 0 !in open
    ensures forall w :: 1 <= w ==> (w in open <==> w <= |digest| && digest[w - 1])
    ensures digest != [] ==> digest[|digest| - 1]
  {
    var max := 0;
    var todo := open;
    while todo != {}
      invariant todo <= open && (max == 0 || max in open)
      invariant forall w :: w in open ==> w in todo || w <= max
      decreases todo
    {
      var w :| w in todo;
      todo := todo - {w};
      if w > max {
        max := w;
      }
    }
    digest := [];
    for w := 1 to max + 1
      invariant |digest| == w - 1
      invariant forall i :: 0 <= i < w - 1 ==> (digest[i] <==> i + 1 in open)
    {
      digest := digest + [w in open];
    }
  }

  // ----- the indexes as they are kept -----

  function ApplyOps(requests: Requests, ops: seq<Op>): Requests {
    if ops == [] then requests
    else
      ApplyOp(ApplyOps(requests, ops[..|ops| - 1]), ops[|ops| - 1])
  }

  function ApplyOp(requests: Requests, op: Op): Requests {
    match op
    case Put(k, w) => requests[k := w]
    case Remove(k) => requests - {k}
  }

  class Promotions {
    var hints: Hints            // stored in the system bee
    var stored: Requests        // stored in the system bee
    var cache: Option<Requests>
    var digest: seq<bool>
    var changed: bool

    // The cache equals what is stored, and the digest is exact.
    ghost predicate Valid()
      reads this
    {
      && Outstanding(hints, stored)
      && Summarizes(digest, hints, stored)
      && (cache == None || cache.value == stored)
    }

    constructor ()
      ensures Valid() && hints == map[] && stored == map[]
    {
      hints, stored, cache, digest, changed := map[], map[], None, [], false;
    }

    // After a rewind the stored indexes and the digest come from the snapshot.
    method Reset(hints: Hints, stored: Requests, digest: seq<bool>)
      requires Outstanding(hints, stored) && Summarizes(digest, hints, stored)
      modifies this
      ensures Valid() && this.hints == hints && this.stored == stored && this.digest == digest
    {
      this.hints, this.stored, this.digest := hints, stored, digest;
      cache := None;
    }

    method Load() returns (requests: Requests)
      requires cache == None || cache.value == stored
      modifies this`cache
      ensures requests == stored && cache == Some(stored)
    {
      if cache == None {
        cache := Some(stored);
      }
      requests := cache.value;
    }

    // The effect of one update on the requests, with the operation that stores it.
    method ApplyUpdate(upd: Update, before: Requests) returns (after: Requests, op: Option<Op>)
      requires Get(before, upd.key) == Get(stored, upd.key) && Outstanding(hints, stored)
      modifies this`changed
      ensures after == Set(before, upd.key, RequestAfter(hints, stored, upd))
      ensures after == if op.Some? then ApplyOp(before, op.value) else before
    {
      after, op := before, None;
      var existing := Get(before, upd.key);
      if upd.isRemoved {
        if existing.Some? {
          after, op := before - {upd.key}, Some(Remove(upd.key));
        }
        return;
      }
      if upd.pending == -1 && upd.grant == None {
        return;
      }
      var anchored := AnchoredAfter(hints, upd);
      var had := if existing.Some? then existing.value else 0;
      var want := if had < upd.pending then upd.pending else had;
      if want > anchored {
        if existing.Some? && want == existing.value {
          return;
        }
        after, op := before[upd.key := want], Some(Put(upd.key, want));
        changed := true;
      } else if existing.Some? {
        after, op := before - {upd.key}, Some(Remove(upd.key));
      }
    }

    // The updates of a flush, in turn.
    method ApplyUpdates(updates: seq<Update>) returns (requests: Requests, ops: seq<Op>, levels: map<Key, nat>)
      requires Outstanding(hints, stored) && OnePerWriter(updates)
      modifies this`changed
      ensures requests == RequestsAfter(hints, stored, updates)
      ensures ApplyOps(stored, ops) == requests
      ensures Tallied(hints, updates, levels)
    {
      requests, ops, levels := stored, [], map[];
      SameMap(RequestsAfter(hints, stored, []), stored);
      for i := 0 to |updates|
        invariant requests == RequestsAfter(hints, stored, updates[..i])
        invariant ApplyOps(stored, ops) == requests
        invariant Tallied(hints, updates[..i], levels)
      {
        var upd := updates[i];
        assert updates[..i + 1] == updates[..i] + [upd];
        assert upd.key !in Writers(updates[..i]);
        RequestsStep(hints, stored, updates[..i], upd);
        var op;
        requests, op := ApplyUpdate(upd, requests);
        if op.Some? {
          ApplyOpsAppend(stored, ops, op.value);
          ops := ops + [op.value];
        }
        ghost var before := levels;
        if !(upd.isRemoved || (upd.pending == -1 && upd.grant == None)) {
          levels := levels[upd.key := AnchoredAfter(hints, upd)];
        }
        TalliedStep(hints, updates[..i], before, upd, levels);
      }
      assert updates[..|updates|] == updates;
    }

    // The request operations of a flush, against the hints as they are before it. Afterwards the
    // cache and the digest are those of the indexes once the flush is written.
    method FlushPending(updates: seq<Update>) returns (ops: seq<Op>)
      requires Valid() && OnePerWriter(updates)
      modifies this`cache, this`digest, this`changed
      ensures ApplyOps(stored, ops) == RequestsAfter(hints, stored, updates)
      ensures Summarizes(digest, HintsAfter(hints, updates), RequestsAfter(hints, stored, updates))
      ensures cache == None || cache.value == RequestsAfter(hints, stored, updates)
    {
      var relevant := false;
      for i := 0 to |updates|
        invariant relevant <==> exists j :: 0 <= j < i && Relevant(updates[j])
      {
        relevant := relevant || Relevant(updates[i]);
      }
      if !relevant {
        NothingRelevant(hints, stored, updates);
        return [];
      }
      var pending := Load();
      if pending == map[] && !(exists i :: 0 <= i < |updates| && updates[i].pending != -1) {
        NothingRequested(hints, updates);
        SameSummary(digest, hints, stored, HintsAfter(hints, updates), RequestsAfter(hints, stored, updates));
        return [];
      }
      var levels;
      pending, ops, levels := ApplyUpdates(updates);
      cache := Some(pending);
      var open := OpenTiers(hints, pending, levels);
      digest := BuildDigest(open);
      OpenIsWanted(hints, stored, updates, levels);
    }

    // The whole flush: hints and requests are computed from the old indexes and then written.
    method Flush(updates: seq<Update>)
      requires Valid() && OnePerWriter(updates)
      modifies this
      ensures Valid()
      ensures hints == HintsAfter(old(hints), updates)
      ensures stored == RequestsAfter(old(hints), old(stored), updates)
    {
      var ops := FlushPending(updates);
      FlushKeepsOutstanding(hints, stored, updates);
      stored := ApplyOps(stored, ops);
      hints := WriteHints(hints, updates);
    }
  }

  predicate Relevant(upd: Update) {
    upd.pending != -1 || upd.grant != None || upd.isRemoved
  }

  method WriteHints(before: Hints, updates: seq<Update>) returns (hints: Hints)
    requires OnePerWriter(updates)
    ensures hints == HintsAfter(before, updates)
  {
    hints := before;
    SameMap(HintsAfter(before, []), before);
    for i := 0 to |updates|
      invariant hints == HintsAfter(before, updates[..i])
    {
      var upd := updates[i];
      assert updates[..i + 1] == updates[..i] + [upd];
      assert upd.key !in Writers(updates[..i]);
      HintsStep(before, updates[..i], upd);
      hints := Set(hints, upd.key, HintAfter(before, upd));
    }
    assert updates[..|updates|] == updates;
  }

  lemma HintsStep(hints: Hints, updates: seq<Update>, u: Update)
    requires u.key !in Writers(updates)
    ensures HintsAfter(hints, updates + [u]) == Set(HintsAfter(hints, updates), u.key, HintAfter(hints, u))
  {
    var a := HintsAfter(hints, updates + [u]);
    var b := Set(HintsAfter(hints, updates), u.key, HintAfter(hints, u));
    forall k
      ensures Get(a, k) == Get(b, k)
    {
      FlushPointwise(hints, map[], updates + [u], k);
      FlushPointwise(hints, map[], updates, k);
      FindAppend(updates, u, k);
    }
    SameMap(a, b);
  }

  lemma NothingRelevant(hints: Hints, requests: Requests, updates: seq<Update>)
    requires forall i :: 0 <= i < |updates| ==> !Relevant(updates[i])
    ensures HintsAfter(hints, updates) == hints && RequestsAfter(hints, requests, updates) == requests
  {
    forall k
      ensures Get(HintsAfter(hints, updates), k) == Get(hints, k)
      ensures Get(RequestsAfter(hints, requests, updates), k) == Get(requests, k)
    {
      FindKnown(updates, k);
      FlushPointwise(hints, requests, updates, k);
    }
    SameMap(HintsAfter(hints, updates), hints);
    SameMap(RequestsAfter(hints, requests, updates), requests);
  }

  lemma NothingRequested(hints: Hints, updates: seq<Update>)
    requires forall i :: 0 <= i < |updates| ==> updates[i].pending == -1
    ensures RequestsAfter(hints, map[], updates) == map[]
  {
    forall k
      ensures k !in RequestsAfter(hints, map[], updates)
    {
      FindKnown(updates, k);
      FlushPointwise(hints, map[], updates, k);
    }
  }

  // With no request at all the digest is empty, whatever the hints.
  lemma SameSummary(digest: seq<bool>, hints: Hints, requests: Requests, after: Hints, left: Requests)
    requires Summarizes(digest, hints, requests) && requests == map[] && left == map[]
    ensures Summarizes(digest, after, left)
  {
    assert forall w :: Wanted(hints, requests, w) <==> Wanted(after, left, w);
  }

  lemma OpenIsWanted(hints: Hints, requests: Requests, updates: seq<Update>, levels: map<Key, nat>)
    requires Tallied(hints, updates, levels)
    ensures var r := RequestsAfter(hints, requests, updates);
            forall w :: OpenAt(hints, r, levels, r.Keys, w) <==> Wanted(HintsAfter(hints, updates), r, w)
  {
    var r := RequestsAfter(hints, requests, updates);
    forall k | k in r
      ensures Level(hints, levels, k) == Anchored(HintsAfter(hints, updates), k)
    {
      LevelIsAnchored(hints, requests, updates, levels, k);
    }
  }
}
