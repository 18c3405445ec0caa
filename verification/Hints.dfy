// The state below a log that an append reads: the application's view, the hints that approvals
// leave, and the weights that the writers have.
module Hints {
  import opened Batches
  import opened Reference
  import opened System
  import opened States
  import opened Promotions
  import Weights

  datatype AppState<V> = AppState(view: V, hints: Hints, weights: map<Key, int>)

  // What the model leaves open: the hash, the apply handler, and the writers it removes.
  datatype App<!V> = App(base: Params<V>, removes: (AppState<V>, Batch) -> set<Key>)

  // the strongest of the first i approvals that a batch carries for a writer
  function BestGrant(b: Batch, i: nat, k: Key): Option<Hint>
    requires i <= |b.approvals|
  {
    if i == 0 then None
    else
      var best, a := BestGrant(b, i - 1, k), b.approvals[i - 1];
      var hint := Hint(b.key, b.length, Weights.Effective(a.weight, Weights.Carried(b.weight, None)));
      if a.key == k && (best == None || hint.weight > best.value.weight) then Some(hint) else best
  }

  function UpdateOf(b: Batch, removed: set<Key>, k: Key): Update {
    Update(k, BestGrant(b, |b.approvals|, k), -1, k in removed)
  }

  function HintsStep(hints: Hints, b: Batch, removed: set<Key>): Hints {
    map k | k in hints.Keys + (set a | a in b.approvals :: a.key) && HintAfter(hints, UpdateOf(b, removed, k)).Some? ::
      HintAfter(hints, UpdateOf(b, removed, k)).value
  }

  function Step<V>(app: App<V>, s: AppState<V>, b: Batch): AppState<V> {
    AppState(app.base.apply(s.view, b), HintsStep(s.hints, b, app.removes(s, b)), s.weights[b.key := b.weight])
  }

  function Program<V>(app: App<V>): Params<AppState<V>> {
    Params(app.base.advance, (s: AppState<V>, b: Batch) => Step(app, s, b), AppState(app.base.blank, map[], map[]))
  }

  function HintsOf<V>(app: App<V>, log: seq<Batch>): Hints {
    InfoOf(Program(app), log).view.hints
  }

  function StandingOf<V>(app: App<V>, log: seq<Batch>, k: Key): int {
    var weights := InfoOf(Program(app), log).view.weights;
    if k in weights then weights[k] else 0
  }

  function Place(h: Hint): Link {
    Link(h.key, h.length)
  }

  // What a writer cites when it appends: its hint, if that is worth more than its standing.
  function CitationOf<V>(app: App<V>, log: seq<Batch>, k: Key): Option<Link> {
    var hints := HintsOf(app, log);
    if k in hints && hints[k].weight > StandingOf(app, log, k) then Some(Place(hints[k])) else None
  }

  // the writers that the application removes when it applies b on top of a log
  ghost function Removed<V>(app: App<V>, log: seq<Batch>, b: Batch): set<Key> {
    app.removes(InfoOf(Program(app), log).view, b)
  }

  lemma StateStep<V>(app: App<V>, front: seq<Batch>, b: Batch)
    ensures var before, after := InfoOf(Program(app), front).view, InfoOf(Program(app), front + [b]).view;
            && after.hints == HintsStep(before.hints, b, Removed(app, front, b))
            && after.weights == before.weights[b.key := b.weight]
  {
    var p := Program(app);
    assert (front + [b])[..|front|] == front;
    AddMembersKeeps(p, InfoOf(p, front), b, |b.values|);
    assert InfoOf(p, front + [b]).view == Step(app, InfoOf(p, front).view, b);
  }

  // ----- the standing -----

  // the weight of the last of the first i batches that a writer has, or zero
  ghost function LastWeight(log: seq<Batch>, k: Key, i: nat): int
    requires i <= |log|
  {
    if i == 0 then 0 else if log[i - 1].key == k then log[i - 1].weight else LastWeight(log, k, i - 1)
  }

  lemma {:induction false} LastWeightPrefix(a: seq<Batch>, b: seq<Batch>, k: Key, i: nat)
    requires i <= |a|
    ensures LastWeight(a + b, k, i) == LastWeight(a, k, i)
  {
    if i > 0 {
      LastWeightPrefix(a, b, k, i - 1);
    }
  }

  // The weight that is kept for a writer is that of its last batch.
  lemma {:induction false} StandingIsLast<V>(app: App<V>, log: seq<Batch>, k: Key)
    ensures StandingOf(app, log, k) == LastWeight(log, k, |log|)
  {
    if log != [] {
      var front, b := log[..|log| - 1], log[|log| - 1];
      assert log == front + [b];
      StandingIsLast(app, front, k);
      StateStep(app, front, b);
      LastWeightPrefix(front, [b], k, |front|);
    }
  }

  // ----- the hints -----

  // b approves k at w: what it says, but no more than it has
  ghost predicate Approves(b: Batch, k: Key, w: int) {
    exists a :: a in b.approvals && a.key == k &&
                w == if a.weight <= b.weight then a.weight else if b.weight < 0 then 0 else b.weight
  }

  lemma {:induction false} BestGrantExact(b: Batch, i: nat, k: Key)
    requires i <= |b.approvals|
    ensures var h := BestGrant(b, i, k);
            && (h.Some? ==> h.value.key == b.key && h.value.length == b.length && Approves(b, k, h.value.weight))
            && forall j :: 0 <= j < i && b.approvals[j].key == k ==>
                 var a := b.approvals[j];
                 h.Some? && (if a.weight <= b.weight then a.weight else if b.weight < 0 then 0 else b.weight) <= h.value.weight
  {
    if i > 0 {
      BestGrantExact(b, i - 1, k);
      assert b.approvals[i - 1] in b.approvals;
    }
  }

  lemma BestGrantIsBest(b: Batch, k: Key)
    ensures var h := BestGrant(b, |b.approvals|, k);
            && (h.Some? ==> Place(h.value) == HeadOf(b) && Approves(b, k, h.value.weight))
            && forall w :: Approves(b, k, w) ==> h.Some? && w <= h.value.weight
  {
    BestGrantExact(b, |b.approvals|, k);
  }

  // No batch from position i on removes k.
  ghost predicate StaysFrom<V>(app: App<V>, log: seq<Batch>, i: nat, k: Key) {
    forall j :: i <= j < |log| ==> k !in Removed(app, log[..j], log[j])
  }

  // The batch at position i approved k at what the hint says, and k was not removed since.
  ghost predicate HintFrom<V>(app: App<V>, log: seq<Batch>, i: nat, k: Key, h: Hint)
    requires i < |log|
  {
    StaysFrom(app, log, i, k) && Place(h) == HeadOf(log[i]) && Approves(log[i], k, h.weight)
  }

  lemma StaysFromAppend<V>(app: App<V>, front: seq<Batch>, b: Batch, i: nat, k: Key)
    requires i <= |front|
    ensures StaysFrom(app, front + [b], i, k) <==> StaysFrom(app, front, i, k) && k !in Removed(app, front, b)
  {
    var log := front + [b];
    assert log[..|front|] == front && log[|front|] == b;
    forall j | 0 <= j < |front| ensures log[..j] == front[..j] && log[j] == front[j] {
    }
    if StaysFrom(app, log, i, k) {
      assert k !in Removed(app, log[..|front|], log[|front|]);
      forall j | i <= j < |front| ensures k !in Removed(app, front[..j], front[j]) {
        assert k !in Removed(app, log[..j], log[j]);
      }
    }
  }

  // What one batch does to the hint of a writer.
  lemma HintStep(hints: Hints, b: Batch, removed: set<Key>, k: Key)
    ensures var h := BestGrant(b, |b.approvals|, k);
            Get(HintsStep(hints, b, removed), k) ==
              if k in removed then None
              else if h.Some? && (k in hints ==> hints[k].weight < h.value.weight) then h
              else Get(hints, k)
  {
    BestGrantIsBest(b, k);
  }

  // The hint of a writer names a batch that approved it at exactly that weight since it was last
  // removed, and no approval since then was for more.
  lemma {:induction false} HintsExactly<V>(app: App<V>, log: seq<Batch>, k: Key)
    ensures var hints := HintsOf(app, log);
            k in hints ==> exists i :: 0 <= i < |log| && HintFrom(app, log, i, k, hints[k])
    ensures var hints := HintsOf(app, log);
            forall i, w :: 0 <= i < |log| && StaysFrom(app, log, i, k) && Approves(log[i], k, w) ==>
              k in hints && w <= hints[k].weight
  {
    if log != [] {
      var front, b := log[..|log| - 1], log[|log| - 1];
      assert log == front + [b];
      HintsExactly(app, front, k);
      StateStep(app, front, b);
      HintStep(HintsOf(app, front), b, Removed(app, front, b), k);
      BestGrantIsBest(b, k);
      HintNamed(app, front, b, k);
      HintCovers(app, front, b, k);
    }
  }

  lemma HintNamed<V>(app: App<V>, front: seq<Batch>, b: Batch, k: Key)
    requires k in HintsOf(app, front) ==>
               exists i :: 0 <= i < |front| && HintFrom(app, front, i, k, HintsOf(app, front)[k])
    ensures var log, hints := front + [b], HintsOf(app, front + [b]);
            k in hints ==> exists i :: 0 <= i < |log| && HintFrom(app, log, i, k, hints[k])
  {
    var log, hints := front + [b], HintsOf(app, front + [b]);
    StateStep(app, front, b);
    HintStep(HintsOf(app, front), b, Removed(app, front, b), k);
    BestGrantIsBest(b, k);
    if k in hints {
      if Get(HintsOf(app, front), k) == Some(hints[k]) {
        var i :| 0 <= i < |front| && HintFrom(app, front, i, k, hints[k]);
        StaysFromAppend(app, front, b, i, k);
        assert HintFrom(app, log, i, k, hints[k]);
      } else {
        StaysFromAppend(app, front, b, |front|, k);
        assert HintFrom(app, log, |front|, k, hints[k]);
      }
    }
  }

  lemma HintCovers<V>(app: App<V>, front: seq<Batch>, b: Batch, k: Key)
    requires forall i, w :: 0 <= i < |front| && StaysFrom(app, front, i, k) && Approves(front[i], k, w) ==>
               k in HintsOf(app, front) && w <= HintsOf(app, front)[k].weight
    ensures var log, hints := front + [b], HintsOf(app, front + [b]);
            forall i, w :: 0 <= i < |log| && StaysFrom(app, log, i, k) && Approves(log[i], k, w) ==>
              k in hints && w <= hints[k].weight
  {
    var log, hints := front + [b], HintsOf(app, front + [b]);
    StateStep(app, front, b);
    HintStep(HintsOf(app, front), b, Removed(app, front, b), k);
    BestGrantIsBest(b, k);
    forall i, w | 0 <= i < |log| && StaysFrom(app, log, i, k) && Approves(log[i], k, w)
      ensures k in hints && w <= hints[k].weight
    {
      StaysFromAppend(app, front, b, i, k);
      if i < |front| {
        assert log[i] == front[i];
        assert k in HintsOf(app, front) && w <= HintsOf(app, front)[k].weight;
      }
    }
  }

  // An approval for more than a writer stands at is not in vain: what the writer appends next cites
  // that approval, or a stronger one.
  lemma ApprovalIsCited<V>(app: App<V>, log: seq<Batch>, k: Key, i: nat, w: int)
    requires i < |log| && StaysFrom(app, log, i, k) && Approves(log[i], k, w)
    requires w > LastWeight(log, k, |log|)
    ensures exists j, v :: 0 <= j < |log| && w <= v && StaysFrom(app, log, j, k) && Approves(log[j], k, v) &&
                           CitationOf(app, log, k) == Some(HeadOf(log[j]))
  {
    HintsExactly(app, log, k);
    StandingIsLast(app, log, k);
    var h := HintsOf(app, log)[k];
    var j :| 0 <= j < |log| && HintFrom(app, log, j, k, h);
    assert Approves(log[j], k, h.weight);
  }

  // And nothing else is cited: whatever a writer cites approved it for more than it stood at.
  lemma CitedWasApproved<V>(app: App<V>, log: seq<Batch>, k: Key)
    ensures CitationOf(app, log, k).Some? ==>
              exists j, v :: 0 <= j < |log| && v > LastWeight(log, k, |log|) && StaysFrom(app, log, j, k) &&
                             Approves(log[j], k, v) && CitationOf(app, log, k) == Some(HeadOf(log[j]))
  {
    HintsExactly(app, log, k);
    StandingIsLast(app, log, k);
    if CitationOf(app, log, k).Some? {
      var h := HintsOf(app, log)[k];
      var j :| 0 <= j < |log| && HintFrom(app, log, j, k, h);
      assert Approves(log[j], k, h.weight);
    }
  }
}
