// The system bee of lib/system.js as it runs: in-memory fields over a chain of snapshots.
module Systembee {
  import opened Batches
  import opened Gate
  import opened System

  // the flushed records with the unflushed updates on top: a length only ever advances
  function Merged(records: map<Key, nat>, updates: map<Key, nat>): map<Key, nat> {
    map k | k in records.Keys + updates.Keys ::
      if k in records && (k !in updates || updates[k] <= records[k]) then records[k] else updates[k]
  }

  class Systembee<V> {
    const p: Params<V>
    var bee: Bee<V>
    var heads: seq<Link>
    var hash: Option<nat>
    var timestamp: int
    var flushes: nat
    var view: V
    var updates: map<Key, nat>

    constructor (p: Params<V>)
      ensures this.p == p && Synced() && bee == Empty
    {
      this.p := p;
      bee := Empty;
      heads, hash, timestamp, flushes, view, updates := [], None, 0, 0, p.blank, map[];
    }

    function Records(): map<Key, nat>
      reads this
    {
      if bee.Empty? then map[] else bee.info.lengths
    }

    // everything held in memory
    ghost function Current(): Info<V>
      reads this
    {
      Info(heads, hash, timestamp, Merged(Records(), updates), flushes, view)
    }

    // Nothing is pending and the state is what the applied log folds to.
    ghost predicate Synced()
      reads this
    {
      && updates == map[]
      && bee == Snapshot(p, Log(bee))
      && Current() == InfoOf(p, Log(bee))
    }

    // Removes the heads the node links.
    method RemoveLinked(node: Node)
      modifies this`heads
      ensures heads == Unlinked(old(heads), node)
    {
      var i := 0;
      while i < |heads|
        invariant i <= |heads|
        invariant heads[..i] + Unlinked(heads[i..], node) == Unlinked(old(heads), node)
        decreases |heads| - i
      {
        SpliceStep(heads, i, node);
        if IsLinking(node, heads[i]) {
          heads := heads[..i] + heads[i + 1..];
        } else {
          i := i + 1;
        }
      }
      assert heads[..i] == heads && heads[i..] == [];
    }

    // The node replaces the heads it links.
    method AddNode(node: Node)
      modifies this
      ensures bee == old(bee)
      ensures Current() == System.AddNode(p, old(Current()), node)
    {
      RemoveLinked(node);
      heads := heads + [Link(node.key, node.length)];
      if node.timestamp > timestamp {
        timestamp := node.timestamp;
      }
      hash := Some(p.advance(hash, node.key, node.length, node.weight));
      Update(node.key, node.length);
    }

    method Update(key: Key, length: nat)
      modifies this`updates
      ensures var m := Merged(Records(), old(updates));
              Merged(Records(), updates) == m[key := if key in m && length <= m[key] then m[key] else length]
    {
      if key !in updates {
        updates := updates[key := 0];
      }
      if length > updates[key] {
        updates := updates[key := length];
      }
    }

    // Writes the pending updates as the next snapshot.
    method Flush(batch: Batch, view: V)
      modifies this
      ensures bee == Bee.Flush(old(bee), batch, Current()) && updates == map[]
      ensures Current() == old(Current()).(flushes := old(flushes) + 1, view := view)
    {
      flushes := flushes + 1;
      this.view := view;
      var info := Info(heads, hash, timestamp, Merged(Records(), updates), flushes, view);
      bee := Bee.Flush(bee, batch, info);
      updates := map[];
    }

    // Rewinds to an earlier snapshot and reloads everything from it.
    method Undo(head: Bee<V>) returns (v: V)
      requires head == Snapshot(p, Log(head))
      modifies this
      ensures bee == head && Synced() && v == view
    {
      bee := head;
      updates := map[];
      if bee.Empty? {
        heads, hash, timestamp, flushes, view := [], None, 0, 0, p.blank;
      } else {
        heads, hash, timestamp := bee.info.heads, bee.info.hash, bee.info.timestamp;
        flushes, view := bee.info.flushes, bee.info.view;
      }
      v := view;
    }

    // Whether a node is applied: its writer's head decides, or else its writer's record.
    method Has(link: Link) returns (has: bool)
      requires Synced() && CausalLog(Log(bee))
      ensures has <==> HasNode(Elems(Log(bee)), link)
    {
      ghost var log := Log(bee);
      HeadsAreFrontier(p, log);
      RecordsExact(p, log);
      assert Merged(Records(), updates) == Records();
      RecordAnswers(log, Records(), link);
      for i := 0 to |heads| {
        if heads[i].key == link.key {
          HeadIsLatest(log, heads, Records(), heads[i]);
          return heads[i].length >= link.length;
        }
      }
      return link.key in Records() && Records()[link.key] >= link.length;
    }
  }

  lemma {:induction false} UnlinkedFirst(heads: seq<Link>, node: Node)
    requires heads != []
    ensures Unlinked(heads, node) == (if IsLinking(node, heads[0]) then [] else [heads[0]]) + Unlinked(heads[1..], node)
    decreases |heads|
  {
    var front, h := heads[..|heads| - 1], heads[|heads| - 1];
    assert heads == front + [h];
    UnlinkedAppend(front, h, node);
    if |heads| > 1 {
      UnlinkedFirst(front, node);
      assert heads[1..] == front[1..] + [h];
      UnlinkedAppend(front[1..], h, node);
    }
  }

  // One step of the splicing loop over the heads.
  lemma SpliceStep(heads: seq<Link>, i: nat, node: Node)
    requires i < |heads|
    ensures var after := heads[..i] + heads[i + 1..];
            IsLinking(node, heads[i]) ==>
              after[..i] + Unlinked(after[i..], node) == heads[..i] + Unlinked(heads[i..], node)
    ensures !IsLinking(node, heads[i]) ==>
              heads[..i + 1] + Unlinked(heads[i + 1..], node) == heads[..i] + Unlinked(heads[i..], node)
  {
    UnlinkedFirst(heads[i..], node);
    assert heads[i..][1..] == heads[i + 1..];
    var after := heads[..i] + heads[i + 1..];
    assert after[..i] == heads[..i] && after[i..] == heads[i + 1..];
    assert heads[..i + 1] == heads[..i] + [heads[i]];
  }
}
