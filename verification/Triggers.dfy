// lib/triggers.js: writers waiting on a node of another writer, in dense lists with back-indexes.
module Triggers {
  import opened Batches

  class Writer {
    var waiting: Entry?
    var bumps: nat        // how often the writer was woken

    // Wakes the writer.
    method Bump()
      modifies this
      ensures waiting == null && bumps == old(bumps) + 1
    {
      waiting := null;
      bumps := bumps + 1;
    }
  }

  class Entry {
    var index: nat
    const id: Key
    var writer: Writer?   // null once the entry is removed
    var length: nat

    constructor (index: nat, id: Key, writer: Writer, length: nat)
      ensures this.index == index && this.id == id && this.writer == writer && this.length == length
    {
      this.index, this.id, this.writer, this.length := index, id, writer, length;
    }
  }

  // what a writer waits for
  datatype Wait = Wait(id: Key, length: nat)

  lemma DistinctAppend<T>(s: seq<T>, x: T)
    ensures Elems(s + [x]) == Elems(s) + {x}
    ensures Distinct(s) && x !in Elems(s) ==> Distinct(s + [x])
  {
    ElemsAppend(s, x);
  }

  lemma WithoutAppend<K, V>(m: map<K, V>, s: seq<K>, x: K)
    ensures m - Elems(s) - {x} == m - Elems(s + [x])
  {
    ElemsAppend(s, x);
  }

  // The writers in bump are gone, and left are those of the due ones that are not.
  ghost predicate Gone(all: map<Writer, Entry>, waits: map<Writer, Wait>, due: set<Writer>, bump: seq<Writer>,
                       live: map<Writer, Entry>, now: map<Writer, Wait>, left: set<Writer>)
  {
    && Distinct(bump)
    && live == all - Elems(bump) && live.Values <= all.Values && now == waits - Elems(bump)
    && Elems(bump) + left == due && Elems(bump) !! left
  }

  lemma GoneToo(all: map<Writer, Entry>, waits: map<Writer, Wait>, due: set<Writer>, bump: seq<Writer>,
                live: map<Writer, Entry>, now: map<Writer, Wait>, left: set<Writer>, w: Writer)
    requires Gone(all, waits, due, bump, live, now, left) && w in left
    ensures Gone(all, waits, due, bump + [w], live - {w}, now - {w}, left - {w})
  {
    DistinctAppend(bump, w);
    WithoutAppend(all, bump, w);
    WithoutAppend(waits, bump, w);
  }

  // The last element takes the place of the removed one.
  function SwapRemoved<T>(s: seq<T>, i: nat): seq<T>
    requires i < |s|
  {
    var front := s[..|s| - 1];
    if i == |s| - 1 then front else front[i := s[|s| - 1]]
  }

  class Triggers {
    var waiting: map<Key, seq<Entry>>
    ghost var live: map<Writer, Entry>   // what every waiting writer waits on

    // the list of a writer, or none
    ghost function Listed(id: Key): seq<Entry>
      reads this
    {
      if id in waiting then waiting[id] else []
    }

    // The entry stands where its back-index says.
    ghost predicate Placed(e: Entry)
      reads this, e
    {
      e.id in waiting && e.index < |waiting[e.id]| && waiting[e.id][e.index] == e
    }

    // The slot holds the live entry of some writer.
    ghost predicate Holds(id: Key, i: nat)
      requires id in waiting && i < |waiting[id]|
      reads this, live.Values
    {
      var e := waiting[id][i];
      e in live.Values && e.index == i && e.id == id && e.writer != null && e.writer in live && live[e.writer] == e
    }

    // The lists are nonempty, dense and indexed, and hold exactly the live entries: at most one
    // for each writer.
    ghost predicate Valid()
      reads this, live.Values
    {
      && (forall w :: w in live ==> live[w].writer == w && Placed(live[w]))
      && (forall id :: id in waiting ==> waiting[id] != [])
      && (forall id, i :: id in waiting && 0 <= i < |waiting[id]| ==> Holds(id, i))
    }

    // Every writer knows its own entry.
    ghost predicate Tracked()
      reads this, live.Keys
    {
      forall w :: w in live ==> w.waiting == live[w]
    }

    // What every waiting writer waits for.
    ghost function Waits(): map<Writer, Wait>
      reads this, live.Values
    {
      map w | w in live :: Wait(live[w].id, live[w].length)
    }

    twostate lemma WaitsWithout(w: Writer)
      requires live == old(live) - {w}
      requires forall x :: x in live ==> live[x].length == old(live[x].length)
      ensures Waits() == old(Waits()) - {w}
    {
    }

    twostate lemma WaitsWith(w: Writer)
      requires w in live && live == old(live)[w := live[w]]
      requires forall x :: x in old(live) && x != w ==> live[x].length == old(live[x].length)
      ensures Waits() == old(Waits())[w := Wait(live[w].id, live[w].length)]
    {
    }

    constructor ()
      ensures Valid() && Tracked() && live == map[]
    {
      waiting := map[];
      live := map[];
    }

    // Swap-removes a live entry: the last one of its list takes its place.
    method RemoveEntry(entry: Entry)
      requires Valid() && entry.writer != null && entry.writer in live && live[entry.writer] == entry
      modifies this, live.Values
      ensures Valid() && entry.writer == null
      ensures live == old(live) - {old(entry.writer)}
      ensures forall e :: e in old(live).Values ==> e.length == old(e.length) && (e != entry ==> e.writer == old(e.writer))
      ensures old(entry.index) < |old(waiting[entry.id])|
      ensures Listed(entry.id) == SwapRemoved(old(Listed(entry.id)), old(entry.index))
    {
      var w := waiting[entry.id];
      var head := w[|w| - 1];
      assert Holds(entry.id, |w| - 1) && Holds(entry.id, entry.index);
      w := w[..|w| - 1];
      if head != entry {
        w := w[entry.index := head];
        head.index := entry.index;
      }
      live := live - {entry.writer};
      entry.writer := null;
      waiting := if w == [] then waiting - {entry.id} else waiting[entry.id := w];
      RemovedPlaced(entry);
      RemovedHolds(entry);
    }

    // The entry is gone, and the last one of its list stands in its place.
    twostate predicate Removed(entry: Entry, entries: set<Entry>)
      requires old(Valid()) && entries == old(live).Values && old(entry.writer) != null
      requires old(entry.writer) in old(live) && old(live)[old(entry.writer)] == entry
      reads this, entries
    {
      var list, i := old(waiting)[entry.id], old(entry.index);
      var rest := SwapRemoved(list, i);
      && live == old(live) - {old(entry.writer)}
      && waiting == (if rest == [] then old(waiting) - {entry.id} else old(waiting)[entry.id := rest])
      && forall e :: e in entries && e != entry ==>
           e.writer == old(e.writer) && e.index == if e == list[|list| - 1] then i else old(e.index)
    }

    twostate lemma RemovedPlaced(entry: Entry)
      requires old(Valid()) && old(entry.writer) != null
      requires old(entry.writer) in old(live) && old(live)[old(entry.writer)] == entry
      requires Removed(entry, old(live).Values)
      ensures forall x :: x in live ==> live[x].writer == x && Placed(live[x])
    {
      assert old(Placed(entry)) && old(Holds(entry.id, |waiting[entry.id]| - 1));
      forall x | x in live
        ensures live[x].writer == x && Placed(live[x])
      {
        assert live[x] in old(live).Values && live[x] != entry;
        assert old(Placed(live[x]));
      }
    }

    twostate lemma RemovedHolds(entry: Entry)
      requires old(Valid()) && old(entry.writer) != null
      requires old(entry.writer) in old(live) && old(live)[old(entry.writer)] == entry
      requires Removed(entry, old(live).Values)
      ensures forall id, i :: id in waiting && 0 <= i < |waiting[id]| ==> Holds(id, i)
    {
      assert old(Placed(entry)) && old(Holds(entry.id, |waiting[entry.id]| - 1));
      forall id, i | id in waiting && 0 <= i < |waiting[id]|
        ensures Holds(id, i)
      {
        var e := waiting[id][i];
        assert old(Holds(id, i)) && e in old(live).Values && e != entry;
        assert live[e.writer] == e;
      }
    }

    // Registers a writer: it keeps one entry, and drops the one it had for another writer.
    method Add(id: Key, length: nat, writer: Writer) returns (entry: Entry)
      requires Valid() && Tracked()
      requires writer !in live ==> writer.waiting == null || writer.waiting.writer == null
      modifies this, live.Values
      ensures Valid() && live == old(live)[writer := entry]
      ensures entry.id == id && entry.length == length && entry.writer == writer
      ensures fresh(entry) || entry in old(live).Values
      ensures forall w :: w in old(live) && w != writer ==> live[w].length == old(live[w].length)
    {
      if writer.waiting != null && writer.waiting.id != id {
        Remove(writer.waiting);
      }
      if id in waiting {
        for i := 0 to |waiting[id]|
          invariant forall j :: 0 <= j < i ==> waiting[id][j].writer != writer
        {
          entry := waiting[id][i];
          assert Holds(id, i);
          if entry.writer == writer {
            label Found:
            entry.length := length;
            forall k, j | k in waiting && 0 <= j < |waiting[k]| ensures Holds(k, j) {
              assert old@Found(Holds(k, j));
            }
            return;
          }
        }
      }
      entry := Enlist(id, length, writer);
    }

    // Adds an entry for a writer that has none.
    method Enlist(id: Key, length: nat, writer: Writer) returns (entry: Entry)
      requires Valid() && writer !in live
      modifies this
      ensures Valid() && fresh(entry) && live == old(live)[writer := entry]
      ensures entry.id == id && entry.length == length && entry.writer == writer
    {
      var w := if id in waiting then waiting[id] else [];
      entry := new Entry(|w|, id, writer, length);
      waiting := waiting[id := w + [entry]];
      live := live[writer := entry];
      forall x | x in live
        ensures live[x].writer == x && Placed(live[x])
      {
        assert x != writer ==> old(Placed(live[x]));
      }
      forall k, i | k in waiting && 0 <= i < |waiting[k]|
        ensures Holds(k, i)
      {
        var e := waiting[k][i];
        assert !(k == id && i == |w|) ==> old(Holds(k, i));
        assert e.writer in live && live[e.writer] == e;
      }
    }

    // Drops an entry; one that is already removed is ignored.
    method Remove(entry: Entry)
      requires Valid() && (entry.writer != null ==> entry.writer in live && live[entry.writer] == entry)
      modifies this, live.Values
      ensures Valid() && entry.writer == null
      ensures live == if old(entry.writer) == null then old(live) else old(live) - {old(entry.writer)}
      ensures forall e :: e in old(live).Values ==> e.length == old(e.length) && (e != entry ==> e.writer == old(e.writer))
    {
      if entry.writer == null {
        return;
      }
      assert Placed(entry);
      if entry.id in waiting {
        RemoveEntry(entry);
      }
    }

    // The writers waiting on id at length or below.
    ghost function Due(id: Key, length: nat): set<Writer>
      reads this, live.Values
    {
      set w | w in live && live[w].id == id && live[w].length <= length
    }

    // From slot i on, every entry of the list waits for more.
    ghost predicate Quiet(id: Key, i: nat, length: nat)
      reads this, live.Values, Listed(id)
    {
      i <= |Listed(id)| && forall e :: e in Listed(id)[i..] ==> e in live.Values && e.length > length
    }

    // Removes the entry at a slot if it is due.
    method Examine(id: Key, i: nat, length: nat) returns (due: Writer?)
      requires Valid() && id in waiting && Quiet(id, i + 1, length)
      modifies this, live.Values
      ensures Valid() && Quiet(id, i, length)
      ensures due == null ==> live == old(live) && Waits() == old(Waits())
      ensures due != null ==> due in old(Due(id, length)) && live == old(live) - {due}
      ensures due != null ==> Waits() == old(Waits()) - {due}
      ensures Due(id, length) == if due == null then old(Due(id, length)) else old(Due(id, length)) - {due}
    {
      var entry := waiting[id][i];
      ghost var list := Listed(id);
      assert Holds(id, i);
      assert list[i..] == [entry] + list[i + 1..];
      if entry.length > length {
        return null;
      }
      due := entry.writer;
      RemoveEntry(entry);
      WaitsWithout(due);
      SweptStep(list, i);
      forall e | e in list[i + 1..]
        ensures e.length > length
      {
      }
      StillLive(id, i);
    }

    lemma StillLive(id: Key, i: nat)
      requires Valid() && i <= |Listed(id)|
      ensures forall e :: e in Listed(id)[i..] ==> e in live.Values
    {
      forall j | i <= j < |Listed(id)|
        ensures Listed(id)[j] in live.Values
      {
        assert Holds(id, j);
      }
    }

    // What holds while the list is walked: the writers collected so far are gone, and with those
    // still due below slot i they make up the due writers.
    ghost predicate Collecting(all: map<Writer, Entry>, waits: map<Writer, Wait>, due: set<Writer>,
                              bump: seq<Writer>, id: Key, i: nat, length: nat)
      reads this, live.Values, Listed(id)
    {
      Quiet(id, i, length) && Gone(all, waits, due, bump, live, Waits(), Due(id, length))
    }

    method CollectOne(id: Key, i: nat, length: nat, bump: seq<Writer>,
                      ghost all: map<Writer, Entry>, ghost waits: map<Writer, Wait>, ghost due: set<Writer>)
      returns (next: seq<Writer>)
      requires Valid() && i < |Listed(id)| && Collecting(all, waits, due, bump, id, i + 1, length)
      modifies this, live.Values
      ensures Valid() && Collecting(all, waits, due, next, id, i, length)
    {
      var w := Examine(id, i, length);
      next := bump;
      if w != null {
        GoneToo(all, waits, due, bump, old(live), old(Waits()), old(Due(id, length)), w);
        next := bump + [w];
      }
    }

    // Removes every due entry of id, walking the list from its end, and collects the writers.
    method Collect(id: Key, length: nat) returns (bump: seq<Writer>)
      requires Valid() && id in waiting
      modifies this, live.Values
      ensures Valid()
      ensures Distinct(bump)
      ensures Elems(bump) == old(Due(id, length))
      ensures live == old(live) - Elems(bump) && Waits() == old(Waits()) - Elems(bump)
    {
      bump := [];
      var i := |waiting[id]|;
      while i > 0
        invariant 0 <= i && Valid() && Collecting(old(live), old(Waits()), old(Due(id, length)), bump, id, i, length)
        decreases i
      {
        i := i - 1;
        bump := CollectOne(id, i, length, bump, old(live), old(Waits()), old(Due(id, length)));
      }
      NoneLeft(id, length);
    }

    // When every listed entry waits for more, nobody is due.
    lemma NoneLeft(id: Key, length: nat)
      requires Valid() && Quiet(id, 0, length)
      ensures Due(id, length) == {}
    {
      forall w | w in live
        ensures live[w].id == id ==> live[w].length > length
      {
        assert Placed(live[w]);
        assert live[w].id == id ==> Listed(id)[live[w].index] == live[w];
      }
    }

    // Wakes one writer, which may register again at once.
    method Wake(w: Writer, again: map<Writer, Wait>)
      requires Valid() && Tracked() && w !in live
      modifies this, live.Values, w
      ensures Valid() && Tracked() && w.bumps == old(w.bumps) + 1
      ensures Waits() == if w in again then old(Waits())[w := again[w]] else old(Waits())
      ensures w !in again ==> w.waiting == null
      ensures live.Keys <= old(live.Keys) + {w}
      ensures forall e :: e in live.Values ==> e in old(live).Values || fresh(e)
    {
      w.Bump();
      if w in again {
        w.waiting := Add(again[w].id, again[w].length, w);
        WaitsWith(w);
      }
    }

    // Wakes exactly the due writers, once each. Those that register again when woken wait for what
    // they asked for, even if it is the same id at a length that is due as well.
    method Trigger(id: Key, length: nat, again: map<Writer, Wait>) returns (ghost woken: seq<Writer>)
      requires Valid() && Tracked()
      modifies this, live.Values, live.Keys
      ensures Valid() && Tracked()
      ensures Distinct(woken) && Elems(woken) == old(Due(id, length))
      ensures forall w :: w in old(live) ==> w.bumps == old(w.bumps) + if w in Elems(woken) then 1 else 0
      ensures Waits() == old(Waits()) - Elems(woken) + Rejoined(Elems(woken), again)
      ensures forall w :: w in Elems(woken) && w !in again ==> w.waiting == null
    {
      woken := [];
      if id !in waiting {
        return;
      }
      var bump := Collect(id, length);
      woken := bump;
      WakeAll(bump, again);
    }

    method WakeAll(bump: seq<Writer>, again: map<Writer, Wait>)
      requires Valid() && Tracked() && Distinct(bump) && Elems(bump) !! live.Keys
      modifies this, live.Values, Elems(bump)
      ensures Valid() && Tracked() && Waits() == old(Waits()) + Rejoined(Elems(bump), again)
      ensures forall w :: w in Elems(bump) ==> w.bumps == old(w.bumps) + 1 && (w !in again ==> w.waiting == null)
    {
      var todo := bump;
      ghost var done := {};
      while todo != []
        invariant Distinct(todo) && done !! Elems(todo) && done + Elems(todo) == Elems(bump)
        invariant Valid() && Tracked() && Waits() == old(Waits()) + Rejoined(done, again) && Elems(todo) !! live.Keys
        invariant forall e :: e in live.Values ==> e in old(live).Values || fresh(e)
        invariant forall w :: w in done ==> w.bumps == old(w.bumps) + 1 && (w !in again ==> w.waiting == null)
        invariant forall w :: w in Elems(todo) ==> w.bumps == old(w.bumps)
        decreases |todo|
      {
        var writer := todo[0];
        DistinctTail(todo);
        RejoinedAdd(old(Waits()), done, writer, again);
        Wake(writer, again);
        todo, done := todo[1..], done + {writer};
      }
      EmptyElems(todo);
    }
  }

  // what the writers in done register for again
  ghost function Rejoined(done: set<Writer>, again: map<Writer, Wait>): map<Writer, Wait> {
    map w | w in done && w in again :: again[w]
  }

  lemma RejoinedAdd(before: map<Writer, Wait>, done: set<Writer>, w: Writer, again: map<Writer, Wait>)
    ensures var now := before + Rejoined(done, again);
            before + Rejoined(done + {w}, again) == if w in again then now[w := again[w]] else now
  {
  }

  lemma SweptStep<T>(s: seq<T>, i: nat)
    requires i < |s|
    ensures i <= |SwapRemoved(s, i)| && SwapRemoved(s, i)[..i] == s[..i]
    ensures forall x :: x in SwapRemoved(s, i)[i..] ==> x in s[i + 1..]
  {
    forall j | i <= j < |s| - 1
      ensures SwapRemoved(s, i)[j] in s[i + 1..]
    {
      assert SwapRemoved(s, i)[j] == if j == i then s[i + 1..][|s| - i - 2] else s[i + 1..][j - i - 1];
    }
  }
}
