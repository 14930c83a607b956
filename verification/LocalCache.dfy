/**
 The per-node result cache of a search context: two slots that grow to four, least-recently-used replacement, and
 admission on the second use.
 */
module LocalCache {
  import opened Bitmaps

  const SEEN_GROWTH_MISSES: nat := 8
  const GROWTH_PRESSURE: nat := 2

  datatype Entry<V> = Empty | Entry(key: Option<V>, bits: set<nat>)

  datatype Seen<V> = Seen(keys: seq<Option<Option<V>>>, next: nat)

  ghost predicate Equivalence<V(!new)>(same: (V, V) -> bool) {
    && (forall x :: same(x, x))
    && (forall x, y :: same(x, y) ==> same(y, x))
    && (forall x, y, z {:trigger Chain(x, y, z)} :: Chain(x, y, z) && same(x, y) && same(y, z) ==> same(x, z))
  }

  /** Names the three values of a transitivity step. */
  ghost predicate Chain<V>(x: V, y: V, z: V) {
    true
  }

  predicate SameKey<V>(same: (V, V) -> bool, a: Option<V>, b: Option<V>) {
    if a.Some? && b.Some? then same(a.value, b.value) else a.None? && b.None?
  }

  /** How often a key has been missed. */
  function Misses<V>(same: (V, V) -> bool, log: seq<Option<V>>, key: Option<V>): nat {
    if log == [] then 0
    else Misses(same, log[..|log| - 1], key) + if SameKey(same, log[|log| - 1], key) then 1 else 0
  }

  lemma {:induction false} MissesSame<V(!new)>(same: (V, V) -> bool, log: seq<Option<V>>, a: Option<V>, b: Option<V>)
    requires Equivalence(same) && SameKey(same, a, b)
    ensures Misses(same, log, a) == Misses(same, log, b)
  {
    if log != [] {
      var last := log[|log| - 1];
      MissesSame(same, log[..|log| - 1], a, b);
      if last.Some? && a.Some? {
        assert Chain(last.value, a.value, b.value) && Chain(last.value, b.value, a.value);
        assert same(b.value, a.value);
      }
    }
  }

  /**
   The bookkeeping identifies the least recently used slot in both modes: with two slots `next` is the older one, with
   four the order of `used` is the order of the last uses.
   */
  ghost predicate InOrder<V>(entries: seq<Entry<V>>, used: seq<nat>, clock: nat, next: nat, lastUse: seq<nat>,
                             time: nat) {
    && (|entries| == 2 || |entries| == 4) && |used| == 4 && |lastUse| == 4 && next < 2
    && (forall i :: 0 <= i < 4 ==> lastUse[i] <= time && used[i] <= clock)
    && (|entries| == 2 && entries[next].Entry? ==> entries[1 - next].Entry? && lastUse[next] < lastUse[1 - next])
    && (|entries| == 4 ==> entries[0].Entry? && entries[1].Entry?)
    && (|entries| == 4 ==> forall i, j :: 0 <= i < j < 4 && entries[i].Entry? && entries[j].Entry? ==>
          (used[i] < used[j] && lastUse[i] < lastUse[j]) || (used[j] < used[i] && lastUse[j] < lastUse[i]))
  }

  /** The slots of the larger cache. */
  function Padded<V>(entries: seq<Entry<V>>, capacity: nat): seq<Entry<V>>
    requires |entries| <= capacity
  {
    entries + seq(capacity - |entries|, _ => Empty)
  }

  /** A free slot; otherwise the slot whose last use is the oldest. */
  ghost predicate Victim<V>(entries: seq<Entry<V>>, lastUse: seq<nat>, index: nat) {
    && |entries| <= |lastUse| && index < |entries|
    && (entries[index].Entry? ==>
          forall k :: 0 <= k < |entries| ==> entries[k].Entry? && (k != index ==> lastUse[index] < lastUse[k]))
  }

  class ValueBitmapCache<V(!new)> {
    const same: (V, V) -> bool
    const result: Option<V> -> set<nat>
    var entries: seq<Entry<V>>
    var used: seq<nat>
    var clock: nat
    var next: nat
    var pressure: nat
    var misses: nat
    var seen: Option<Seen<V>>

    /** When each slot was last used, and every key whose admission was decided. */
    ghost var lastUse: seq<nat>
    ghost var time: nat
    ghost var log: seq<Option<V>>

    /** Queries with the same key have the same uncached result. */
    ghost predicate Lawful() {
      Equivalence(same) && forall a, b :: SameKey(same, a, b) ==> result(a) == result(b)
    }

    ghost predicate Transparent()
      reads this`entries
    {
      forall i :: 0 <= i < |entries| && entries[i].Entry? ==> entries[i].bits == result(entries[i].key)
    }

    ghost predicate KeysDistinct()
      reads this`entries
    {
      forall i, j :: 0 <= i < j < |entries| && entries[i].Entry? && entries[j].Entry? ==>
        !SameKey(same, entries[i].key, entries[j].key)
    }

    ghost predicate Ordered()
      reads this`entries, this`used, this`clock, this`next, this`pressure, this`lastUse, this`time
    {
      InOrder(entries, used, clock, next, lastUse, time) && (|entries| == 2 ==> pressure < GROWTH_PRESSURE)
    }

    /** Retained keys have been missed twice, remembered ones once. */
    ghost predicate Admitted()
      reads this`entries, this`seen, this`log
    {
      && (forall i :: 0 <= i < |entries| && entries[i].Entry? ==> Misses(same, log, entries[i].key) >= 2)
      && (seen.Some? ==>
            && (|seen.value.keys| == 2 || |seen.value.keys| == 4) && seen.value.next < |seen.value.keys|
            && forall i :: 0 <= i < |seen.value.keys| && seen.value.keys[i].Some? ==>
                 Misses(same, log, seen.value.keys[i].value) >= 1)
    }

    ghost predicate Valid()
      reads this
    {
      Lawful() && Transparent() && KeysDistinct() && Ordered() && Admitted()
    }

    constructor (same: (V, V) -> bool, result: Option<V> -> set<nat>)
      requires Equivalence(same) && forall a, b :: SameKey(same, a, b) ==> result(a) == result(b)
      ensures Valid() && entries == [Empty, Empty] && log == [] && this.same == same && this.result == result
    {
      this.same, this.result := same, result;
      entries, used, clock, next, pressure, misses := [Empty, Empty], [0, 0, 0, 0], 0, 0, 0, 0;
      seen, lastUse, time, log := None, [0, 0, 0, 0], 0, [];
    }

    ghost predicate Holds(key: Option<V>)
      reads this`entries
    {
      exists i :: 0 <= i < |entries| && entries[i].Entry? && SameKey(same, entries[i].key, key)
    }

    method Find(value: Option<V>) returns (index: Option<nat>)
      requires Valid()
      ensures index.Some? <==> Holds(value)
      ensures index.Some? ==>
                index.value < |entries| && entries[index.value].Entry? && entries[index.value].bits == result(value)
      ensures index.Some? ==> SameKey(same, entries[index.value].key, value)
    {
      var i := 0;
      while i < |entries|
        invariant 0 <= i <= |entries|
        invariant forall j :: 0 <= j < i && entries[j].Entry? ==> !SameKey(same, entries[j].key, value)
      {
        if entries[i].Entry? && SameKey(same, entries[i].key, value) {
          return Some(i);
        }
        i := i + 1;
      }
      index := None;
    }

    /** An observational lookup: a hit is the uncached result. */
    method Peek(value: Option<V>) returns (bits: Option<set<nat>>)
      requires Valid()
      ensures bits.Some? <==> Holds(value)
      ensures bits.Some? ==> bits.value == result(value)
    {
      var index := Find(value);
      bits := if index.Some? then Some(entries[index.value].bits) else None;
    }

    /** A hit is the uncached result and the latest use of its slot; a miss changes nothing. */
    method Lookup(value: Option<V>) returns (bits: Option<set<nat>>)
      requires Valid()
      modifies this`used, this`clock, this`next, this`lastUse, this`time
      ensures Valid() && (bits.Some? <==> Holds(value))
      ensures bits.Some? ==> bits.value == result(value)
      ensures bits.None? ==> lastUse == old(lastUse)
      ensures bits.Some? ==> exists i :: 0 <= i < |entries| && entries[i].Entry? && SameKey(same, entries[i].key, value)
                                        && old(time) < time && lastUse == old(lastUse)[i := time]
    {
      var index := Find(value);
      if index.None? {
        return None;
      }
      Touch(index.value);
      bits := Some(entries[index.value].bits);
    }

    method Touch(i: nat)
      requires Ordered() && i < |entries| && entries[i].Entry?
      modifies this`used, this`clock, this`next, this`lastUse, this`time
      ensures Ordered() && old(time) < time && lastUse == old(lastUse)[i := time]
    {
      if |entries| == 2 {
        next := 1 - i;
      } else {
        clock := clock + 1;
        used := used[i := clock];
      }
      time := time + 1;
      lastUse := lastUse[i := time];
    }

    /** The remembered position of a key. */
    method FindSeen(value: Option<V>) returns (index: Option<nat>)
      requires seen.Some?
      ensures index.Some? ==> index.value < |seen.value.keys| && seen.value.keys[index.value].Some?
                              && SameKey(same, seen.value.keys[index.value].value, value)
      ensures index.None? ==> !Remembers(value)
    {
      var i := 0;
      while i < |seen.value.keys|
        invariant 0 <= i <= |seen.value.keys|
        invariant forall j :: 0 <= j < i && seen.value.keys[j].Some? ==> !SameKey(same, seen.value.keys[j].value, value)
      {
        if seen.value.keys[i].Some? && SameKey(same, seen.value.keys[i].value, value) {
          return Some(i);
        }
        i := i + 1;
      }
      index := None;
    }

    ghost predicate Remembers(value: Option<V>)
      reads this`seen
    {
      seen.Some?
        && exists i :: 0 <= i < |seen.value.keys| && seen.value.keys[i].Some?
                       && SameKey(same, seen.value.keys[i].value, value)
    }

    /** The key was remembered at a position, which is free now; an empty memory is dropped. */
    ghost predicate Forgotten(before: Option<Seen<V>>, now: Option<Seen<V>>, i: nat, value: Option<V>) {
      && before.Some? && i < |before.value.keys|
      && before.value.keys[i].Some? && SameKey(same, before.value.keys[i].value, value)
      && var left := before.value.keys[i := None];
         && (now.None? <==> forall k :: 0 <= k < |left| ==> left[k].None?)
         && (now.Some? ==> now.value == Seen(left, before.value.next))
    }

    /** A missed key is admitted exactly when an earlier miss of it is still remembered. */
    method Admit(value: Option<V>) returns (admitted: bool)
      requires Valid()
      modifies this`seen, this`misses, this`log
      ensures Valid() && log == old(log) + [value]
      ensures admitted <==> old(Remembers(value))
      ensures admitted ==> Misses(same, log, value) >= 2 && exists i :: Forgotten(old(seen), seen, i, value)
      ensures !admitted ==> Remembers(value)
    {
      Record(value);
      admitted := Decide(value);
    }

    method Decide(value: Option<V>) returns (admitted: bool)
      requires Lawful() && Admitted() && Misses(same, log, value) >= 1
      modifies this`seen, this`misses
      ensures Admitted() && (admitted <==> old(Remembers(value))) && (!admitted ==> Remembers(value))
      ensures admitted ==> exists i :: Forgotten(old(seen), seen, i, value)
    {
      if seen.None? {
        seen := Some(Seen([None, None], 0));
      }
      var index := FindSeen(value);
      if index.Some? {
        ghost var before := seen;
        Forget(index.value);
        assert before == old(seen) ==> Forgotten(old(seen), seen, index.value, value);
        admitted := true;
      } else {
        Remember(value);
        admitted := false;
      }
    }

    ghost method Record(value: Option<V>)
      requires Lawful() && Admitted()
      modifies this`log
      ensures Admitted() && log == old(log) + [value] && Misses(same, log, value) >= 1
      ensures Remembers(value) ==> Misses(same, log, value) >= 2
    {
      LogGrows(log, value);
      if Remembers(value) {
        var i :| 0 <= i < |seen.value.keys| && seen.value.keys[i].Some?
                   && SameKey(same, seen.value.keys[i].value, value);
        MissesSame(same, log, seen.value.keys[i].value, value);
      }
      log := log + [value];
    }

    /** An admitted key is forgotten, and the memory dropped once it is empty. */
    method Forget(i: nat)
      requires Admitted() && seen.Some? && i < |seen.value.keys|
      modifies this`seen
      ensures Admitted()
      ensures var left := old(seen.value).keys[i := None];
              && (seen.None? <==> forall k :: 0 <= k < |left| ==> left[k].None?)
              && (seen.Some? ==> seen.value == Seen(left, old(seen.value).next))
    {
      var keys := seen.value.keys[i := None];
      seen := if forall k :: 0 <= k < |keys| ==> keys[k].None? then None else Some(seen.value.(keys := keys));
    }

    /** Remembers a missed key in the next position, with room for four keys after enough misses. */
    method Remember(value: Option<V>)
      requires Lawful() && Admitted() && seen.Some? && Misses(same, log, value) >= 1
      modifies this`seen, this`misses
      ensures Admitted() && Remembers(value) && misses == (old(misses) + 1) % 256
      ensures var room := if misses >= SEEN_GROWTH_MISSES && |old(seen.value).keys| == 2
                            then old(seen.value).keys + [None, None] else old(seen.value).keys;
              seen.value == Seen(room[old(seen.value).next := Some(value)], (old(seen.value).next + 1) % |room|)
    {
      misses := (misses + 1) % 256;
      var keys := seen.value.keys;
      if misses >= SEEN_GROWTH_MISSES && |keys| == 2 {
        keys := keys + [None, None];
      }
      var at := seen.value.next;
      seen := Some(Seen(keys[at := Some(value)], (at + 1) % |keys|));
      assert seen.value.keys[at].Some? && SameKey(same, seen.value.keys[at].value, value);
    }

    lemma {:induction false} LogGrows(before: seq<Option<V>>, value: Option<V>)
      requires Lawful()
      ensures forall key {:trigger Misses(same, before + [value], key)} :: Misses(same, before + [value], key)
                == Misses(same, before, key) + if SameKey(same, value, key) then 1 else 0
    {
      assert (before + [value])[..|before|] == before;
    }

    /** Doubles the capacity; the slot that would have been replaced is the older of the two. */
    method Grow()
      requires |entries| == 2 && InOrder(entries, used, clock, next, lastUse, time) && entries[next].Entry?
      modifies this`entries, this`used, this`clock, this`next
      ensures Ordered() && entries == Padded(old(entries), 4)
    {
      used := [0, 0, 0, 0][next := 1][1 - next := 2];
      clock, entries, next := 2, Padded(entries, 4), 0;
    }

    /** Before a second eviction the cache grows instead. */
    method MakeRoom()
      requires Ordered()
      modifies this`entries, this`used, this`clock, this`next, this`pressure
      ensures Ordered() && entries == Padded(old(entries), Capacity(old(entries), old(next), old(pressure)))
    {
      if |entries| == 2 && entries[next].Entry? {
        pressure := pressure + 1;
        if pressure >= GROWTH_PRESSURE {
          Grow();
        }
      }
    }

    /** The capacity for the next entry: the second eviction from two slots makes it four. */
    static function Capacity(entries: seq<Entry<V>>, next: nat, pressure: nat): (capacity: nat)
      requires next < |entries|
      ensures capacity >= |entries|
    {
      if |entries| == 2 && entries[next].Entry? && pressure + 1 >= GROWTH_PRESSURE then 4 else |entries|
    }

    /** The slot to fill next: an unused one, otherwise the least recently used one. */
    method LeastRecentlyUsed() returns (index: nat)
      requires Ordered() && |entries| == 4
      ensures Victim(entries, lastUse, index)
    {
      var oldest := 0;
      var i := 1;
      while i < 4
        invariant 1 <= i <= 4 && oldest < i
        invariant forall j :: 0 <= j < i ==> entries[j].Entry? && (j != oldest ==> used[oldest] < used[j])
      {
        if entries[i].Empty? {
          return i;
        }
        if used[i] < used[oldest] {
          oldest := i;
        }
        i := i + 1;
      }
      index := oldest;
    }

    /** The slot for a new entry, which becomes its latest use. */
    method ClaimSlot() returns (index: nat)
      requires Ordered()
      modifies this`used, this`clock, this`next, this`lastUse, this`time
      ensures Victim(entries, old(lastUse), index) && old(time) < time && lastUse == old(lastUse)[index := time]
      ensures forall entry: Entry<V> :: entry.Entry? ==>
                InOrder(entries[index := entry], used, clock, next, lastUse, time)
    {
      index := next;
      if |entries| == 4 {
        index := LeastRecentlyUsed();
        clock := clock + 1;
        used := used[index := clock];
      } else {
        next := (next + 1) % 2;
      }
      time := time + 1;
      lastUse := lastUse[index := time];
    }

    /**
     Retains the result of a key that has been missed twice: in a free slot, evicting nothing, or in place of the least
     recently used key. All other entries stay.
     */
    method Replace(value: Option<V>) returns (bits: set<nat>, ghost index: nat)
      requires Valid() && !Holds(value) && Misses(same, log, value) >= 2
      modifies this`entries, this`used, this`clock, this`next, this`pressure, this`lastUse, this`time
      ensures Valid() && bits == result(value) && Holds(value)
      ensures var room := Padded(old(entries), Capacity(old(entries), old(next), old(pressure)));
              && Victim(room, old(lastUse), index) && entries == room[index := Entry(value, bits)]
              && old(time) < time && lastUse == old(lastUse)[index := time]
    {
      PaddedKeeps(entries, Capacity(entries, next, pressure));
      MakeRoom();
      bits, index := Fill(value);
    }

    method Fill(value: Option<V>) returns (bits: set<nat>, ghost slot: nat)
      requires Valid() && !Holds(value) && Misses(same, log, value) >= 2
      modifies this`entries, this`used, this`clock, this`next, this`lastUse, this`time
      ensures Valid() && bits == result(value) && Holds(value)
      ensures Victim(old(entries), old(lastUse), slot) && entries == old(entries)[slot := Entry(value, bits)]
      ensures old(time) < time && lastUse == old(lastUse)[slot := time]
    {
      hide Misses, Victim;
      bits := result(value);
      var index := ClaimSlot();
      slot := index;
      entries := entries[index := Entry(value, bits)];
      assert entries[index].Entry? && SameKey(same, entries[index].key, value);
    }

    /** Free slots hold nothing, so adding them changes no property of the entries. */
    lemma {:induction false} PaddedKeeps(before: seq<Entry<V>>, capacity: nat)
      requires |before| <= capacity
      ensures forall k :: 0 <= k < capacity ==> Padded(before, capacity)[k] == if k < |before| then before[k] else Empty
    {
    }

    /** One search through the cache returns the uncached result, whatever has been retained so far. */
    method Search(value: Option<V>) returns (bits: set<nat>)
      requires Valid()
      modifies this
      ensures Valid() && bits == result(value)
      ensures old(Holds(value)) ==> log == old(log) && entries == old(entries)
      ensures !old(Holds(value)) ==> log == old(log) + [value] && (Holds(value) <==> old(Remembers(value)))
    {
      var found := Lookup(value);
      if found.Some? {
        return found.value;
      }
      var admitted := Admit(value);
      if admitted {
        ghost var slot;
        bits, slot := Replace(value);
      } else {
        bits := result(value);
      }
    }
  }
}
