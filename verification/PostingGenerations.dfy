/** The build-time posting generation of one lossy list: nested levels, exact accounting, all-or-nothing steps. */
module PostingGenerations {
  import opened Bitmaps

  const MEMORY_LIMIT: nat := 0xFFFF_FFFF_FFFF_FFFF

  /** The key of an exact value at a level; levels past the last step change nothing more. */
  function KeyAt<K>(steps: seq<K -> K>, exact: K, level: nat): K {
    if level == 0 then exact
    else if level <= |steps| then steps[level - 1](KeyAt(steps, exact, level - 1))
    else KeyAt(steps, exact, level - 1)
  }

  /** The loop applies the steps in order and stops at the last one. */
  method ComputeKey<K>(steps: seq<K -> K>, exact: K, level: nat) returns (key: K)
    ensures key == KeyAt(steps, exact, level)
  {
    key := exact;
    var index := 0;
    while index < level && index < |steps|
      invariant 0 <= index <= level && index <= |steps| && key == KeyAt(steps, exact, index)
    {
      key := steps[index](key);
      index := index + 1;
    }
    PastLastStep(steps, exact, index, level);
  }

  lemma {:induction false} PastLastStep<K>(steps: seq<K -> K>, exact: K, reached: nat, level: nat)
    requires reached <= level && (reached == level || |steps| <= reached)
    ensures KeyAt(steps, exact, level) == KeyAt(steps, exact, reached)
    decreases level
  {
    if reached < level {
      PastLastStep(steps, exact, reached, level - 1);
    }
  }

  datatype Pair<K> = Pair(key: K, id: nat)

  ghost predicate SomePair<K>(steps: seq<K -> K>, log: seq<Pair<K>>, level: nat, key: K, id: nat) {
    exists k :: 0 <= k < |log| && log[k].id == id && KeyAt(steps, log[k].key, level) == key
  }

  ghost predicate Has<K(!new)>(generation: map<K, set<nat>>, key: K, id: nat) {
    key in generation && id in generation[key]
  }

  /** The generation is the inserted pairs grouped by their key at the level. */
  ghost predicate Grouped<K(!new)>(steps: seq<K -> K>, log: seq<Pair<K>>, level: nat, generation: map<K, set<nat>>) {
    && (forall key :: key in generation ==> generation[key] != {})
    && (forall key: K, id: nat :: Has(generation, key, id) <==> SomePair(steps, log, level, key, id))
  }

  // ----- accounting -----

  /** The charges of the given keys: one entry charge and one posting size each. */
  ghost function Charges<K(!new)>(generation: map<K, set<nat>>, keys: set<K>, entryBytes: nat,
                                  size: set<nat> -> nat): nat
    requires keys <= generation.Keys
  {
    if keys == {} then 0
    else
      var key :| key in keys;
      entryBytes + size(generation[key]) + Charges(generation, keys - {key}, entryBytes, size)
  }

  lemma {:induction false} ChargesOf<K(!new)>(generation: map<K, set<nat>>, keys: set<K>, entryBytes: nat,
                                              size: set<nat> -> nat, key: K)
    requires keys <= generation.Keys && key in keys
    ensures Charges(generation, keys, entryBytes, size) ==
              entryBytes + size(generation[key]) + Charges(generation, keys - {key}, entryBytes, size)
    decreases keys
  {
    var first :| first in keys && Charges(generation, keys, entryBytes, size) ==
                                    entryBytes + size(generation[first])
                                      + Charges(generation, keys - {first}, entryBytes, size);
    if first != key {
      ChargesOf(generation, keys - {first}, entryBytes, size, key);
      ChargesOf(generation, keys - {key}, entryBytes, size, first);
      assert keys - {first} - {key} == keys - {key} - {first};
    }
  }

  lemma {:induction false} ChargesAgree<K(!new)>(a: map<K, set<nat>>, b: map<K, set<nat>>, keys: set<K>,
                                                 entryBytes: nat, size: set<nat> -> nat)
    requires keys <= a.Keys && keys <= b.Keys && forall key :: key in keys ==> a[key] == b[key]
    ensures Charges(a, keys, entryBytes, size) == Charges(b, keys, entryBytes, size)
    decreases keys
  {
    if keys != {} {
      var key :| key in keys;
      ChargesOf(a, keys, entryBytes, size, key);
      ChargesOf(b, keys, entryBytes, size, key);
      ChargesAgree(a, b, keys - {key}, entryBytes, size);
    }
  }

  ghost function Total<K(!new)>(generation: map<K, set<nat>>, entryBytes: nat, size: set<nat> -> nat): nat {
    Charges(generation, generation.Keys, entryBytes, size)
  }

  /** Changing one posting changes the total by the difference of its charges. */
  lemma {:induction false} TotalUpdated<K(!new)>(generation: map<K, set<nat>>, entryBytes: nat, size: set<nat> -> nat,
                                                 key: K, bits: set<nat>)
    ensures Total(generation[key := bits], entryBytes, size)
              + (if key in generation then entryBytes + size(generation[key]) else 0) ==
              Total(generation, entryBytes, size) + entryBytes + size(bits)
  {
    var next := generation[key := bits];
    ChargesOf(next, next.Keys, entryBytes, size, key);
    ChargesAgree(generation, next, generation.Keys - {key}, entryBytes, size);
    assert next.Keys - {key} == generation.Keys - {key};
    if key in generation {
      ChargesOf(generation, generation.Keys, entryBytes, size, key);
    } else {
      assert generation.Keys - {key} == generation.Keys;
    }
  }

  /** Adds with a 64-bit limit. */
  function AddMemory(a: nat, b: nat): Option<nat> {
    if MEMORY_LIMIT - b < a then None else Some(a + b)
  }

  /** The usage of a whole generation; it fails exactly when the total does not fit into 64 bits. */
  method Account<K(==, !new)>(generation: map<K, set<nat>>, entryBytes: nat, size: set<nat> -> nat)
    returns (usage: Option<nat>)
    ensures usage
              == if Total(generation, entryBytes, size) <= MEMORY_LIMIT then Some(Total(generation, entryBytes, size))
              else None
  {
    var sum := 0;
    var rest := generation.Keys;
    assert generation.Keys - rest == {};
    while rest != {}
      invariant rest <= generation.Keys && sum <= MEMORY_LIMIT
      invariant sum + Charges(generation, rest, entryBytes, size) == Total(generation, entryBytes, size)
      decreases rest
    {
      var key :| key in rest;
      ChargesOf(generation, rest, entryBytes, size, key);
      if MEMORY_LIMIT - sum < entryBytes {
        return None;
      }
      sum := sum + entryBytes;
      if MEMORY_LIMIT - sum < size(generation[key]) {
        return None;
      }
      sum := sum + size(generation[key]);
      rest := rest - {key};
    }
    usage := Some(sum);
  }

  // ----- rebuilding -----

  ghost predicate Merged<K(!new)>(previous: map<K, set<nat>>, keys: set<K>, coarsen: K -> K, next: map<K, set<nat>>)
    requires keys <= previous.Keys
  {
    && (forall key :: key in next ==> next[key] != {})
    && (forall key: K, id: nat :: Has(next, key, id) <==> SomeMerged(previous, keys, coarsen, key, id))
  }

  ghost predicate SomeMerged<K(!new)>(previous: map<K, set<nat>>, keys: set<K>, coarsen: K -> K, key: K, id: nat)
    requires keys <= previous.Keys
  {
    exists from :: from in keys && coarsen(from) == key && id in previous[from]
  }

  lemma {:induction false} MergedMore<K(!new)>(previous: map<K, set<nat>>, keys: set<K>, coarsen: K -> K,
                                               next: map<K, set<nat>>, from: K)
    requires keys <= previous.Keys && from in previous && previous[from] != {} && Merged(previous, keys, coarsen, next)
    ensures var key := coarsen(from);
            Merged(previous, keys + {from}, coarsen,
                   next[key := (if key in next then next[key] else {}) + previous[from]])
  {
    var target := coarsen(from);
    var now := next[target := (if target in next then next[target] else {}) + previous[from]];
    forall key: K, id: nat
      ensures Has(now, key, id) <==> SomeMerged(previous, keys + {from}, coarsen, key, id)
    {
      assert Has(now, key, id) <==> Has(next, key, id) || (key == target && id in previous[from]);
      assert SomeMerged(previous, keys + {from}, coarsen, key, id) <==>
             SomeMerged(previous, keys, coarsen, key, id) || (key == target && id in previous[from]);
    }
  }

  /** A new generation with every key transformed and colliding postings merged; the old one is left alone. */
  method Rebuild<K(==, !new)>(previous: map<K, set<nat>>, coarsen: K -> K) returns (next: map<K, set<nat>>)
    requires forall key :: key in previous ==> previous[key] != {}
    ensures Merged(previous, previous.Keys, coarsen, next)
  {
    next := map[];
    var rest := previous.Keys;
    while rest != {}
      invariant rest <= previous.Keys && Merged(previous, previous.Keys - rest, coarsen, next)
      decreases rest
    {
      var from :| from in rest;
      var key := coarsen(from);
      MergedMore(previous, previous.Keys - rest, coarsen, next, from);
      assert previous.Keys - (rest - {from}) == previous.Keys - rest + {from};
      next := next[key := (if key in next then next[key] else {}) + previous[from]];
      rest := rest - {from};
    }
    assert previous.Keys - rest == previous.Keys;
  }

  lemma {:induction false} CoarserPairs<K(!new)>(steps: seq<K -> K>, log: seq<Pair<K>>, level: nat,
                                                 generation: map<K, set<nat>>, key: K, id: nat)
    requires level < |steps| && Grouped(steps, log, level, generation)
    ensures SomeMerged(generation, generation.Keys, steps[level], key, id) <==> SomePair(steps, log, level + 1, key, id)
  {
    if SomeMerged(generation, generation.Keys, steps[level], key, id) {
      var from :| from in generation.Keys && steps[level](from) == key && id in generation[from];
      assert Has(generation, from, id);
      var k :| 0 <= k < |log| && log[k].id == id && KeyAt(steps, log[k].key, level) == from;
      assert KeyAt(steps, log[k].key, level + 1) == key;
    }
    if SomePair(steps, log, level + 1, key, id) {
      var k :| 0 <= k < |log| && log[k].id == id && KeyAt(steps, log[k].key, level + 1) == key;
      var from := KeyAt(steps, log[k].key, level);
      assert SomePair(steps, log, level, from, id);
      assert Has(generation, from, id);
    }
  }

  lemma {:induction false} NextLevel<K(!new)>(steps: seq<K -> K>, log: seq<Pair<K>>, level: nat,
                                              generation: map<K, set<nat>>, next: map<K, set<nat>>)
    requires level < |steps| && Grouped(steps, log, level, generation)
             && Merged(generation, generation.Keys, steps[level], next)
    ensures Grouped(steps, log, level + 1, next)
  {
    forall key: K, id: nat
      ensures Has(next, key, id) <==> SomePair(steps, log, level + 1, key, id)
    {
      CoarserPairs(steps, log, level, generation, key, id);
    }
  }

  lemma {:induction false} PairAdded<K(!new)>(steps: seq<K -> K>, log: seq<Pair<K>>, level: nat,
                                              generation: map<K, set<nat>>, exact: K, id: nat)
    requires Grouped(steps, log, level, generation)
    ensures var key := KeyAt(steps, exact, level);
            Grouped(steps, log + [Pair(exact, id)], level,
                    generation[key := (if key in generation then generation[key] else {}) + {id}])
  {
    var now := log + [Pair(exact, id)];
    forall key: K, i: nat
      ensures SomePair(steps, now, level, key, i) <==>
                SomePair(steps, log, level, key, i) || (key == KeyAt(steps, exact, level) && i == id)
    {
      if k :| 0 <= k < |log| && log[k].id == i && KeyAt(steps, log[k].key, level) == key {
        assert now[k] == log[k];
      }
      assert now[|log|] == Pair(exact, id);
    }
  }

  /** The mutable build state of one lossy list. */
  class LossyBuildState<K(==, !new)> {
    const steps: seq<K -> K>
    const entryBytes: nat
    const size: set<nat> -> nat
    var generation: map<K, set<nat>>
    var level: nat
    var retainedBytes: nat

    /** The pairs inserted so far. */
    ghost var log: seq<Pair<K>>

    ghost predicate Valid()
      reads this
    {
      && level <= |steps| && Grouped(steps, log, level, generation)
      && retainedBytes == Total(generation, entryBytes, size) && retainedBytes <= MEMORY_LIMIT
    }

    constructor (steps: seq<K -> K>, entryBytes: nat, size: set<nat> -> nat)
      requires entryBytes <= MEMORY_LIMIT
      ensures Valid() && log == [] && level == 0 && this.steps == steps && this.entryBytes == entryBytes
              && this.size == size
    {
      this.steps, this.entryBytes, this.size := steps, entryBytes, size;
      generation, level, retainedBytes, log := map[], 0, 0, [];
    }

    /** Storing and searching use the same key. */
    method StorageKey(exact: K) returns (key: K)
      ensures key == KeyAt(steps, exact, level)
    {
      key := ComputeKey(steps, exact, level);
    }

    /** Adds one pair, or changes nothing when the new accounting would not fit into 64 bits. */
    method Insert(exact: K, id: nat) returns (ok: bool)
      requires Valid()
      modifies this`generation, this`retainedBytes, this`log
      ensures Valid()
      ensures ok ==> log == old(log) + [Pair(exact, id)]
      ensures !ok ==> generation == old(generation) && retainedBytes == old(retainedBytes) && log == old(log)
      ensures !ok ==> retainedBytes + entryBytes > MEMORY_LIMIT
                      || Total(GenerationWith(exact, id), entryBytes, size) > MEMORY_LIMIT
    {
      var key := StorageKey(exact);
      var known := key in generation;
      var current := if known then generation[key] else {};
      var next := current + {id};
      var before, after := if known then size(current) else 0, size(next);
      var usage := retainedBytes;
      TotalUpdated(generation, entryBytes, size, key, next);
      PairAdded(steps, log, level, generation, exact, id);
      if !known {
        var charged := AddMemory(usage, entryBytes);
        if charged.None? {
          return false;
        }
        usage := charged.value;
      }
      if after >= before {
        var charged := AddMemory(usage, after - before);
        if charged.None? {
          return false;
        }
        usage := charged.value;
      } else {
        usage := usage - (before - after);
      }
      generation, retainedBytes, log := generation[key := next], usage, log + [Pair(exact, id)];
      ok := true;
    }

    /** The generation with one more pair. */
    ghost function GenerationWith(exact: K, id: nat): map<K, set<nat>>
      reads this
    {
      var key := KeyAt(steps, exact, level);
      generation[key := (if key in generation then generation[key] else {}) + {id}]
    }

    /** The next generation of the same pairs, independent of the current one. */
    method NextGeneration() returns (next: map<K, set<nat>>)
      requires level < |steps| && Grouped(steps, log, level, generation)
      ensures Grouped(steps, log, level + 1, next)
    {
      next := Rebuild(generation, steps[level]);
      NextLevel(steps, log, level, generation, next);
    }

    /** Publishes the next generation of the same pairs, or changes nothing. */
    method RebuildNext() returns (retained: Option<nat>)
      requires Valid()
      modifies this`generation, this`level, this`retainedBytes
      ensures Valid()
      ensures retained.Some? ==> level == old(level) + 1 && retainedBytes == retained.value
      ensures retained.None? ==>
                generation == old(generation) && level == old(level) && retainedBytes == old(retainedBytes)
      ensures old(level) == |steps| ==> retained.None?
      ensures retained.None? && old(level) < |steps| ==> exists next: map<K, set<nat>> ::
                Grouped(steps, log, level + 1, next) && Total(next, entryBytes, size) > MEMORY_LIMIT
    {
      if level >= |steps| {
        return None;
      }
      var next := NextGeneration();
      retained := Account(next, entryBytes, size);
      if retained.Some? {
        generation, level, retainedBytes := next, level + 1, retained.value;
      }
    }
  }
}
