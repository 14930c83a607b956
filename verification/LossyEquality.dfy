/**
 Equality at reduced precision: a value is stored under a prefix of its 64-bit hash, and each generation keeps one bit
 less. The hash is an arbitrary function of the value.
 */
module LossyEquality {
  import opened Bitmaps
  import opened EqualityLeaves
  import opened Powers

  const TERMINAL_LEVEL: nat := 17
  const HASH_BITS: nat := 64
  const BASE_BYTES: nat := 40
  const KEY_BYTES: nat := 8

  /** The hash with its low `n` bits cleared. */
  function ClearLow(hash: int, n: nat): int {
    hash - hash % Pow2(n)
  }

  /** Level 0 keeps the whole hash, level 1 its first 16 bits, level 16 one bit and the last level none. */
  function Key(level: nat, hash: int): int
    requires level <= TERMINAL_LEVEL
  {
    if level == 0 then hash
    else
      var retained := TERMINAL_LEVEL - level;
      if retained == 0 then 0 else ClearLow(hash, HASH_BITS - retained)
  }

  /** Clearing `a` and then twice as much is clearing twice as much. */
  lemma {:induction false} RemainderOfDouble(h: int, a: int)
    requires a > 0
    ensures (h - h % a) % (2 * a) == h % (2 * a) - h % a
  {
    var q, r := h / (2 * a), h % (2 * a);
    assert h == q * (2 * a) + r;
    if r < a {
      QuotientUnique(h, a, 2 * q, r);
      QuotientUnique(h - h % a, 2 * a, q, 0);
    } else {
      assert (2 * q + 1) * a == q * (2 * a) + a;
      QuotientUnique(h, a, 2 * q + 1, r - a);
      QuotientUnique(h - h % a, 2 * a, q, a);
    }
  }

  /** Coarsening a key gives the key that the exact hash has one level later, so the hash need not be kept. */
  lemma {:induction false} CoarsenKey(level: nat, hash: int)
    requires level < TERMINAL_LEVEL
    ensures Key(level + 1, Key(level, hash)) == Key(level + 1, hash)
  {
    if 0 < level < TERMINAL_LEVEL - 1 {
      RemainderOfDouble(hash, Pow2(HASH_BITS - (TERMINAL_LEVEL - level)));
    }
  }

  /** Later levels only merge: values that share a key keep sharing it. */
  lemma {:induction false} KeysNest(level: nat, later: nat, a: int, b: int)
    requires level <= later <= TERMINAL_LEVEL && Key(level, a) == Key(level, b)
    ensures Key(later, a) == Key(later, b)
    decreases later - level
  {
    if level < later {
      CoarsenKey(level, a);
      CoarsenKey(level, b);
      KeysNest(level + 1, later, a, b);
    }
  }

  /** Two hashes agree in what a level keeps: everything, the top `17 - level` of 64 bits, and at the end nothing. */
  ghost predicate SharePrefix(level: nat, a: int, b: int) {
    if level == 0 then a == b else level >= 17 || a / Pow2(47 + level) == b / Pow2(47 + level)
  }

  lemma {:induction false} SameKey(level: nat, a: int, b: int)
    requires level <= TERMINAL_LEVEL
    ensures Key(level, a) == Key(level, b) <==> SharePrefix(level, a, b)
  {
    if 0 < level < TERMINAL_LEVEL {
      var d := Pow2(47 + level);
      assert HASH_BITS - (TERMINAL_LEVEL - level) == 47 + level;
      assert a == (a / d) * d + a % d && b == (b / d) * d + b % d;
      if Key(level, a) == Key(level, b) {
        QuotientUnique(Key(level, a), d, a / d, 0);
        QuotientUnique(Key(level, b), d, b / d, 0);
      }
    }
  }

  /** For a 64-bit hash that quotient is the number written by the top bits: 16 of them at level 1. */
  lemma {:induction false} PrefixBits(level: nat, hash: int)
    requires 1 <= level <= 16 && 0 <= hash <= 0xFFFF_FFFF_FFFF_FFFF
    ensures 0 <= hash / Pow2(47 + level) < Pow2(17 - level)
    ensures Pow2(47 + 1) == 0x1_0000_0000_0000 && Pow2(17 - 1) == 0x1_0000
  {
    Pow2Values();
    Pow2Sum(17 - level, 47 + level);
    assert (17 - level) + (47 + level) == 64;
    QuotientBelow(hash, Pow2(47 + level), Pow2(17 - level));
  }

  // ----- generations -----

  /** Some entry with this ID has a value whose hash has the key at the level. */
  ghost predicate SomeEntryHashes<V>(entries: seq<Entry<V>>, hash: V -> int, level: nat, key: int, id: nat)
    requires level <= TERMINAL_LEVEL
  {
    exists k :: 0 <= k < |entries| && entries[k].id == id && entries[k].value.Some?
      && Key(level, hash(entries[k].value.value)) == key
  }

  ghost predicate SomeWildcard<V>(entries: seq<Entry<V>>, id: nat) {
    exists k :: 0 <= k < |entries| && entries[k].id == id && entries[k].value.None?
  }

  /** The generation is exactly the inserted entries grouped by key. */
  ghost predicate Generation<V>(entries: seq<Entry<V>>, hash: V -> int, level: nat, leaf: Leaf<int>) {
    && level <= TERMINAL_LEVEL && |leaf.keys| == |leaf.sets|
    && (forall id: nat :: id in leaf.wildcard <==> SomeWildcard(entries, id))
    && (forall key: int, id: nat :: id in Posting(leaf.keys, leaf.sets, key) <==>
        SomeEntryHashes(entries, hash, level, key, id))
  }

  /** The postings of `keys`, each filed under its transformed key and merged where keys collide. */
  function Regrouped<K, L(==)>(keys: seq<K>, sets: seq<set<nat>>, coarsen: K -> L): (r: (seq<L>, seq<set<nat>>))
    requires |keys| == |sets|
    ensures |r.0| == |r.1|
  {
    if keys == [] then ([], [])
    else
      var n := |keys| - 1;
      var before := Regrouped(keys[..n], sets[..n], coarsen);
      Added(before.0, before.1, coarsen(keys[n]), sets[n])
  }

  /** The key transformation of one downgrade. */
  function Coarser(level: nat): int -> int
    requires level <= TERMINAL_LEVEL
  {
    (key: int) => Key(level, key)
  }

  lemma {:induction false} RegroupedStep<K, L>(keys: seq<K>, sets: seq<set<nat>>, coarsen: K -> L, n: nat)
    requires n < |keys| == |sets|
    ensures var before := Regrouped(keys[..n], sets[..n], coarsen);
            Regrouped(keys[..n + 1], sets[..n + 1], coarsen) == Added(before.0, before.1, coarsen(keys[n]), sets[n])
  {
    assert keys[..n + 1][..n] == keys[..n] && sets[..n + 1][..n] == sets[..n];
  }

  lemma {:induction false} RegroupedPosting<K, L>(keys: seq<K>, sets: seq<set<nat>>, coarsen: K -> L, key: L, id: nat)
    requires |keys| == |sets|
    ensures var r := Regrouped(keys, sets, coarsen);
            id in Posting(r.0, r.1, key) <==> exists k :: 0 <= k < |keys| && coarsen(keys[k]) == key && id in sets[k]
  {
    if keys != [] {
      var n := |keys| - 1;
      var before := Regrouped(keys[..n], sets[..n], coarsen);
      RegroupedPosting(keys[..n], sets[..n], coarsen, key, id);
      AddedPosting(before.0, before.1, coarsen(keys[n]), sets[n], key);
      if k :| 0 <= k < n && coarsen(keys[..n][k]) == key && id in sets[..n][k] {
        assert coarsen(keys[k]) == key && id in sets[k];
      }
      if k :| 0 <= k < |keys| && coarsen(keys[k]) == key && id in sets[k] {
        assert k < n ==> coarsen(keys[..n][k]) == key && id in sets[..n][k];
      }
    }
  }

  /** With distinct keys, a position holds the posting of its key. */
  lemma {:induction false} PostingPosition<K>(keys: seq<K>, sets: seq<set<nat>>, key: K, id: nat) returns (k: nat)
    requires |keys| == |sets| && id in Posting(keys, sets, key)
    ensures k < |keys| && keys[k] == key && id in sets[k]
  {
    if keys[0] == key {
      k := 0;
    } else {
      k := PostingPosition(keys[1..], sets[1..], key, id);
      k := k + 1;
    }
  }

  ghost predicate DistinctKeys<K>(keys: seq<K>) {
    forall i, j :: 0 <= i < j < |keys| ==> keys[i] != keys[j]
  }

  lemma {:induction false} RegroupedDistinct<K, L>(keys: seq<K>, sets: seq<set<nat>>, coarsen: K -> L)
    requires |keys| == |sets|
    ensures DistinctKeys(Regrouped(keys, sets, coarsen).0)
  {
    if keys != [] {
      var n := |keys| - 1;
      var before := Regrouped(keys[..n], sets[..n], coarsen);
      RegroupedDistinct(keys[..n], sets[..n], coarsen);
      AddedDistinct(before.0, before.1, coarsen(keys[n]), sets[n]);
    }
  }

  lemma {:induction false} AddedDistinct<K>(keys: seq<K>, sets: seq<set<nat>>, key: K, bits: set<nat>)
    requires |keys| == |sets| && DistinctKeys(keys)
    ensures DistinctKeys(Added(keys, sets, key, bits).0)
  {
    if keys != [] && keys[0] != key {
      AddedDistinct(keys[1..], sets[1..], key, bits);
      AddedUnion(keys[1..], sets[1..], key, bits);
      var rest := Added(keys[1..], sets[1..], key, bits).0;
      forall k | 0 <= k < |rest|
        ensures rest[k] != keys[0]
      {
        assert rest[k] in rest;
      }
    }
  }

  /** The first generation groups exact values by the key of their hash. */
  lemma {:induction false} FirstGeneration<V>(entries: seq<Entry<V>>, hash: V -> int, coarsen: V -> int)
    requires forall v :: coarsen(v) == Key(1, hash(v))
    ensures var exact := Built(entries);
            var grouped := Regrouped(exact.keys, exact.sets, coarsen);
            Generation(entries, hash, 1, Leaf(exact.wildcard, grouped.0, grouped.1))
  {
    var exact := Built(entries);
    var grouped := Regrouped(exact.keys, exact.sets, coarsen);
    BuiltUniverse(entries);
    forall id: nat
      ensures id in exact.wildcard <==> SomeWildcard(entries, id)
    {
      BuiltMeaning(entries, None, id);
    }
    forall key: int, id: nat
      ensures id in Posting(grouped.0, grouped.1, key) <==> SomeEntryHashes(entries, hash, 1, key, id)
    {
      RegroupedPosting(exact.keys, exact.sets, coarsen, key, id);
      if k :| 0 <= k < |exact.keys| && coarsen(exact.keys[k]) == key && id in exact.sets[k] {
        PostingAt(exact.keys, exact.sets, k);
        BuiltPostings(entries, exact.keys[k], id);
      }
      if SomeEntryHashes(entries, hash, 1, key, id) {
        var e :| 0 <= e < |entries| && entries[e].id == id && entries[e].value.Some?
                   && Key(1, hash(entries[e].value.value)) == key;
        BuiltPostings(entries, entries[e].value.value, id);
        var k := PostingPosition(exact.keys, exact.sets, entries[e].value.value, id);
      }
    }
  }

  /** The posting of a value in the exact leaf. */
  lemma {:induction false} BuiltPostings<V>(entries: seq<Entry<V>>, value: V, id: nat)
    ensures id in Posting(Built(entries).keys, Built(entries).sets, value) <==>
              exists k :: 0 <= k < |entries| && entries[k] == Entry(Some(value), id)
  {
    if entries != [] {
      var n := |entries| - 1;
      var prefix, last := entries[..n], entries[n];
      BuiltPostings(prefix, value, id);
      var before := Built(prefix);
      if last.value.Some? {
        AddedPosting(before.keys, before.sets, last.value.value, {last.id}, value);
      }
      if k :| 0 <= k < n && prefix[k] == Entry(Some(value), id) {
        assert entries[k] == prefix[k];
      }
      if k :| 0 <= k < |entries| && entries[k] == Entry(Some(value), id) {
        assert k < n ==> prefix[k] == entries[k];
      }
    }
  }

  /** Coarsening the keys of a generation gives the next generation of the same entries. */
  lemma {:induction false} NextGeneration<V>(entries: seq<Entry<V>>, hash: V -> int, level: nat, leaf: Leaf<int>,
                                             coarsen: int -> int)
    requires level < TERMINAL_LEVEL && Generation(entries, hash, level, leaf) && DistinctKeys(leaf.keys)
    requires forall key :: coarsen(key) == Key(level + 1, key)
    ensures var grouped := Regrouped(leaf.keys, leaf.sets, coarsen);
            Generation(entries, hash, level + 1, Leaf(leaf.wildcard, grouped.0, grouped.1))
  {
    var grouped := Regrouped(leaf.keys, leaf.sets, coarsen);
    forall key: int, id: nat
      ensures id in Posting(grouped.0, grouped.1, key) <==> SomeEntryHashes(entries, hash, level + 1, key, id)
    {
      RegroupedPosting(leaf.keys, leaf.sets, coarsen, key, id);
      if k :| 0 <= k < |leaf.keys| && coarsen(leaf.keys[k]) == key && id in leaf.sets[k] {
        PostingAt(leaf.keys, leaf.sets, k);
        assert SomeEntryHashes(entries, hash, level, leaf.keys[k], id);
        var e :| 0 <= e < |entries| && entries[e].id == id && entries[e].value.Some?
                   && Key(level, hash(entries[e].value.value)) == leaf.keys[k];
        CoarsenKey(level, hash(entries[e].value.value));
      }
      if SomeEntryHashes(entries, hash, level + 1, key, id) {
        var e :| 0 <= e < |entries| && entries[e].id == id && entries[e].value.Some?
                   && Key(level + 1, hash(entries[e].value.value)) == key;
        var current := Key(level, hash(entries[e].value.value));
        CoarsenKey(level, hash(entries[e].value.value));
        assert SomeEntryHashes(entries, hash, level, current, id);
        var k := PostingPosition(leaf.keys, leaf.sets, current, id);
      }
    }
  }

  /** A late insert at the current level keeps the generation exact. */
  lemma {:induction false} InsertIntoGeneration<V>(entries: seq<Entry<V>>, hash: V -> int, level: nat, leaf: Leaf<int>,
                                                   entry: Entry<V>)
    requires Generation(entries, hash, level, leaf)
    ensures var key := if entry.value.Some? then Some(Key(level, hash(entry.value.value))) else None;
            Generation(entries + [entry], hash, level, Insert(leaf, Entry(key, entry.id)))
  {
    var now := entries + [entry];
    forall id: nat
      ensures SomeWildcard(now, id) <==> SomeWildcard(entries, id) || (entry.value.None? && entry.id == id)
    {
      if k :| 0 <= k < |entries| && entries[k].id == id && entries[k].value.None? {
        assert now[k] == entries[k];
      }
      assert now[|entries|] == entry;
    }
    forall key: int, id: nat
      ensures SomeEntryHashes(now, hash, level, key, id) <==>
                SomeEntryHashes(entries, hash, level, key, id)
                || (entry.value.Some? && entry.id == id && Key(level, hash(entry.value.value)) == key)
    {
      if k :| 0 <= k < |entries| && entries[k].id == id && entries[k].value.Some?
              && Key(level, hash(entries[k].value.value)) == key {
        assert now[k] == entries[k];
      }
      assert now[|entries|] == entry;
    }
    if entry.value.Some? {
      var added := Key(level, hash(entry.value.value));
      forall key: int
        ensures Posting(Added(leaf.keys, leaf.sets, added, {entry.id}).0,
                        Added(leaf.keys, leaf.sets, added, {entry.id}).1, key)
                == Posting(leaf.keys, leaf.sets, key) + if key == added then {entry.id} else {}
      {
        AddedPosting(leaf.keys, leaf.sets, added, {entry.id}, key);
      }
    }
  }

  /** The serialized size of all postings. */
  function PostingBytes(sets: seq<set<nat>>, size: set<nat> -> nat): nat {
    if sets == [] then 0 else KEY_BYTES + size(sets[0]) + PostingBytes(sets[1..], size)
  }

  /** An equality rule after its first downgrade. */
  class QuantizedEquality<V(==, !new)> {
    const hash: V -> int
    const size: set<nat> -> nat
    var leaf: Leaf<int>
    var level: nat

    /** Every entry inserted so far, before and after downgrades. */
    ghost var entries: seq<Entry<V>>

    ghost predicate Valid()
      reads this
    {
      1 <= level <= TERMINAL_LEVEL && Generation(entries, hash, level, leaf) && DistinctKeys(leaf.keys)
    }

    /** The only step that hashes values; the exact rule is left as it is. */
    constructor (exact: Leaf<V>, ghost entries: seq<Entry<V>>, hash: V -> int, size: set<nat> -> nat)
      requires exact == Built(entries)
      ensures Valid() && level == 1 && this.entries == entries && this.hash == hash && this.size == size
    {
      var coarsen := v => Key(1, hash(v));
      var grouped := Regrouped(exact.keys, exact.sets, coarsen);
      FirstGeneration(entries, hash, coarsen);
      RegroupedDistinct(exact.keys, exact.sets, coarsen);
      this.hash, this.size, this.entries := hash, size, entries;
      leaf, level := Leaf(exact.wildcard, grouped.0, grouped.1), 1;
    }

    method Insert(entry: Entry<V>)
      requires Valid()
      modifies this`leaf, this`entries
      ensures Valid() && entries == old(entries) + [entry]
    {
      var key := if entry.value.Some? then Some(Key(level, hash(entry.value.value))) else None;
      InsertIntoGeneration(entries, hash, level, leaf, entry);
      if key.Some? {
        AddedDistinct(leaf.keys, leaf.sets, key.value, {entry.id});
      }
      leaf := EqualityLeaves.Insert(leaf, Entry(key, entry.id));
      entries := entries + [entry];
    }

    /** The postings of the next generation, built beside the current one. */
    method NextPostings() returns (keys: seq<int>, sets: seq<set<nat>>)
      requires |leaf.keys| == |leaf.sets| && level < TERMINAL_LEVEL
      ensures |keys| == |sets| && (keys, sets) == Regrouped(leaf.keys, leaf.sets, Coarser(level + 1))
    {
      ghost var coarsen := Coarser(level + 1);
      assert Regrouped(leaf.keys[..0], leaf.sets[..0], coarsen) == ([], []);
      hide Added, Regrouped;
      keys, sets := [], [];
      var i := 0;
      while i < |leaf.keys|
        invariant 0 <= i <= |leaf.keys| && |keys| == |sets|
        invariant Regrouped(leaf.keys[..i], leaf.sets[..i], coarsen) == (keys, sets)
      {
        RegroupedStep(leaf.keys, leaf.sets, coarsen, i);
        var added := Added(keys, sets, Key(level + 1, leaf.keys[i]), leaf.sets[i]);
        keys, sets := added.0, added.1;
        i := i + 1;
      }
      assert leaf.keys[..i] == leaf.keys && leaf.sets[..i] == leaf.sets;
    }

    function Usage(): nat
      reads this
    {
      BASE_BYTES + size(leaf.wildcard) + PostingBytes(leaf.sets, size)
    }

    /** What the next generation would use; nothing is changed. */
    method PreviewNext() returns (usage: Option<nat>)
      requires Valid()
      ensures usage.None? <==> level == TERMINAL_LEVEL
      ensures usage.Some? ==> usage.value == NextUsage()
    {
      if level >= TERMINAL_LEVEL {
        return None;
      }
      var keys, sets := NextPostings();
      usage := Some(BASE_BYTES + size(leaf.wildcard) + PostingBytes(sets, size));
    }

    ghost function NextUsage(): nat
      requires level < TERMINAL_LEVEL && |leaf.keys| == |leaf.sets|
      reads this
    {
      BASE_BYTES + size(leaf.wildcard) + PostingBytes(Regrouped(leaf.keys, leaf.sets, Coarser(level + 1)).1, size)
    }

    /** One generation coarser: the same entries, and exactly the previewed usage. */
    method RebuildNext()
      requires Valid()
      modifies this`leaf, this`level
      ensures Valid() && level == (if old(level) < TERMINAL_LEVEL then old(level) + 1 else old(level))
      ensures old(level) < TERMINAL_LEVEL ==> Usage() == old(NextUsage())
    {
      hide Regrouped, PostingBytes;
      if level < TERMINAL_LEVEL {
        var keys, sets := NextPostings();
        NextGeneration(entries, hash, level, leaf, Coarser(level + 1));
        RegroupedDistinct(leaf.keys, leaf.sets, Coarser(level + 1));
        leaf, level := Leaf(leaf.wildcard, keys, sets), level + 1;
      }
    }

    /** The ID has a wildcard entry, or a value whose hash agrees with the query's in the bits kept at the level. */
    ghost predicate InClassOf(query: Option<V>, id: nat)
      reads this
    {
      SomeWildcard(entries, id)
        || (query.Some? && exists k :: 0 <= k < |entries| && entries[k].id == id && entries[k].value.Some?
                                       && SharePrefix(level, hash(entries[k].value.value), hash(query.value)))
    }

    lemma {:induction false} ClassOf(query: V, id: nat)
      requires level <= TERMINAL_LEVEL
      ensures InClassOf(Some(query), id) <==>
                SomeWildcard(entries, id) || SomeEntryHashes(entries, hash, level, Key(level, hash(query)), id)
    {
      forall k | 0 <= k < |entries| && entries[k].value.Some?
        ensures Key(level, hash(entries[k].value.value)) == Key(level, hash(query)) <==>
                  SharePrefix(level, hash(entries[k].value.value), hash(query))
      {
        SameKey(level, hash(entries[k].value.value), hash(query));
      }
    }

    /** The result of a query is exactly the IDs with a wildcard entry or a value in the query's class. */
    method Search(query: Option<V>) returns (bits: set<nat>)
      requires Valid()
      ensures forall id: nat :: id in bits <==> InClassOf(query, id)
      ensures forall id: nat :: SomeEntryMatches(entries, query, id) ==> id in bits
    {
      bits := leaf.wildcard;
      if query.Some? {
        bits := bits + Posting(leaf.keys, leaf.sets, Key(level, hash(query.value)));
      }
      if query.Some? {
        forall id: nat {
          ClassOf(query.value, id);
        }
      }
      forall id: nat | SomeEntryMatches(entries, query, id)
        ensures InClassOf(query, id)
      {
        var k :| 0 <= k < |entries| && entries[k].id == id && (entries[k].value.None? || entries[k].value == query);
      }
    }
  }
}
