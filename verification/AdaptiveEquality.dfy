/**
 Equality as an adaptive leaf: the exact representation, its first generation and the coarser ones after it satisfy what
 the memory controller relies on.
 */
module AdaptiveEquality {
  import opened Bitmaps
  import opened EqualityLeaves
  import opened LossyEquality
  import opened AdaptiveLeaves
  import LossySteps

  datatype Representation<V> = Exact(exact: Leaf<V>) | Quantized(leaf: Leaf<int>, level: nat)

  predicate Consistent<V>(r: Representation<V>) {
    match r
    case Exact(exact) => |exact.keys| == |exact.sets|
    case Quantized(leaf, level) => |leaf.keys| == |leaf.sets| && 1 <= level <= TERMINAL_LEVEL
  }

  type Equality<!V> = r: Representation<V> | Consistent(r) witness Exact(Leaf({}, [], []))

  function First<V(==)>(r: Equality<V>, hash: V -> int): Equality<V>
    requires r.Exact?
  {
    var grouped := Regrouped(r.exact.keys, r.exact.sets, Hashed(hash));
    Quantized(Leaf(r.exact.wildcard, grouped.0, grouped.1), 1)
  }

  /** The key transformation of the first downgrade. */
  function Hashed<V>(hash: V -> int): V -> int {
    (value: V) => Key(1, hash(value))
  }

  function Coarsened<V(==)>(r: Equality<V>): Equality<V>
    requires r.Quantized? && r.level < TERMINAL_LEVEL
  {
    var grouped := Regrouped(r.leaf.keys, r.leaf.sets, Coarser(r.level + 1));
    Quantized(Leaf(r.leaf.wildcard, grouped.0, grouped.1), r.level + 1)
  }

  /**
   The next generation. An exact leaf that already counts as approximate has none: only the first step hashes values.
   */
  function NextOf<V(==)>(r: Equality<V>, approximate: bool, hash: V -> int): Option<Equality<V>> {
    match r
    case Exact(_) => if approximate then None else Some(First(r, hash))
    case Quantized(_, level) => if level < TERMINAL_LEVEL then Some(Coarsened(r)) else None
  }

  /** Stepping in place does nothing to an exact leaf. */
  function StepOf<V(==)>(r: Equality<V>): Equality<V> {
    match r
    case Exact(_) => r
    case Quantized(_, level) => if level < TERMINAL_LEVEL then Coarsened(r) else r
  }

  function KeyOf<V>(value: Option<V>, level: nat, hash: V -> int): Option<int>
    requires level <= TERMINAL_LEVEL
  {
    if value.Some? then Some(Key(level, hash(value.value))) else None
  }

  function InsertInto<V(==)>(r: Equality<V>, entry: Entry<V>, hash: V -> int): Equality<V> {
    match r
    case Exact(exact) => Exact(EqualityLeaves.Insert(exact, entry))
    case Quantized(leaf, level) =>
      Quantized(EqualityLeaves.Insert(leaf, Entry(KeyOf(entry.value, level, hash), entry.id)), level)
  }

  /** The entry is found: under the wildcards, or in the posting that its value is looked up in. */
  predicate Found<V(==)>(r: Equality<V>, entry: Entry<V>, hash: V -> int) {
    match r
    case Exact(exact) =>
      if entry.value.None? then entry.id in exact.wildcard
      else entry.id in Posting(exact.keys, exact.sets, entry.value.value)
    case Quantized(leaf, level) =>
      if entry.value.None? then entry.id in leaf.wildcard
      else entry.id in Posting(leaf.keys, leaf.sets, Key(level, hash(entry.value.value)))
  }

  function RankOf<V>(r: Equality<V>, approximate: bool): nat {
    match r
    case Exact(_) => if approximate then 0 else TERMINAL_LEVEL + 1
    case Quantized(_, level) => TERMINAL_LEVEL - level
  }

  function UsageOf<V>(r: Equality<V>, size: set<nat> -> nat): nat {
    match r
    case Exact(exact) => BASE_BYTES + size(exact.wildcard) + PostingBytes(exact.sets, size)
    case Quantized(leaf, _) => BASE_BYTES + size(leaf.wildcard) + PostingBytes(leaf.sets, size)
  }

  function EqualityOps<V(==)>(hash: V -> int, size: set<nat> -> nat): LeafOps<Equality<V>, Entry<V>> {
    LeafOps(r => UsageOf(r, size), (r, a) => NextOf(r, a, hash), (r, a) => true, r => StepOf(r),
            (r, e) => InsertInto(r, e, hash), (r, a) => RankOf(r, a), (r, e) => Found(r, e, hash))
  }

  lemma {:induction false} FirstFinds<V>(r: Equality<V>, entry: Entry<V>, hash: V -> int)
    requires r.Exact? && Found(r, entry, hash)
    ensures Found(First(r, hash), entry, hash)
  {
    if entry.value.Some? {
      var k := PostingPosition(r.exact.keys, r.exact.sets, entry.value.value, entry.id);
      RegroupedPosting(r.exact.keys, r.exact.sets, Hashed(hash), Key(1, hash(entry.value.value)), entry.id);
    }
  }

  lemma {:induction false} CoarsenedFinds<V>(r: Equality<V>, entry: Entry<V>, hash: V -> int)
    requires r.Quantized? && r.level < TERMINAL_LEVEL && Found(r, entry, hash)
    ensures Found(Coarsened(r), entry, hash)
  {
    if entry.value.Some? {
      var key := Key(r.level, hash(entry.value.value));
      var k := PostingPosition(r.leaf.keys, r.leaf.sets, key, entry.id);
      CoarsenKey(r.level, hash(entry.value.value));
      RegroupedPosting(r.leaf.keys, r.leaf.sets, Coarser(r.level + 1), Key(r.level + 1, key), entry.id);
    }
  }

  lemma {:induction false} InsertedFinds<V>(r: Equality<V>, entry: Entry<V>, other: Entry<V>, hash: V -> int)
    ensures Found(InsertInto(r, entry, hash), entry, hash)
    ensures Found(r, other, hash) ==> Found(InsertInto(r, entry, hash), other, hash)
  {
    if entry.value.Some? {
      match r
      case Exact(exact) =>
        AddedPosting(exact.keys, exact.sets, entry.value.value, {entry.id}, entry.value.value);
        if other.value.Some? {
          AddedPosting(exact.keys, exact.sets, entry.value.value, {entry.id}, other.value.value);
        }
      case Quantized(leaf, level) =>
        var key := Key(level, hash(entry.value.value));
        AddedPosting(leaf.keys, leaf.sets, key, {entry.id}, key);
        if other.value.Some? {
          AddedPosting(leaf.keys, leaf.sets, key, {entry.id}, Key(level, hash(other.value.value)));
        }
    }
  }

  /** Equality leaves obey the controller's laws, for every hash and size function. */
  lemma {:induction false} EqualityIsLawful<V(!new)>(hash: V -> int, size: set<nat> -> nat)
    ensures Lawful(EqualityOps(hash, size))
  {
    var ops := EqualityOps(hash, size);
    forall s: Equality<V>, e: Entry<V> | Found(s, e, hash)
      ensures s.Exact? ==> Found(First(s, hash), e, hash)
      ensures s.Quantized? && s.level < TERMINAL_LEVEL ==> Found(Coarsened(s), e, hash)
    {
      if s.Exact? {
        FirstFinds(s, e, hash);
      } else if s.level < TERMINAL_LEVEL {
        CoarsenedFinds(s, e, hash);
      }
    }
    forall s: Equality<V>, e: Entry<V>
      ensures Found(InsertInto(s, e, hash), e, hash)
    {
      InsertedFinds(s, e, e, hash);
    }
    forall s: Equality<V>, d: Entry<V>, e: Entry<V> | Found(s, e, hash)
      ensures Found(InsertInto(s, d, hash), e, hash)
    {
      InsertedFinds(s, d, e, hash);
    }
  }

  // ----- what a representation is -----

  /** The inserted entries themselves, or grouped by the keys of the level. */
  ghost predicate Represents<V>(r: Equality<V>, entries: seq<Entry<V>>, hash: V -> int) {
    match r
    case Exact(exact) => exact == Built(entries)
    case Quantized(leaf, level) => Generation(entries, hash, level, leaf) && DistinctKeys(leaf.keys)
  }

  ghost function LevelOf<V>(r: Equality<V>): nat {
    if r.Exact? then 0 else r.level
  }

  /** A step goes exactly one level further: it keeps the entries and groups them by the keys of the next level. */
  lemma {:induction false} NextRepresents<V>(r: Equality<V>, approximate: bool, entries: seq<Entry<V>>, hash: V -> int)
    requires Represents(r, entries, hash)
    ensures NextOf(r, approximate, hash).None? <==>
              LevelOf(r) == TERMINAL_LEVEL || (LevelOf(r) == 0 && approximate)
    ensures NextOf(r, approximate, hash).Some? ==>
              var next := NextOf(r, approximate, hash).value;
              Represents(next, entries, hash) && LevelOf(next) == LevelOf(r) + 1
  {
    match r
    case Exact(exact) =>
      FirstGeneration(entries, hash, Hashed(hash));
      RegroupedDistinct(exact.keys, exact.sets, Hashed(hash));
    case Quantized(leaf, level) =>
      if level < TERMINAL_LEVEL {
        NextGeneration(entries, hash, level, leaf, Coarser(level + 1));
        RegroupedDistinct(leaf.keys, leaf.sets, Coarser(level + 1));
      }
  }

  lemma {:induction false} InsertRepresents<V>(r: Equality<V>, entries: seq<Entry<V>>, entry: Entry<V>, hash: V -> int)
    requires Represents(r, entries, hash)
    ensures Represents(InsertInto(r, entry, hash), entries + [entry], hash)
    ensures LevelOf(InsertInto(r, entry, hash)) == LevelOf(r)
  {
    match r
    case Exact(_) =>
      assert (entries + [entry])[..|entries|] == entries;
    case Quantized(leaf, level) =>
      InsertIntoGeneration(entries, hash, level, leaf, entry);
      if entry.value.Some? {
        AddedDistinct(leaf.keys, leaf.sets, Key(level, hash(entry.value.value)), {entry.id});
      }
  }

  // ----- usage -----

  /** The union of two postings is never larger than both together. */
  ghost predicate Subadditive(size: set<nat> -> nat) {
    forall a, b :: size(a + b) <= size(a) + size(b)
  }

  lemma {:induction false} AddedBytes<K>(keys: seq<K>, sets: seq<set<nat>>, key: K, bits: set<nat>,
                                         size: set<nat> -> nat)
    requires |keys| == |sets| && Subadditive(size)
    ensures PostingBytes(Added(keys, sets, key, bits).1, size) <= PostingBytes(sets, size) + KEY_BYTES + size(bits)
  {
    if keys != [] && keys[0] != key {
      AddedBytes(keys[1..], sets[1..], key, bits, size);
    }
  }

  lemma {:induction false} PostingBytesLast(sets: seq<set<nat>>, size: set<nat> -> nat)
    requires sets != []
    ensures var n := |sets| - 1;
            PostingBytes(sets, size) == PostingBytes(sets[..n], size) + KEY_BYTES + size(sets[n])
  {
    if |sets| > 1 {
      var n := |sets| - 1;
      assert sets[1..][..n - 1] == sets[..n][1..];
      PostingBytesLast(sets[1..], size);
    } else {
      assert sets[1..] == [];
    }
  }

  lemma {:induction false} RegroupedBytes<K, L>(keys: seq<K>, sets: seq<set<nat>>, coarsen: K -> L,
                                                size: set<nat> -> nat)
    requires |keys| == |sets| && Subadditive(size)
    ensures PostingBytes(Regrouped(keys, sets, coarsen).1, size) <= PostingBytes(sets, size)
  {
    if keys != [] {
      var n := |keys| - 1;
      var before := Regrouped(keys[..n], sets[..n], coarsen);
      RegroupedBytes(keys[..n], sets[..n], coarsen, size);
      AddedBytes(before.0, before.1, coarsen(keys[n]), sets[n], size);
      PostingBytesLast(sets, size);
    }
  }

  /** So no step of an equality leaf makes it larger. */
  lemma {:induction false} EqualityShrinks<V(!new)>(hash: V -> int, size: set<nat> -> nat)
    requires Subadditive(size)
    ensures LossySteps.Shrinking(EqualityOps<V>(hash, size))
  {
    forall r: Equality<V>, approximate | NextOf(r, approximate, hash).Some?
      ensures UsageOf(NextOf(r, approximate, hash).value, size) <= UsageOf(r, size)
    {
      match r
      case Exact(exact) => RegroupedBytes(exact.keys, exact.sets, Hashed(hash), size);
      case Quantized(leaf, level) => RegroupedBytes(leaf.keys, leaf.sets, Coarser(level + 1), size);
    }
  }
}
