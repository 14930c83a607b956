/** An equality leaf: a wildcard bitmap and one posting per distinct stored value. */
module EqualityLeaves {
  import opened Bitmaps

  /** `sets[k]` is the posting of `keys[k]`. */
  datatype Leaf<K> = Leaf(wildcard: set<nat>, keys: seq<K>, sets: seq<set<nat>>)

  /** One inserted constraint; no value means that it matches everything. */
  datatype Entry<K> = Entry(value: Option<K>, id: nat)

  /** A built leaf without its keys; `compact[k]` says that posting `k` is kept as an ID list instead of a bitmap. */
  datatype Stored = Stored(wildcard: set<nat>, bits: seq<set<nat>>, compact: seq<bool>)

  ghost predicate WellFormed<K>(leaf: Leaf<K>) {
    && |leaf.keys| == |leaf.sets|
    && (forall j, k :: 0 <= j < k < |leaf.keys| ==> leaf.keys[j] != leaf.keys[k])
    && (forall k :: 0 <= k < |leaf.sets| ==> leaf.sets[k] != {})
  }

  /** The posting of a key, empty for an unknown one. */
  function Posting<K(==)>(keys: seq<K>, sets: seq<set<nat>>, key: K): set<nat>
    requires |keys| == |sets|
  {
    if keys == [] then {} else if keys[0] == key then sets[0] else Posting(keys[1..], sets[1..], key)
  }

  lemma {:induction false} PostingAt<K>(keys: seq<K>, sets: seq<set<nat>>, k: nat)
    requires |keys| == |sets| && k < |keys| && forall i, j :: 0 <= i < j < |keys| ==> keys[i] != keys[j]
    ensures Posting(keys, sets, keys[k]) == sets[k]
  {
    if k > 0 {
      PostingAt(keys[1..], sets[1..], k - 1);
    }
  }

  function Concrete<K(==)>(leaf: Leaf<K>, query: Option<K>): set<nat>
    requires |leaf.keys| == |leaf.sets|
  {
    if query.Some? then Posting(leaf.keys, leaf.sets, query.value) else {}
  }

  function Added<K(==)>(keys: seq<K>, sets: seq<set<nat>>, key: K, bits: set<nat>): (r: (seq<K>, seq<set<nat>>))
    requires |keys| == |sets|
    ensures |r.0| == |r.1| && |keys| <= |r.0| && (keys != [] ==> r.0[0] == keys[0])
  {
    if keys == [] then ([key], [bits])
    else if keys[0] == key then (keys, [sets[0] + bits] + sets[1..])
    else
      var rest := Added(keys[1..], sets[1..], key, bits);
      ([keys[0]] + rest.0, [sets[0]] + rest.1)
  }

  function Insert<K(==)>(leaf: Leaf<K>, entry: Entry<K>): (r: Leaf<K>)
    requires |leaf.keys| == |leaf.sets|
    ensures |r.keys| == |r.sets|
  {
    match entry.value
    case None => leaf.(wildcard := leaf.wildcard + {entry.id})
    case Some(key) =>
      var added := Added(leaf.keys, leaf.sets, key, {entry.id});
      Leaf(leaf.wildcard, added.0, added.1)
  }

  function Built<K(==)>(entries: seq<Entry<K>>): (r: Leaf<K>)
    ensures |r.keys| == |r.sets|
  {
    if entries == [] then Leaf({}, [], []) else Insert(Built(entries[..|entries| - 1]), entries[|entries| - 1])
  }

  lemma {:induction false} AddedPosting<K>(keys: seq<K>, sets: seq<set<nat>>, key: K, bits: set<nat>, other: K)
    requires |keys| == |sets|
    ensures var r := Added(keys, sets, key, bits);
            Posting(r.0, r.1, other) == Posting(keys, sets, other) + if other == key then bits else {}
  {
    var r := Added(keys, sets, key, bits);
    if keys != [] && keys[0] != key {
      AddedPosting(keys[1..], sets[1..], key, bits, other);
      assert r.0[1..] == Added(keys[1..], sets[1..], key, bits).0
               && r.1[1..] == Added(keys[1..], sets[1..], key, bits).1;
    } else if keys != [] {
      assert r.1[1..] == sets[1..];
    }
  }

  lemma {:induction false} AddedUnion<K>(keys: seq<K>, sets: seq<set<nat>>, key: K, bits: set<nat>)
    requires |keys| == |sets|
    ensures Union(Added(keys, sets, key, bits).1) == Union(sets) + bits
    ensures forall k :: k in Added(keys, sets, key, bits).0 <==> k in keys || k == key
  {
    var r := Added(keys, sets, key, bits);
    if keys == [] {
      assert [bits][1..] == [];
    } else if keys[0] == key {
      assert r.1[1..] == sets[1..];
    } else {
      AddedUnion(keys[1..], sets[1..], key, bits);
      assert r.1[1..] == Added(keys[1..], sets[1..], key, bits).1;
      assert keys == [keys[0]] + keys[1..];
    }
  }

  lemma {:induction false} AddedWellFormed<K>(wildcard: set<nat>, keys: seq<K>, sets: seq<set<nat>>, key: K,
                                              bits: set<nat>)
    requires WellFormed(Leaf(wildcard, keys, sets)) && bits != {}
    ensures var r := Added(keys, sets, key, bits); WellFormed(Leaf(wildcard, r.0, r.1))
  {
    if keys != [] && keys[0] != key {
      AddedWellFormed(wildcard, keys[1..], sets[1..], key, bits);
      AddedUnion(keys[1..], sets[1..], key, bits);
      var rest := Added(keys[1..], sets[1..], key, bits);
      forall k | 0 <= k < |rest.0|
        ensures rest.0[k] != keys[0]
      {
        assert rest.0[k] in rest.0;
      }
    }
  }

  /** The rule has an entry with this ID that satisfies the query: repeated IDs match when one of their entries does. */
  ghost predicate SomeEntryMatches<K>(entries: seq<Entry<K>>, query: Option<K>, id: nat) {
    exists k :: 0 <= k < |entries| && entries[k].id == id && (entries[k].value.None? || entries[k].value == query)
  }

  /** A built leaf answers a query with the IDs of which some entry matches, and it knows every inserted ID. */
  lemma {:induction false} BuiltMeaning<K>(entries: seq<Entry<K>>, query: Option<K>, id: nat)
    ensures id in Built(entries).wildcard + Concrete(Built(entries), query) <==> SomeEntryMatches(entries, query, id)
  {
    if entries != [] {
      var n := |entries| - 1;
      var prefix, last := entries[..n], entries[n];
      BuiltMeaning(prefix, query, id);
      var before := Built(prefix);
      if last.value.Some? && query.Some? {
        AddedPosting(before.keys, before.sets, last.value.value, {last.id}, query.value);
      }
      assert SomeEntryMatches(entries, query, id) <==>
             SomeEntryMatches(prefix, query, id) || (last.id == id && (last.value.None? || last.value == query)) by {
        if SomeEntryMatches(prefix, query, id) {
          var k :| 0 <= k < n && prefix[k].id == id && (prefix[k].value.None? || prefix[k].value == query);
          assert entries[k] == prefix[k];
        }
        if SomeEntryMatches(entries, query, id) {
          var k :| 0 <= k < |entries| && entries[k].id == id && (entries[k].value.None? || entries[k].value == query);
          assert k < n ==> prefix[k] == entries[k];
        }
      }
    }
  }

  /** The IDs a leaf knows. */
  function Universe<K>(leaf: Leaf<K>): set<nat> {
    leaf.wildcard + Union(leaf.sets)
  }

  lemma {:induction false} BuiltUniverse<K>(entries: seq<Entry<K>>)
    ensures Universe(Built(entries)) == set k | 0 <= k < |entries| :: entries[k].id
    ensures WellFormed(Built(entries))
  {
    if entries != [] {
      var n := |entries| - 1;
      var prefix, last := entries[..n], entries[n];
      BuiltUniverse(prefix);
      var before := Built(prefix);
      if last.value.Some? {
        AddedUnion(before.keys, before.sets, last.value.value, {last.id});
        AddedWellFormed(before.wildcard, before.keys, before.sets, last.value.value, {last.id});
      }
      assert (set k | 0 <= k < |entries| :: entries[k].id) == (set k | 0 <= k < n :: prefix[k].id) + {last.id};
    }
  }
}
