/**
 From stored entries to search results. An index is built from (constraint, external ID) entries under a schema, and a
 search appends the external IDs whose entries satisfy every rule: exactly those while no leaf has lost precision, and
 never fewer.
 */
module EntrySearch {
  import opened Bitmaps
  import opened OrderedItems
  import opened OrderedRounding
  import opened OrderedRebuild
  import opened OrderedRules
  import opened EqualityLeaves
  import Plans
  import BuiltSearch
  import AllSearch
  import EqualityAntonyms
  import EqualityClasses

  /** An ordered index as a build leaves it: exact, or with some of its boundaries merged outward. */
  datatype Boundaries<!V> = Boundaries(compare: (V, V) -> int, items: seq<Item<V>>, upward: bool, inclusive: bool,
                                       merged: bool, estimate: set<nat> -> nat)

  /**
   The rules of a schema over constraints. `key` coarsens equality values once precision has been lost; `descriptor`
   names the schema rule that a leaf was made from.
   */
  datatype Schema<!C, !K, !V> =
    | Include(descriptor: nat, get: C -> Option<K>, key: K -> K)
    | Compare(descriptor: nat, measure: C -> Option<V>, index: Boundaries<V>)
    | Exclude(get: C -> Option<K>)
    | All(children: seq<Schema<C, K, V>>)

  // ----- what is asked -----

  /** The plain meaning of a leaf: a missing stored value matches, a present one is compared with the query's. */
  ghost predicate Admits<C, K, V>(leaf: Schema<C, K, V>, stored: C, query: C)
    requires leaf.Include? || leaf.Compare?
  {
    match leaf
    case Include(_, get, _) => get(stored).None? || get(stored) == get(query)
    case Compare(_, measure, index) =>
      measure(stored).None?
      || (measure(query).Some?
          && var c := index.compare(measure(stored).value, measure(query).value);
             if index.upward then (if index.inclusive then c >= 0 else c > 0)
             else (if index.inclusive then c <= 0 else c < 0))
  }

  /** What is left of it after a loss of precision: keys instead of values, boundaries instead of stored values. */
  ghost predicate Reaches<C, K, V>(leaf: Schema<C, K, V>, stored: C, query: C)
    requires leaf.Include? || leaf.Compare?
  {
    match leaf
    case Include(_, get, key) =>
      get(stored).None? || (get(query).Some? && key(get(stored).value) == key(get(query).value))
    case Compare(_, measure, index) =>
      measure(stored).None?
        || (measure(query).Some? && RoundedReaches(index, measure(stored).value, measure(query).value))
  }

  ghost predicate RoundedReaches<V>(index: Boundaries<V>, stored: V, query: V) {
    exists k: nat :: k < |index.items| && RoundsTo(index.compare, index.items, stored, k, index.upward)
      && var c := index.compare(index.items[k].value, query);
         if index.upward then (if index.inclusive then c >= 0 else c > 0)
         else (if index.inclusive then c <= 0 else c < 0)
  }

  ghost predicate Forbids<C, K>(get: C -> Option<K>, stored: C, query: C) {
    get(stored).Some? && get(stored) == get(query)
  }

  /**
   The rule that an ID names satisfies the schema: in every leaf some entry with this ID matches, and in no exclusion is
   there an entry with this ID that forbids the query.
   */
  ghost predicate Selected<C, K, V, ID>(schema: Schema<C, K, V>, constraints: seq<C>, ids: seq<ID>, query: C, id: ID,
                                        exact: bool)
    requires |constraints| == |ids|
  {
    match schema
    case Exclude(get) => forall k :: 0 <= k < |ids| && ids[k] == id ==> !Forbids(get, constraints[k], query)
    case All(children) => forall c :: 0 <= c < |children| ==> Selected(children[c], constraints, ids, query, id, exact)
    case _ =>
      exists k :: 0 <= k < |ids| && ids[k] == id
        && if exact then Admits(schema, constraints[k], query) else Reaches(schema, constraints[k], query)
  }

  /** No leaf has lost precision. */
  ghost predicate Exact<C, K(!new), V>(schema: Schema<C, K, V>) {
    match schema
    case Include(_, _, key) => forall a, b :: key(a) == key(b) ==> a == b
    case Compare(_, _, index) => !index.merged
    case Exclude(_) => true
    case All(children) => forall c :: 0 <= c < |children| ==> Exact(children[c])
  }

  // ----- what a build establishes -----

  /** The present values of a leaf, with the dense IDs of their entries. */
  ghost function StoredPairs<C, V(!new)>(measure: C -> Option<V>, constraints: seq<C>, dense: seq<nat>): iset<(V, nat)>
    requires |constraints| == |dense|
  {
    iset k | 0 <= k < |dense| && measure(constraints[k]).Some? :: (measure(constraints[k]).value, dense[k])
  }

  /** The boundaries track the stored values of the entries, and are estimated from above. */
  ghost predicate BuiltFrom<V(!new)>(index: Boundaries<V>, stored: iset<(V, nat)>) {
    && TotalPreorder(index.compare) && Sorted(index.compare, index.items)
    && Tracks(index.compare, index.items, stored, index.upward)
    && (!index.merged ==>
        TracksEqual(index.compare, index.items, stored) && Unmerged(index.compare, index.items, stored))
    && (forall bits: set<nat> :: |bits| <= index.estimate(bits))
  }

  ghost predicate WellBuilt<C, K, V(!new)>(schema: Schema<C, K, V>, constraints: seq<C>, dense: seq<nat>)
    requires |constraints| == |dense|
  {
    match schema
    case Compare(_, measure, index) => BuiltFrom(index, StoredPairs(measure, constraints, dense))
    case All(children) => forall c :: 0 <= c < |children| ==> WellBuilt(children[c], constraints, dense)
    case _ => true
  }

  /** Losing precision never loses a match, and without a loss nothing is added. */
  lemma {:induction false} LeafKeepsMatches<C, K(!new), V(!new)>(leaf: Schema<C, K, V>, constraints: seq<C>,
          dense: seq<nat>, k: nat, query: C)
    requires |constraints| == |dense| && k < |dense| && (leaf.Include? || leaf.Compare?)
             && WellBuilt(leaf, constraints, dense)
    ensures Admits(leaf, constraints[k], query) ==> Reaches(leaf, constraints[k], query)
    ensures Exact(leaf) ==> (Reaches(leaf, constraints[k], query) <==> Admits(leaf, constraints[k], query))
  {
    if leaf.Compare? && leaf.measure(constraints[k]).Some? && leaf.measure(query).Some? {
      var index, value, asked := leaf.index, leaf.measure(constraints[k]).value, leaf.measure(query).value;
      assert (value, dense[k]) in StoredPairs(leaf.measure, constraints, dense);
      assert Covered(index.compare, index.items, value, index.upward);
      var b: nat :| b < |index.items| && RoundsTo(index.compare, index.items, value, b, index.upward);
      if Admits(leaf, constraints[k], query) {
        KeepsOutward(index.compare, value, index.items[b].value, asked, index.upward, index.inclusive);
      }
      if Exact(leaf) && Reaches(leaf, constraints[k], query) {
        UnmergedKeeps(index, StoredPairs(leaf.measure, constraints, dense), value, dense[k], asked);
      }
    }
  }

  lemma {:induction false} UnmergedKeeps<V(!new)>(index: Boundaries<V>, stored: iset<(V, nat)>, value: V, id: nat,
                                                  query: V)
    requires BuiltFrom(index, stored) && !index.merged && (value, id) in stored && RoundedReaches(index, value, query)
    ensures Keeps(index.compare(value, query), index.upward, index.inclusive)
  {
    hide Tracks, TracksEqual;
    var compare, items := index.compare, index.items;
    var k: nat :| k < |items| && RoundsTo(compare, items, value, k, index.upward)
                  && Keeps(compare(items[k].value, query), index.upward, index.inclusive);
    var e: nat :| e < |items| && compare(items[e].value, value) == 0;
    RoundsToEqual(compare, items, value, e, index.upward);
    EqualSides(compare, items[k].value, value, query);
  }

  lemma {:induction false} NoMatchLost<C, K(!new), V(!new), ID>(schema: Schema<C, K, V>, constraints: seq<C>,
          ids: seq<ID>, dense: seq<nat>,
                                                               query: C, id: ID)
    requires |constraints| == |ids| == |dense| && WellBuilt(schema, constraints, dense)
    ensures Selected(schema, constraints, ids, query, id, true) ==> Selected(schema, constraints, ids, query, id, false)
    ensures Exact(schema) ==>
              (Selected(schema, constraints, ids, query, id, false) <==>
               Selected(schema, constraints, ids, query, id, true))
  {
    match schema
    case Exclude(_) =>
    case All(children) =>
      forall c | 0 <= c < |children|
        ensures Selected(children[c], constraints, ids, query, id, true) ==>
                  Selected(children[c], constraints, ids, query, id, false)
        ensures Exact(children[c]) ==>
                  (Selected(children[c], constraints, ids, query, id, false) <==>
                   Selected(children[c], constraints, ids, query, id, true))
      {
        NoMatchLost(children[c], constraints, ids, dense, query, id);
      }
    case _ =>
      forall k | 0 <= k < |ids|
        ensures Admits(schema, constraints[k], query) ==> Reaches(schema, constraints[k], query)
        ensures Exact(schema) ==> (Reaches(schema, constraints[k], query) <==> Admits(schema, constraints[k], query))
      {
        LeafKeepsMatches(schema, constraints, dense, k, query);
      }
  }

  // ----- the rule tree at a query -----

  function Keyed<K>(value: Option<K>, key: K -> K): Option<K> {
    if value.Some? then Some(key(value.value)) else None
  }

  /** What inserting every entry stores in an equality leaf. */
  function LeafEntries<C, K>(constraints: seq<C>, dense: seq<nat>, get: C -> Option<K>,
                             key: K -> K): (entries: seq<Entry<K>>)
    requires |constraints| == |dense|
    ensures |entries| == |dense|
    ensures forall k :: 0 <= k < |dense| ==> entries[k] == Entry(Keyed(get(constraints[k]), key), dense[k])
  {
    seq(|dense|, k requires 0 <= k < |dense| => Entry(Keyed(get(constraints[k]), key), dense[k]))
  }

  function ValueEntries<C, K>(constraints: seq<C>, dense: seq<nat>, get: C -> Option<K>): (entries: seq<Entry<K>>)
    requires |constraints| == |dense|
    ensures |entries| == |dense| && forall k :: 0 <= k < |dense| ==> entries[k] == Entry(get(constraints[k]), dense[k])
  {
    seq(|dense|, k requires 0 <= k < |dense| => Entry(get(constraints[k]), dense[k]))
  }

  /** An exclusion ignores the entries without a value. */
  function PresentEntries<K>(entries: seq<Entry<K>>): seq<Entry<K>> {
    if entries == [] then []
    else
      var last := entries[|entries| - 1];
      PresentEntries(entries[..|entries| - 1]) + if last.value.Some? then [last] else []
  }

  function Position<K(==)>(keys: seq<K>, key: K): Option<nat> {
    if keys == [] then None
    else if keys[0] == key then Some(0)
    else
      var rest := Position(keys[1..], key);
      if rest.Some? then Some(rest.value + 1) else None
  }

  lemma {:induction false} PositionFinds<K>(keys: seq<K>, sets: seq<set<nat>>, key: K)
    requires |keys| == |sets|
    ensures var k := Position(keys, key);
            && (k.Some? ==> k.value < |keys|)
            && Posting(keys, sets, key) == if k.Some? then sets[k.value] else {}
  {
    if keys != [] && keys[0] != key {
      PositionFinds(keys[1..], sets[1..], key);
    }
  }

  /** `compact` decides which postings are kept as ID lists. */
  function EqualityRule<K(==)>(descriptor: nat, leaf: Leaf<K>, query: Option<K>, compact: set<nat> -> bool): Plans.Rule
    requires |leaf.keys| == |leaf.sets|
  {
    var flags := seq(|leaf.sets|, k requires 0 <= k < |leaf.sets| => compact(leaf.sets[k]));
    var posting := if query.Some? then Position(leaf.keys, query.value) else None;
    Plans.Leaf(Some(descriptor), leaf.wildcard, leaf.wildcard + Concrete(leaf, query),
               Plans.EqualityForm(Stored(leaf.wildcard, leaf.sets, flags), posting))
  }

  function Missing<C, V>(constraints: seq<C>, dense: seq<nat>, measure: C -> Option<V>): set<nat>
    requires |constraints| == |dense|
  {
    set k | 0 <= k < |dense| && measure(constraints[k]).None? :: dense[k]
  }

  function PostingBitmaps<V>(items: seq<Item<V>>): seq<set<nat>> {
    seq(|items|, k requires 0 <= k < |items| => items[k].bits)
  }

  function CompareRule<V>(descriptor: nat, missing: set<nat>, index: Boundaries<V>, query: Option<V>): Plans.Rule {
    var found := if query.Some? then Select(index.compare, index.items, query.value, index.upward, index.inclusive)
                   else {};
    Plans.Leaf(Some(descriptor), missing, missing + found,
               Plans.OtherForm([missing] + PostingBitmaps(index.items), true, Some(index.estimate(missing + found))))
  }

  /** The schema with every leaf seen at one query. */
  function RuleAt<C, K(==), V>(schema: Schema<C, K, V>, constraints: seq<C>, dense: seq<nat>, query: C,
                               compact: set<nat> -> bool): Plans.Rule
    requires |constraints| == |dense|
  {
    match schema
    case Include(descriptor, get, key) =>
      EqualityRule(descriptor, Built(LeafEntries(constraints, dense, get, key)), Keyed(get(query), key), compact)
    case Compare(descriptor, measure, index) =>
      CompareRule(descriptor, Missing(constraints, dense, measure), index, measure(query))
    case Exclude(get) =>
      var leaf := Built(PresentEntries(ValueEntries(constraints, dense, get)));
      Plans.Exclude(leaf.keys != [], Concrete(leaf, get(query)))
    case All(children) =>
      Plans.All(seq(|children|,
                    c requires 0 <= c < |children| => RuleAt(children[c], constraints, dense, query, compact)))
  }

  // ----- the meaning of the rule tree -----

  /** An equality leaf finds the IDs of which some entry reaches the query. */
  lemma {:induction false} IncludeMeaning<C, K, V>(schema: Schema<C, K, V>, constraints: seq<C>, dense: seq<nat>,
                                                   query: C, compact: set<nat> -> bool, id: nat)
    requires |constraints| == |dense| && schema.Include?
    ensures id in RuleAt(schema, constraints, dense, query, compact).result <==>
              Selected(schema, constraints, dense, query, id, false)
  {
    var entries := LeafEntries(constraints, dense, schema.get, schema.key);
    BuiltMeaning(entries, Keyed(schema.get(query), schema.key), id);
    forall k | 0 <= k < |dense|
      ensures Reaches(schema, constraints[k], query) <==>
                entries[k].value.None? || entries[k].value == Keyed(schema.get(query), schema.key)
    {
    }
  }

  /** A scan of the boundaries finds the IDs of which some stored value reaches the query. */
  lemma {:induction false} ScanReaches<V(!new)>(index: Boundaries<V>, stored: iset<(V, nat)>, asked: V, id: nat)
    requires BuiltFrom(index, stored)
    ensures id in Select(index.compare, index.items, asked, index.upward, index.inclusive) <==>
              exists p :: p in stored && p.1 == id && RoundedReaches(index, p.0, asked)
  {
    hide Tracks, TracksEqual, Unmerged, Sorted, TotalPreorder;
    SelectTracks(index.compare, index.items, stored, asked, index.upward, index.inclusive, index.upward, id);
    if p, b: nat :| p in stored && p.1 == id && b < |index.items|
                    && RoundsTo(index.compare, index.items, p.0, b, index.upward)
                    && Keeps(index.compare(index.items[b].value, asked), index.upward, index.inclusive) {
      assert RoundedReaches(index, p.0, asked);
    }
  }

  /** So does an ordered leaf, through its boundaries. */
  lemma {:induction false} CompareMeaning<C, K, V(!new)>(schema: Schema<C, K, V>, constraints: seq<C>, dense: seq<nat>,
                                                         query: C, compact: set<nat> -> bool, id: nat)
    requires |constraints| == |dense| && schema.Compare? && WellBuilt(schema, constraints, dense)
    ensures id in RuleAt(schema, constraints, dense, query, compact).result <==>
              Selected(schema, constraints, dense, query, id, false)
  {
    hide BuiltFrom, RoundedReaches;
    var index, measure := schema.index, schema.measure;
    assert id in Missing(constraints, dense, measure) <==>
             exists k :: 0 <= k < |dense| && dense[k] == id && measure(constraints[k]).None?;
    if measure(query).Some? {
      var stored, asked := StoredPairs(measure, constraints, dense), measure(query).value;
      ScanReaches(index, stored, asked, id);
      if k :| 0 <= k < |dense| && dense[k] == id && measure(constraints[k]).Some?
              && Reaches(schema, constraints[k], query) {
        assert (measure(constraints[k]).value, id) in stored;
      }
    }
  }

  lemma {:induction false} PresentMatches<K>(entries: seq<Entry<K>>, query: Option<K>, id: nat)
    ensures SomeEntryMatches(PresentEntries(entries), query, id) <==>
            exists k :: 0 <= k < |entries| && entries[k].id == id && entries[k].value.Some? && entries[k].value == query
    ensures forall k :: 0 <= k < |PresentEntries(entries)| ==> PresentEntries(entries)[k].value.Some?
    ensures PresentEntries(entries) != [] <==> exists k :: 0 <= k < |entries| && entries[k].value.Some?
  {
    if entries != [] {
      var n := |entries| - 1;
      var before, last := PresentEntries(entries[..n]), entries[n];
      var now := PresentEntries(entries);
      PresentMatches(entries[..n], query, id);
      assert entries == entries[..n] + [last];
      if last.value.Some? {
        EntryAppended(before, last, query, id);
      } else {
        assert now == before;
      }
    }
  }

  lemma {:induction false} EntryAppended<K>(entries: seq<Entry<K>>, last: Entry<K>, query: Option<K>, id: nat)
    ensures SomeEntryMatches(entries + [last], query, id) <==>
            SomeEntryMatches(entries, query, id) || (last.id == id && (last.value.None? || last.value == query))
  {
    var now := entries + [last];
    if SomeEntryMatches(entries, query, id) {
      var k :| 0 <= k < |entries| && entries[k].id == id && (entries[k].value.None? || entries[k].value == query);
      assert now[k] == entries[k];
    }
    assert now[|entries|] == last;
  }

  /** A leaf of present values has no wildcards, and has keys exactly if there are entries. */
  lemma {:induction false} PresentLeaf<K>(entries: seq<Entry<K>>)
    requires forall k :: 0 <= k < |entries| ==> entries[k].value.Some?
    ensures Built(entries).wildcard == {} && (Built(entries).keys != [] <==> entries != [])
  {
    if entries != [] {
      var n := |entries| - 1;
      PresentLeaf(entries[..n]);
      var before := Built(entries[..n]);
      AddedUnion(before.keys, before.sets, entries[n].value.value, {entries[n].id});
    }
  }

  /** An exclusion forbids the IDs of which some entry forbids the query, and knows whether any entry has a value. */
  lemma {:induction false} ExcludeMeaning<C, K, V>(schema: Schema<C, K, V>, constraints: seq<C>, dense: seq<nat>,
                                                   query: C, compact: set<nat> -> bool, id: nat)
    requires |constraints| == |dense| && schema.Exclude?
    ensures var rule := RuleAt(schema, constraints, dense, query, compact);
            && (id !in rule.forbidden <==> Selected(schema, constraints, dense, query, id, false))
            && (rule.stores <==> exists k :: 0 <= k < |constraints| && schema.get(constraints[k]).Some?)
            && (!rule.stores ==> rule.forbidden == {})
            && rule.forbidden <= set k | 0 <= k < |dense| :: dense[k]
  {
    var entries := ValueEntries(constraints, dense, schema.get);
    var present := PresentEntries(entries);
    PresentMatches(entries, schema.get(query), id);
    PresentLeaf(present);
    BuiltMeaning(present, schema.get(query), id);
    var rule := RuleAt(schema, constraints, dense, query, compact);
    forall x | x in rule.forbidden
      ensures x in set k | 0 <= k < |dense| :: dense[k]
    {
      PresentMatches(entries, schema.get(query), x);
      BuiltMeaning(present, schema.get(query), x);
    }
  }

  /** The rule tree at a query accepts a dense ID exactly when the entries with this ID satisfy the schema. */
  lemma {:induction false} RuleMeaning<C, K, V(!new)>(schema: Schema<C, K, V>, constraints: seq<C>, dense: seq<nat>,
                                                      query: C, compact: set<nat> -> bool, id: nat)
    requires |constraints| == |dense| && WellBuilt(schema, constraints, dense)
    ensures Plans.Accepts(RuleAt(schema, constraints, dense, query, compact), id) <==>
            Selected(schema, constraints, dense, query, id, false)
  {
    match schema
    case Include(_, _, _) => IncludeMeaning(schema, constraints, dense, query, compact, id);
    case Compare(_, _, _) => CompareMeaning(schema, constraints, dense, query, compact, id);
    case Exclude(_) => ExcludeMeaning(schema, constraints, dense, query, compact, id);
    case All(children) =>
      var rule := RuleAt(schema, constraints, dense, query, compact);
      forall c | 0 <= c < |children|
        ensures Plans.Accepts(rule.children[c], id) <==> Selected(children[c], constraints, dense, query, id, false)
      {
        RuleMeaning(children[c], constraints, dense, query, compact, id);
      }
  }

  // ----- the rule tree is sound -----

  /** Every dense ID below the bound is some entry's, and no other is. */
  ghost predicate Covers(dense: seq<nat>, total: nat) {
    && (forall k :: 0 <= k < |dense| ==> dense[k] < total)
    && (forall id: nat :: id < total ==> id in dense)
  }

  /** Leaves with one descriptor are one rule of the schema. */
  ghost predicate Registered<C, K, V>(schema: Schema<C, K, V>, leaves: map<nat, Schema<C, K, V>>) {
    match schema
    case Exclude(_) => true
    case All(children) => forall c :: 0 <= c < |children| ==> Registered(children[c], leaves)
    case _ => schema.descriptor in leaves && leaves[schema.descriptor] == schema
  }

  ghost predicate LeavesOnly<C, K, V>(leaves: map<nat, Schema<C, K, V>>) {
    forall d :: d in leaves ==> leaves[d].Include? || leaves[d].Compare?
  }

  /** The results that the descriptors stand for at a query. */
  ghost function ResultsOf<C, K, V>(leaves: map<nat, Schema<C, K, V>>, constraints: seq<C>, dense: seq<nat>, query: C,
                                    compact: set<nat> -> bool): map<nat, set<nat>>
    requires |constraints| == |dense| && LeavesOnly(leaves)
  {
    map d | d in leaves :: RuleAt(leaves[d], constraints, dense, query, compact).result
  }

  lemma {:induction false} EqualityRuleProper<K>(descriptor: nat, entries: seq<Entry<K>>, query: Option<K>,
                                                 compact: set<nat> -> bool, total: nat)
    requires (set k | 0 <= k < |entries| :: entries[k].id) == Plans.Universe(total)
    ensures Plans.Proper(EqualityRule(descriptor, Built(entries), query, compact), total)
  {
    var leaf := Built(entries);
    BuiltUniverse(entries);
    if query.Some? {
      PositionFinds(leaf.keys, leaf.sets, query.value);
      EqualityAntonyms.PostingWithin(leaf.keys, leaf.sets, query.value);
    }
  }

  lemma {:induction false} EntriesCover<K>(entries: seq<Entry<K>>, dense: seq<nat>, total: nat)
    requires |entries| == |dense| && Covers(dense, total) && forall k :: 0 <= k < |dense| ==> entries[k].id == dense[k]
    ensures (set k | 0 <= k < |entries| :: entries[k].id) == Plans.Universe(total)
  {
    forall id | id in Plans.Universe(total)
      ensures id in set k | 0 <= k < |entries| :: entries[k].id
    {
      assert id in dense;
      var k :| 0 <= k < |dense| && dense[k] == id;
      assert entries[k].id == id;
    }
  }

  lemma {:induction false} CompareRuleProper<C, K, V(!new)>(schema: Schema<C, K, V>, constraints: seq<C>,
                                                            dense: seq<nat>, query: C,
                                                            compact: set<nat> -> bool, total: nat)
    requires |constraints| == |dense| && schema.Compare? && WellBuilt(schema, constraints, dense)
             && Covers(dense, total)
    ensures Plans.Proper(RuleAt(schema, constraints, dense, query, compact), total)
  {
    var rule := RuleAt(schema, constraints, dense, query, compact);
    forall id | id in rule.result
      ensures id < total
    {
      CompareMeaning(schema, constraints, dense, query, compact, id);
    }
    assert |rule.result| <= schema.index.estimate(rule.result);
  }

  /** The tree meets everything that building an index assumes. */
  lemma {:induction false} RuleSound<C, K, V(!new)>(schema: Schema<C, K, V>, constraints: seq<C>, dense: seq<nat>,
                                                    query: C, compact: set<nat> -> bool, total: nat,
                                                    leaves: map<nat, Schema<C, K, V>>)
    requires |constraints| == |dense| && WellBuilt(schema, constraints, dense) && Covers(dense, total)
    requires Registered(schema, leaves) && LeavesOnly(leaves)
    ensures Plans.Sound(RuleAt(schema, constraints, dense, query, compact), total,
                        ResultsOf(leaves, constraints, dense, query, compact))
  {
    var known := ResultsOf(leaves, constraints, dense, query, compact);
    match schema
    case Include(descriptor, get, key) =>
      EntriesCover(LeafEntries(constraints, dense, get, key), dense, total);
      EqualityRuleProper(descriptor, LeafEntries(constraints, dense, get, key), Keyed(get(query), key), compact, total);
    case Compare(_, _, _) => CompareRuleProper(schema, constraints, dense, query, compact, total);
    case Exclude(_) => ExcludeMeaning(schema, constraints, dense, query, compact, 0);
    case All(children) =>
      var rule := RuleAt(schema, constraints, dense, query, compact);
      forall c | 0 <= c < |children|
        ensures Plans.Sound(rule.children[c], total, known)
      {
        RuleSound(children[c], constraints, dense, query, compact, total, leaves);
      }
  }

  // ----- exclusions without values -----

  ghost predicate HasNoExclusion<C, K, V>(schema: Schema<C, K, V>) {
    match schema
    case Exclude(_) => false
    case All(children) => forall c :: 0 <= c < |children| ==> HasNoExclusion(children[c])
    case _ => true
  }

  /** No entry has a value that an exclusion of the schema would store. */
  ghost predicate NothingExcluded<C, K, V>(schema: Schema<C, K, V>, constraints: seq<C>) {
    match schema
    case Exclude(get) => forall k :: 0 <= k < |constraints| ==> get(constraints[k]).None?
    case All(children) => forall c :: 0 <= c < |children| ==> NothingExcluded(children[c], constraints)
    case _ => true
  }

  lemma {:induction false} ExclusionsAt<C, K, V>(schema: Schema<C, K, V>, constraints: seq<C>, dense: seq<nat>,
                                                 query: C, compact: set<nat> -> bool)
    requires |constraints| == |dense|
    ensures var rule := RuleAt(schema, constraints, dense, query, compact);
            && (Plans.Answers(Plans.HasNoExclusion, rule) <==> HasNoExclusion(schema))
            && (Plans.Answers(Plans.HasNoStoringExclusion, rule) <==> NothingExcluded(schema, constraints))
  {
    var rule := RuleAt(schema, constraints, dense, query, compact);
    match schema
    case Exclude(_) => ExcludeMeaning(schema, constraints, dense, query, compact, 0);
    case All(children) =>
      forall c | 0 <= c < |children|
        ensures Plans.Answers(Plans.HasNoExclusion, rule.children[c]) <==> HasNoExclusion(children[c])
        ensures Plans.Answers(Plans.HasNoStoringExclusion, rule.children[c]) <==>
                  NothingExcluded(children[c], constraints)
      {
        ExclusionsAt(children[c], constraints, dense, query, compact);
      }
    case _ =>
  }

  // ----- external IDs -----

  /** The dense ID of each entry is the position of its external ID among the first occurrences. */
  ghost predicate Assigned<ID>(ids: seq<ID>, dense: seq<nat>) {
    var values := Plans.FirstOccurrences(ids);
    |dense| == |ids| && forall k :: 0 <= k < |ids| ==> dense[k] < |values| && values[dense[k]] == ids[k]
  }

  lemma {:induction false} AssignedCovers<ID(!new)>(ids: seq<ID>, dense: seq<nat>)
    requires Assigned(ids, dense)
    ensures Covers(dense, |Plans.FirstOccurrences(ids)|)
    ensures forall k, v :: 0 <= k < |ids| && 0 <= v < |Plans.FirstOccurrences(ids)| ==>
              (dense[k] == v <==> ids[k] == Plans.FirstOccurrences(ids)[v])
  {
    var values := Plans.FirstOccurrences(ids);
    Plans.FirstOccurrencesDistinct(ids);
    forall id: nat | id < |values|
      ensures id in dense
    {
      assert values[id] in values && values[id] in ids;
      var k :| 0 <= k < |ids| && ids[k] == values[id];
      assert dense[k] == id;
    }
  }

  /** Dense and external IDs name the same entries. */
  lemma {:induction false} SelectedRenamed<C, K, V, ID(!new)>(schema: Schema<C, K, V>, constraints: seq<C>,
                                                              ids: seq<ID>, dense: seq<nat>, query: C,
                                                        v: nat, exact: bool)
    requires |constraints| == |ids| && Assigned(ids, dense) && v < |Plans.FirstOccurrences(ids)|
    ensures Selected(schema, constraints, dense, query, v, exact) <==>
            Selected(schema, constraints, ids, query, Plans.FirstOccurrences(ids)[v], exact)
  {
    AssignedCovers(ids, dense);
    if schema.All? {
      forall c | 0 <= c < |schema.children|
        ensures Selected(schema.children[c], constraints, dense, query, v, exact) <==>
                Selected(schema.children[c], constraints, ids, query, Plans.FirstOccurrences(ids)[v], exact)
      {
        SelectedRenamed(schema.children[c], constraints, ids, dense, query, v, exact);
      }
    }
  }

  // ----- searching -----

  /** The selected ones among the first `n` external IDs, in the order in which they were first inserted. */
  ghost function Chosen<C, K, V, ID>(schema: Schema<C, K, V>, constraints: seq<C>, ids: seq<ID>, query: C, exact: bool,
                                     n: nat): (chosen: seq<ID>)
    requires |constraints| == |ids| && n <= |Plans.FirstOccurrences(ids)|
  {
    if n == 0 then []
    else
      var last := Plans.FirstOccurrences(ids)[n - 1];
      Chosen(schema, constraints, ids, query, exact, n - 1)
        + if Selected(schema, constraints, ids, query, last, exact) then [last] else []
  }

  /** The expected result of a search. */
  ghost function Expected<C, K, V, ID>(schema: Schema<C, K, V>, constraints: seq<C>, ids: seq<ID>, query: C,
                                       exact: bool): seq<ID>
    requires |constraints| == |ids|
  {
    Chosen(schema, constraints, ids, query, exact, |Plans.FirstOccurrences(ids)|)
  }

  lemma {:induction false} ListedIsChosen<C, K, V, ID>(schema: Schema<C, K, V>, constraints: seq<C>, ids: seq<ID>,
                                                       query: C, exact: bool, bits: set<nat>, n: nat)
    requires |constraints| == |ids| && n <= |Plans.FirstOccurrences(ids)|
    requires forall v: nat :: v < n ==>
               (v in bits <==> Selected(schema, constraints, ids, query, Plans.FirstOccurrences(ids)[v], exact))
    ensures AllSearch.Listed(bits, Plans.FirstOccurrences(ids), n) == Chosen(schema, constraints, ids, query, exact, n)
  {
    if n > 0 {
      ListedIsChosen(schema, constraints, ids, query, exact, bits, n - 1);
    }
  }

  /** Exactly the selected IDs are chosen, each once. */
  lemma {:induction false} ChosenMembers<C, K, V, ID(!new)>(schema: Schema<C, K, V>, constraints: seq<C>, ids: seq<ID>,
                                                            query: C, exact: bool, n: nat)
    requires |constraints| == |ids| && n <= |Plans.FirstOccurrences(ids)|
    ensures var chosen := Chosen(schema, constraints, ids, query, exact, n);
            && (forall id :: id in chosen <==>
                id in Plans.FirstOccurrences(ids)[..n] && Selected(schema, constraints, ids, query, id, exact))
            && (forall i, j :: 0 <= i < j < |chosen| ==> chosen[i] != chosen[j])
  {
    var values := Plans.FirstOccurrences(ids);
    Plans.FirstOccurrencesDistinct(ids);
    if n > 0 {
      ChosenMembers(schema, constraints, ids, query, exact, n - 1);
      assert values[..n] == values[..n - 1] + [values[n - 1]];
      var before := Chosen(schema, constraints, ids, query, exact, n - 1);
      forall i | 0 <= i < |before|
        ensures before[i] != values[n - 1]
      {
        assert before[i] in before && before[i] in values[..n - 1];
      }
    }
  }

  /** No match is lost, and as long as no leaf has lost precision the result is the documented one. */
  lemma {:induction false} ExpectedKeepsMatches<C, K(!new), V(!new), ID(!new)>(schema: Schema<C, K, V>,
          constraints: seq<C>, ids: seq<ID>,
                                                                        dense: seq<nat>, query: C)
    requires |constraints| == |ids| && Assigned(ids, dense) && WellBuilt(schema, constraints, dense)
    ensures forall id :: id in Expected(schema, constraints, ids, query, true) ==>
              id in Expected(schema, constraints, ids, query, false)
    ensures Exact(schema) ==>
              Expected(schema, constraints, ids, query, false) == Expected(schema, constraints, ids, query, true)
  {
    var n := |Plans.FirstOccurrences(ids)|;
    forall id
      ensures Selected(schema, constraints, ids, query, id, true) ==>
                Selected(schema, constraints, ids, query, id, false)
      ensures Exact(schema) ==>
                (Selected(schema, constraints, ids, query, id, false) <==>
                 Selected(schema, constraints, ids, query, id, true))
    {
      NoMatchLost(schema, constraints, ids, dense, query, id);
    }
    ChosenMembers(schema, constraints, ids, query, true, n);
    ChosenMembers(schema, constraints, ids, query, false, n);
    forall id | id in Expected(schema, constraints, ids, query, true)
      ensures id in Expected(schema, constraints, ids, query, false)
    {
      assert id in Chosen(schema, constraints, ids, query, true, n);
    }
    if Exact(schema) {
      ChosenSame(schema, constraints, ids, query, n);
    }
  }

  lemma {:induction false} ChosenSame<C, K, V, ID(!new)>(schema: Schema<C, K, V>, constraints: seq<C>, ids: seq<ID>,
                                                         query: C, n: nat)
    requires |constraints| == |ids| && n <= |Plans.FirstOccurrences(ids)|
    requires forall id :: id in ids ==>
               (Selected(schema, constraints, ids, query, id, false) <==>
                Selected(schema, constraints, ids, query, id, true))
    ensures Chosen(schema, constraints, ids, query, false, n) == Chosen(schema, constraints, ids, query, true, n)
  {
    if n > 0 {
      ChosenSame(schema, constraints, ids, query, n - 1);
      Plans.FirstOccurrencesDistinct(ids);
      var values := Plans.FirstOccurrences(ids);
      assert values[n - 1] in values && values[n - 1] in ids;
    }
  }

  ghost predicate TooManyRules<ID>(ids: seq<ID>) {
    exists k :: 0 <= k < |ids| && |Plans.FirstOccurrences(ids[..k])| >= Plans.MAX_RULES
  }

  ghost predicate TooManyBitmaps<C, K, V, ID>(schema: Schema<C, K, V>, constraints: seq<C>, ids: seq<ID>, query: C,
                                              compact: set<nat> -> bool)
    requires |constraints| == |ids|
  {
    exists dense :: Assigned(ids, dense)
      && BitmapsExhausted(RuleAt(schema, constraints, dense, query, compact), |Plans.FirstOccurrences(ids)|)
  }

  ghost predicate BitmapsExhausted(rule: Plans.Rule, total: nat) {
    var root := Plans.Build(rule, total).root;
    root.All? && |BuiltSearch.AllBitmaps(root.children)| >= EqualityClasses.SOURCE_LIMIT
  }

  /**
   Building an index from the entries and searching it. The external IDs whose entries satisfy every rule are appended
   once each, in the order of first insertion, if some exclusion stores a value or the schema has none; otherwise
   nothing is. A search can fail only for 2^32 rules or 2^32 different bitmaps.
   */
  method SearchEntries<C, K(==, !new), V(!new), ID(==, !new)>(schema: Schema<C, K, V>, constraints: seq<C>,
                                                              ids: seq<ID>, query: C, compact: set<nat> -> bool,
                                                              checksum: set<nat> -> nat, result: seq<ID>,
                                                              ghost leaves: map<nat, Schema<C, K, V>>)
    returns (appended: Option<seq<ID>>)
    requires |constraints| == |ids| && Registered(schema, leaves) && LeavesOnly(leaves)
    requires forall dense :: Assigned(ids, dense) ==> WellBuilt(schema, constraints, dense)
    ensures appended.Some? && (HasNoExclusion(schema) || !NothingExcluded(schema, constraints)) ==>
              appended.value == result + Expected(schema, constraints, ids, query, false)
    ensures appended.Some? && !HasNoExclusion(schema) && NothingExcluded(schema, constraints) ==>
              appended.value == result
    ensures appended.None? ==> TooManyRules(ids) || TooManyBitmaps(schema, constraints, ids, query, compact)
  {
    var values, internal := Plans.AssignDenseIDs(ids);
    if internal.None? {
      return None;
    }
    var dense := internal.value;
    assert Assigned(ids, dense);
    AssignedCovers(ids, dense);
    var rule := RuleAt(schema, constraints, dense, query, compact);
    RuleSound(schema, constraints, dense, query, compact, |values|, leaves);
    ExclusionsAt(schema, constraints, dense, query, compact);
    ghost var known := ResultsOf(leaves, constraints, dense, query, compact);
    appended := BuiltSearch.BuildAndSearch(rule, checksum, values, result, known);
    forall v: nat | v < |values|
      ensures v in BuiltSearch.Accepted(rule, |values|) <==> Selected(schema, constraints, ids, query, values[v], false)
    {
      RuleMeaning(schema, constraints, dense, query, compact, v);
      SelectedRenamed(schema, constraints, ids, dense, query, v, false);
    }
    ListedIsChosen(schema, constraints, ids, query, false, BuiltSearch.Accepted(rule, |values|), |values|);
  }

  /**
   Filling an ordered index entry by entry, with a merge whenever memory pressure asks for one, leaves boundaries of
   the kind that a search relies on.
   */
  method BuildBoundaries<C, V(!new)>(part: OrderedPart<V>, measure: C -> Option<V>, constraints: seq<C>,
                                     dense: seq<nat>, inclusive: bool, estimate: set<nat> -> nat)
    returns (index: Boundaries<V>)
    requires part.Valid() && part.index.Building() && part.stored == iset{} && |constraints| == |dense|
    requires forall bits: set<nat> :: |bits| <= estimate(bits)
    modifies part, part.index
    ensures BuiltFrom(index, StoredPairs(measure, constraints, dense))
    ensures index.upward == part.upward && index.inclusive == inclusive && index.merged == part.quantized
    ensures index.compare == old(part.index.compare)
  {
    hide OrderedPart.Valid;
    ghost var compare := part.index.compare;
    var k := 0;
    while k < |dense|
      invariant 0 <= k <= |dense| && part.Valid() && part.index.Building() && part.index.compare == compare
      invariant part.index == old(part.index) || fresh(part.index)
      invariant part.stored == StoredPairs(measure, constraints[..k], dense[..k])
    {
      if measure(constraints[k]).Some? {
        part.Insert(measure(constraints[k]).value, dense[k]);
      }
      PairAdded(measure, constraints, dense, k);
      var pressure: bool := *;
      if pressure {
        MergeBest(part);
      }
      k := k + 1;
    }
    assert constraints[..k] == constraints && dense[..k] == dense;
    index := BoundariesOf(part, inclusive, estimate);
  }

  lemma {:induction false} PairAdded<C, V(!new)>(measure: C -> Option<V>, constraints: seq<C>, dense: seq<nat>, k: nat)
    requires |constraints| == |dense| && k < |dense|
    ensures StoredPairs(measure, constraints[..k + 1], dense[..k + 1])
              == StoredPairs(measure, constraints[..k], dense[..k])
            + if measure(constraints[k]).Some? then iset{(measure(constraints[k]).value, dense[k])} else iset{}
  {
  }

  /** One lossy step, if there are two boundaries left. */
  method MergeBest<V(!new)>(part: OrderedPart<V>)
    requires part.Valid() && part.index.Building()
    modifies part, part.index
    ensures part.Valid() && part.index.Building() && part.stored == old(part.stored)
            && part.index.compare == old(part.index.compare)
    ensures part.index == old(part.index) || fresh(part.index)
    ensures if |old(part.index.Items())| > 1
              then exists p :: old(part.Best(p))
                               && part.index.Items() == Merged(old(part.index.Items()), p, part.upward)
              else part.index == old(part.index)
  {
    hide Tracks, TracksEqual, Unmerged;
    var best := BestMerge(part.index);
    part.BestIs(best);
    if best.Some? {
      part.Merge(best.value.position);
    }
  }

  method BoundariesOf<V(!new)>(part: OrderedPart<V>, inclusive: bool, estimate: set<nat> -> nat)
    returns (index: Boundaries<V>)
    requires part.Valid() && forall bits: set<nat> :: |bits| <= estimate(bits)
    ensures BuiltFrom(index, part.stored) && index.compare == part.index.compare
    ensures index.upward == part.upward && index.inclusive == inclusive && index.merged == part.quantized
  {
    var items := part.index.Items();
    index := Boundaries(part.index.compare, items, part.upward, inclusive, part.quantized, estimate);
  }
}
