/**
 The meaning of an ordered index: a strictly sorted list of (value, posting) items. Block layout,
 routing tables and aggregates are refinements of the functions defined here.
 */
module OrderedItems {
  import opened Bitmaps

  datatype Item<V> = Item(value: V, bits: set<nat>)

  /** What an application comparator must be: a total preorder, so distinct values may compare equal. */
  ghost predicate TotalPreorder<V(!new)>(compare: (V, V) -> int) {
    && (forall a, b :: compare(a, b) < 0 <==> compare(b, a) > 0)
    && (forall a, b, c :: Chain(compare, a, b, c) ==> compare(a, c) <= 0)
  }

  ghost predicate Chain<V>(compare: (V, V) -> int, a: V, b: V, c: V) {
    compare(a, b) <= 0 && compare(b, c) <= 0
  }

  ghost predicate Sorted<V>(compare: (V, V) -> int, items: seq<Item<V>>) {
    forall i, j :: 0 <= i < j < |items| ==> compare(items[i].value, items[j].value) < 0
  }

  /** Whether a stored value that compares as `c` to the query lies on the requested side. */
  predicate Keeps(c: int, ascending: bool, inclusive: bool) {
    (if ascending then c > 0 else c < 0) || (inclusive && c == 0)
  }

  /** A plain scan: the IDs of every item on the requested side of the query. */
  function Select<V>(compare: (V, V) -> int, items: seq<Item<V>>, query: V, ascending: bool,
                     inclusive: bool): set<nat> {
    if items == [] then {}
    else (if Keeps(compare(items[0].value, query), ascending, inclusive) then items[0].bits else {})
         + Select(compare, items[1..], query, ascending, inclusive)
  }

  /** The IDs of all items. */
  function Postings<V>(items: seq<Item<V>>): set<nat> {
    if items == [] then {} else items[0].bits + Postings(items[1..])
  }

  ghost predicate AllBelow<V>(compare: (V, V) -> int, items: seq<Item<V>>, value: V) {
    forall k :: 0 <= k < |items| ==> compare(items[k].value, value) < 0
  }

  ghost predicate AllAbove<V>(compare: (V, V) -> int, items: seq<Item<V>>, value: V) {
    forall k :: 0 <= k < |items| ==> compare(items[k].value, value) > 0
  }

  /** `p` items are strictly below the value. */
  ghost predicate IsRank<V>(compare: (V, V) -> int, items: seq<Item<V>>, value: V, p: nat) {
    p <= |items| && AllBelow(compare, items[..p], value) && (p < |items| ==> compare(items[p].value, value) >= 0)
  }

  lemma {:induction false} BelowConcat<V>(compare: (V, V) -> int, a: seq<Item<V>>, b: seq<Item<V>>, value: V)
    requires AllBelow(compare, a, value) && AllBelow(compare, b, value)
    ensures AllBelow(compare, a + b, value)
  {
  }

  // ----- order facts -----

  lemma {:induction false} StrictlyBelow<V(!new)>(compare: (V, V) -> int, a: V, b: V, c: V)
    requires TotalPreorder(compare)
    requires compare(a, b) <= 0 && compare(b, c) <= 0 && (compare(a, b) < 0 || compare(b, c) < 0)
    ensures compare(a, c) < 0
  {
    assert Chain(compare, a, b, c);
    assert compare(a, c) == 0 ==> Chain(compare, b, c, a) && Chain(compare, c, a, b);
  }

  /** A query cuts a sorted list: once an item is not above it, every earlier item is strictly below. */
  lemma {:induction false} CutAt<V(!new)>(compare: (V, V) -> int, items: seq<Item<V>>, query: V)
    requires TotalPreorder(compare) && Sorted(compare, items)
    ensures forall i, j :: 0 <= i < j < |items| && compare(items[j].value, query) <= 0 ==>
              compare(items[i].value, query) < 0
  {
    forall i, j | 0 <= i < j < |items| && compare(items[j].value, query) <= 0
      ensures compare(items[i].value, query) < 0
    {
      StrictlyBelow(compare, items[i].value, items[j].value, query);
    }
  }

  // ----- scan facts -----

  lemma {:induction false} SelectConcat<V>(compare: (V, V) -> int, a: seq<Item<V>>, b: seq<Item<V>>, query: V,
                                           ascending: bool, inclusive: bool)
    ensures Select(compare, a + b, query, ascending, inclusive)
         == Select(compare, a, query, ascending, inclusive) + Select(compare, b, query, ascending, inclusive)
  {
    if a == [] {
      assert a + b == b;
    } else {
      assert (a + b)[1..] == a[1..] + b;
      SelectConcat(compare, a[1..], b, query, ascending, inclusive);
    }
  }

  lemma {:induction false} SelectAll<V>(compare: (V, V) -> int, items: seq<Item<V>>, query: V, ascending: bool,
                                        inclusive: bool)
    requires forall k :: 0 <= k < |items| ==> Keeps(compare(items[k].value, query), ascending, inclusive)
    ensures Select(compare, items, query, ascending, inclusive) == Postings(items)
  {
    if items != [] {
      SelectAll(compare, items[1..], query, ascending, inclusive);
    }
  }

  lemma {:induction false} SelectNone<V>(compare: (V, V) -> int, items: seq<Item<V>>, query: V, ascending: bool,
                                         inclusive: bool)
    requires forall k :: 0 <= k < |items| ==> !Keeps(compare(items[k].value, query), ascending, inclusive)
    ensures Select(compare, items, query, ascending, inclusive) == {}
  {
    if items != [] {
      SelectNone(compare, items[1..], query, ascending, inclusive);
    }
  }

  /** Some item with this ID has a value below, not above, above or not below the query, as the walk asks. */
  ghost predicate HeldOnSide<V>(compare: (V, V) -> int, items: seq<Item<V>>, query: V, ascending: bool,
                                inclusive: bool, id: nat) {
    exists k :: 0 <= k < |items| && id in items[k].bits
      && var c := compare(items[k].value, query);
         if ascending then (if inclusive then c >= 0 else c > 0) else (if inclusive then c <= 0 else c < 0)
  }

  lemma {:induction false} SelectMember<V>(compare: (V, V) -> int, items: seq<Item<V>>, query: V, ascending: bool,
                                           inclusive: bool, id: nat)
    ensures id in Select(compare, items, query, ascending, inclusive) <==>
              HeldOnSide(compare, items, query, ascending, inclusive, id)
  {
    if items != [] {
      SelectMember(compare, items[1..], query, ascending, inclusive, id);
      assert forall k :: 0 < k < |items| ==> items[1..][k - 1] == items[k];
      assert HeldOnSide(compare, items[1..], query, ascending, inclusive, id) ==>
               exists k :: 0 <= k < |items[1..]| && items[k + 1] == items[1..][k] && id in items[1..][k].bits
                 && Keeps(compare(items[1..][k].value, query), ascending, inclusive);
    }
  }

  lemma {:induction false} PostingsConcat<V>(a: seq<Item<V>>, b: seq<Item<V>>)
    ensures Postings(a + b) == Postings(a) + Postings(b)
  {
    if a == [] {
      assert a + b == b;
    } else {
      assert (a + b)[1..] == a[1..] + b;
      PostingsConcat(a[1..], b);
    }
  }

  // ----- insertion -----

  /** Reference insertion into a sorted list; a value that compares equal keeps the first representative. */
  function Inserted<V>(compare: (V, V) -> int, items: seq<Item<V>>, value: V, bits: set<nat>): seq<Item<V>> {
    if items == [] then [Item(value, bits)]
    else if compare(items[0].value, value) < 0 then [items[0]] + Inserted(compare, items[1..], value, bits)
    else if compare(items[0].value, value) == 0 then [Item(items[0].value, items[0].bits + bits)] + items[1..]
    else [Item(value, bits)] + items
  }

  lemma {:induction false} InsertedAfter<V>(compare: (V, V) -> int, below: seq<Item<V>>, rest: seq<Item<V>>, value: V,
                                            bits: set<nat>)
    requires AllBelow(compare, below, value)
    ensures Inserted(compare, below + rest, value, bits) == below + Inserted(compare, rest, value, bits)
  {
    if below == [] {
      assert below + rest == rest;
      assert below + Inserted(compare, rest, value, bits) == Inserted(compare, rest, value, bits);
    } else {
      assert (below + rest)[1..] == below[1..] + rest;
      InsertedAfter(compare, below[1..], rest, value, bits);
    }
  }

  // ----- merging neighbours -----

  /** Merges items `position` and `position + 1` under the outward boundary: the upper value when rounding up. */
  function Merged<V>(items: seq<Item<V>>, position: nat, upward: bool): seq<Item<V>>
    requires position + 1 < |items|
  {
    items[..position]
    + [Item(items[if upward then position + 1 else position].value, items[position].bits + items[position + 1].bits)]
    + items[position + 2..]
  }

  // ----- point lookups -----

  /** The posting of the value that compares equal to the query. */
  ghost function EqualTo<V>(compare: (V, V) -> int, items: seq<Item<V>>, query: V): Option<set<nat>> {
    if items == [] then None
    else if compare(items[0].value, query) == 0 then Some(items[0].bits)
    else EqualTo(compare, items[1..], query)
  }

  /** The posting of the first value not below the query. */
  ghost function AtOrAbove<V>(compare: (V, V) -> int, items: seq<Item<V>>, query: V): Option<set<nat>> {
    if items == [] then None
    else if compare(items[0].value, query) >= 0 then Some(items[0].bits)
    else AtOrAbove(compare, items[1..], query)
  }

  lemma {:induction false} EqualToFound<V>(compare: (V, V) -> int, items: seq<Item<V>>, query: V)
    ensures EqualTo(compare, items, query).Some? <==>
              exists k :: 0 <= k < |items| && compare(items[k].value, query) == 0
    ensures EqualTo(compare, items, query).Some? ==>
              exists k :: 0 <= k < |items| && compare(items[k].value, query) == 0
                && EqualTo(compare, items, query).value == items[k].bits
  {
    if items != [] && compare(items[0].value, query) != 0 {
      EqualToFound(compare, items[1..], query);
      if k :| 0 <= k < |items[1..]| && compare(items[1..][k].value, query) == 0
              && EqualTo(compare, items[1..], query) == Some(items[1..][k].bits) {
        assert items[k + 1] == items[1..][k];
      }
      if k :| 0 <= k < |items| && compare(items[k].value, query) == 0 {
        assert items[1..][k - 1] == items[k];
      }
    }
  }

  lemma {:induction false} LookupAtRank<V(!new)>(compare: (V, V) -> int, items: seq<Item<V>>, query: V, p: nat)
    requires TotalPreorder(compare) && Sorted(compare, items) && IsRank(compare, items, query, p)
    ensures AtOrAbove(compare, items, query) == if p < |items| then Some(items[p].bits) else None
    ensures EqualTo(compare, items, query)
            == if p < |items| && compare(items[p].value, query) == 0 then Some(items[p].bits) else None
  {
    if p > 0 {
      assert items[..p][0] == items[0] && items[1..][..p - 1] == items[..p][1..];
      assert AllBelow(compare, items[1..][..p - 1], query);
      LookupAtRank(compare, items[1..], query, p - 1);
    } else if items != [] && compare(items[0].value, query) != 0 {
      CutAt(compare, items, query);
      EqualToFound(compare, items, query);
    }
  }
}
