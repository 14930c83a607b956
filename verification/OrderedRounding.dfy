/**
 What an ordered index means while lossy compilation merges its boundaries. Every stored value belongs
 to one boundary: the smallest boundary not below it when rounding up, the largest not above it when
 rounding down. The lemmas show that every build step keeps that reading.
 */
module OrderedRounding {
  import opened Bitmaps
  import opened OrderedItems

  /** Boundary `k` is the outward-rounded form of `value`. */
  predicate RoundsTo<V>(compare: (V, V) -> int, items: seq<Item<V>>, value: V, k: nat, upward: bool)
    requires k < |items|
  {
    if upward then
      compare(value, items[k].value) <= 0 && (k > 0 ==> compare(items[k - 1].value, value) < 0)
    else
      compare(items[k].value, value) <= 0 && (k + 1 < |items| ==> compare(value, items[k + 1].value) < 0)
  }

  ghost predicate Covered<V>(compare: (V, V) -> int, items: seq<Item<V>>, value: V, upward: bool) {
    exists k: nat :: k < |items| && RoundsTo(compare, items, value, k, upward)
  }

  /** The boundary a late value is stored under: its rounded form, or itself beyond the outermost boundary. */
  ghost predicate IsRounded<V(!new)>(compare: (V, V) -> int, items: seq<Item<V>>, value: V, upward: bool, rounded: V) {
    if Covered(compare, items, value, upward)
    then exists k: nat :: k < |items| && RoundsTo(compare, items, value, k, upward) && rounded == items[k].value
    else rounded == value
  }

  /** Each posting holds exactly the IDs whose stored value rounds to its boundary, and no value is homeless. */
  ghost predicate Tracks<V(!new)>(compare: (V, V) -> int, items: seq<Item<V>>, stored: iset<(V, nat)>, upward: bool) {
    && (forall p :: p in stored ==> Covered(compare, items, p.0, upward))
    && (forall k: nat, id: nat :: k < |items| ==>
         (id in items[k].bits <==> Housed(compare, items, stored, k, id, upward)))
  }

  /** Some value stored for `id` rounds to boundary `k`. */
  ghost predicate Housed<V(!new)>(compare: (V, V) -> int, items: seq<Item<V>>, stored: iset<(V, nat)>, k: nat, id: nat,
                                  upward: bool)
    requires k < |items|
  {
    exists p :: p in stored && p.1 == id && RoundsTo(compare, items, p.0, k, upward)
  }

  /** Nothing has been merged yet: every stored value still has a boundary that compares equal to it. */
  ghost predicate Unmerged<V(!new)>(compare: (V, V) -> int, items: seq<Item<V>>, stored: iset<(V, nat)>) {
    forall p :: p in stored ==> exists k: nat :: k < |items| && compare(items[k].value, p.0) == 0
  }

  lemma {:induction false} RoundsToOne<V(!new)>(compare: (V, V) -> int, items: seq<Item<V>>, value: V, j: nat, k: nat,
                                                upward: bool)
    requires TotalPreorder(compare) && Sorted(compare, items)
    requires j < |items| && k < |items|
    requires RoundsTo(compare, items, value, j, upward) && RoundsTo(compare, items, value, k, upward)
    ensures j == k
  {
    CutAt(compare, items, value);
  }

  /** Where insertion puts a value. */
  lemma {:induction false} InsertedShape<V>(compare: (V, V) -> int, items: seq<Item<V>>, value: V, bits: set<nat>)
    returns (p: nat)
    ensures p <= |items|
    ensures forall k :: 0 <= k < p ==> compare(items[k].value, value) < 0
    ensures p < |items| ==> compare(items[p].value, value) >= 0
    ensures Inserted(compare, items, value, bits) ==
            if p < |items| && compare(items[p].value, value) == 0
            then items[p := Item(items[p].value, items[p].bits + bits)]
            else items[..p] + [Item(value, bits)] + items[p..]
  {
    if items == [] || compare(items[0].value, value) >= 0 {
      p := 0;
      assert items[..0] == [] && items[0..] == items;
      if items != [] && compare(items[0].value, value) == 0 {
        assert items[0 := Item(items[0].value, items[0].bits + bits)]
                 == [Item(items[0].value, items[0].bits + bits)] + items[1..];
      }
    } else {
      var rest := items[1..];
      var q := InsertedShape(compare, rest, value, bits);
      p := q + 1;
      assert items == [items[0]] + rest;
      if q < |rest| && compare(rest[q].value, value) == 0 {
        ReplacedBehind(items, q, Item(rest[q].value, rest[q].bits + bits));
      } else {
        PlacedBehind(items, q, Item(value, bits));
      }
    }
  }

  lemma {:induction false} ReplacedBehind<V>(items: seq<Item<V>>, q: nat, item: Item<V>)
    requires q + 1 < |items|
    ensures [items[0]] + items[1..][q := item] == items[q + 1 := item]
  {
  }

  lemma {:induction false} PlacedBehind<V>(items: seq<Item<V>>, q: nat, item: Item<V>)
    requires q < |items|
    ensures [items[0]] + (items[1..][..q] + [item] + items[1..][q..]) == items[..q + 1] + [item] + items[q + 1..]
  {
  }

  /** Inserting above everything appends. */
  lemma {:induction false} InsertedLast<V>(compare: (V, V) -> int, below: seq<Item<V>>, item: Item<V>,
                                           rest: seq<Item<V>>)
    requires Sorted(compare, below + [item] + rest)
    ensures Inserted(compare, below, item.value, item.bits) == below + [item]
  {
    var items := below + [item] + rest;
    forall k | 0 <= k < |below|
      ensures compare(below[k].value, item.value) < 0
    {
      assert items[k] == below[k] && items[|below|] == item;
    }
    InsertedAfter(compare, below, [], item.value, item.bits);
    assert below + [] == below;
  }

  /** Creating a boundary and then extending it is one insertion. */
  lemma {:induction false} InsertedTwice<V>(compare: (V, V) -> int, items: seq<Item<V>>, value: V, bits: set<nat>)
    requires compare(value, value) == 0
    ensures Inserted(compare, Inserted(compare, items, value, {}), value, bits) == Inserted(compare, items, value, bits)
  {
    if items == [] {
      assert Inserted(compare, items, value, {}) == [Item(value, {})] && {} + bits == bits;
    } else if compare(items[0].value, value) < 0 {
      InsertedTwice(compare, items[1..], value, bits);
      var once := Inserted(compare, items, value, {});
      assert once[0] == items[0] && once[1..] == Inserted(compare, items[1..], value, {});
    } else if compare(items[0].value, value) == 0 {
      var once := Inserted(compare, items, value, {});
      assert once[0] == items[0] && once[1..] == items[1..];
    } else {
      var once := Inserted(compare, items, value, {});
      assert once[0] == Item(value, {}) && once[1..] == items && {} + bits == bits;
    }
  }

  lemma {:induction false} InsertedHasValue<V>(compare: (V, V) -> int, items: seq<Item<V>>, value: V, bits: set<nat>)
    returns (k: nat)
    requires compare(value, value) == 0
    ensures k < |Inserted(compare, items, value, bits)|
            && compare(Inserted(compare, items, value, bits)[k].value, value) == 0
  {
    k := InsertedShape(compare, items, value, bits);
  }

  lemma {:induction false} InsertedNoEmpty<V>(compare: (V, V) -> int, items: seq<Item<V>>, value: V, bits: set<nat>)
    requires bits != {} && forall k :: 0 <= k < |items| ==> items[k].bits != {}
    ensures forall k :: 0 <= k < |Inserted(compare, items, value, bits)| ==>
              Inserted(compare, items, value, bits)[k].bits != {}
  {
    var p := InsertedShape(compare, items, value, bits);
  }

  /** Insertion keeps the list strictly sorted. */
  lemma {:induction false} InsertedSorted<V(!new)>(compare: (V, V) -> int, items: seq<Item<V>>, value: V,
                                                   bits: set<nat>)
    requires TotalPreorder(compare) && Sorted(compare, items)
    ensures Sorted(compare, Inserted(compare, items, value, bits))
  {
    var p := InsertedShape(compare, items, value, bits);
    CutAt(compare, items, value);
    var grown := Inserted(compare, items, value, bits);
    if !(p < |items| && compare(items[p].value, value) == 0) {
      forall i, j | 0 <= i < j < |grown|
        ensures compare(grown[i].value, grown[j].value) < 0
      {
        if i == p && j > p + 1 {
          StrictlyBelow(compare, value, items[p].value, items[j - 1].value);
        }
      }
    }
  }

  lemma {:induction false} MergedSorted<V(!new)>(compare: (V, V) -> int, items: seq<Item<V>>, position: nat,
                                                 upward: bool)
    requires Sorted(compare, items) && position + 1 < |items|
    ensures Sorted(compare, Merged(items, position, upward))
  {
  }

  // ----- every build step keeps the reading -----

  /** Late insertion under a rounded boundary, after boundaries may have been merged. */
  lemma {:induction false} InsertTracks<V(!new)>(compare: (V, V) -> int, items: seq<Item<V>>, stored: iset<(V, nat)>,
                                                 value: V, id: nat, rounded: V, upward: bool)
    requires TotalPreorder(compare) && Sorted(compare, items)
    requires Tracks(compare, items, stored, upward)
    requires IsRounded(compare, items, value, upward, rounded)
    ensures Tracks(compare, Inserted(compare, items, rounded, {id}), stored + iset{(value, id)}, upward)
  {
    var grown := Inserted(compare, items, rounded, {id});
    if Covered(compare, items, value, upward) {
      InsertInside(compare, items, stored, value, id, rounded, upward);
    } else {
      InsertBeyond(compare, items, stored, value, id, upward);
    }
  }

  lemma {:induction false} HousedPlus<V(!new)>(compare: (V, V) -> int, items: seq<Item<V>>, stored: iset<(V, nat)>,
                                               value: V, id: nat, k: nat, x: nat, upward: bool)
    requires k < |items|
    ensures Housed(compare, items, stored + iset{(value, id)}, k, x, upward)
       <==> Housed(compare, items, stored, k, x, upward) || (x == id && RoundsTo(compare, items, value, k, upward))
  {
    assert (value, id) in stored + iset{(value, id)};
    if p :| p in stored && p.1 == x && RoundsTo(compare, items, p.0, k, upward) {
      assert p in stored + iset{(value, id)};
    }
  }

  lemma {:induction false} InsertInside<V(!new)>(compare: (V, V) -> int, items: seq<Item<V>>, stored: iset<(V, nat)>,
                                                 value: V, id: nat, rounded: V, upward: bool)
    requires TotalPreorder(compare) && Sorted(compare, items)
    requires Tracks(compare, items, stored, upward)
    requires Covered(compare, items, value, upward) && IsRounded(compare, items, value, upward, rounded)
    ensures Tracks(compare, Inserted(compare, items, rounded, {id}), stored + iset{(value, id)}, upward)
  {
    var c: nat :| c < |items| && RoundsTo(compare, items, value, c, upward) && rounded == items[c].value;
    InsertedAt(compare, items, rounded, c, {id});
    var grown := items[c := Item(items[c].value, items[c].bits + {id})];
    forall k: nat, x: nat | k < |grown|
      ensures x in grown[k].bits <==> Housed(compare, grown, stored + iset{(value, id)}, k, x, upward)
    {
      InsideAt(compare, items, stored, value, id, c, k, x, upward);
    }
    SameCover(compare, items, grown, upward);
  }

  lemma {:induction false} SameCover<V(!new)>(compare: (V, V) -> int, items: seq<Item<V>>, others: seq<Item<V>>,
                                              upward: bool)
    requires |items| == |others| && forall k :: 0 <= k < |items| ==> others[k].value == items[k].value
    ensures forall v :: Covered(compare, items, v, upward) ==> Covered(compare, others, v, upward)
  {
    forall v | Covered(compare, items, v, upward)
      ensures Covered(compare, others, v, upward)
    {
      var k: nat :| k < |items| && RoundsTo(compare, items, v, k, upward);
      assert RoundsTo(compare, others, v, k, upward);
    }
  }

  lemma {:induction false} InsideAt<V(!new)>(compare: (V, V) -> int, items: seq<Item<V>>, stored: iset<(V, nat)>,
                                             value: V, id: nat, c: nat, k: nat, x: nat, upward: bool)
    requires TotalPreorder(compare) && Sorted(compare, items)
    requires Tracks(compare, items, stored, upward)
    requires c < |items| && k < |items| && RoundsTo(compare, items, value, c, upward)
    ensures var grown := items[c := Item(items[c].value, items[c].bits + {id})];
            x in grown[k].bits <==> Housed(compare, grown, stored + iset{(value, id)}, k, x, upward)
  {
    var grown := items[c := Item(items[c].value, items[c].bits + {id})];
    SameBoundaries(compare, items, grown, stored + iset{(value, id)}, k, x, upward);
    HousedPlus(compare, items, stored, value, id, k, x, upward);
    if RoundsTo(compare, items, value, k, upward) {
      RoundsToOne(compare, items, value, k, c, upward);
    }
  }

  /** Inserting an existing boundary only extends its posting. */
  lemma {:induction false} InsertedAt<V(!new)>(compare: (V, V) -> int, items: seq<Item<V>>, value: V, c: nat,
                                               bits: set<nat>)
    requires TotalPreorder(compare) && Sorted(compare, items) && c < |items|
    requires compare(items[c].value, value) == 0
    ensures Inserted(compare, items, value, bits) == items[c := Item(items[c].value, items[c].bits + bits)]
  {
    var p := InsertedShape(compare, items, value, bits);
    CutAt(compare, items, value);
    assert p == c;
  }

  lemma {:induction false} SameBoundaries<V(!new)>(compare: (V, V) -> int, items: seq<Item<V>>, others: seq<Item<V>>,
                                                   stored: iset<(V, nat)>, k: nat, x: nat, upward: bool)
    requires |items| == |others| && forall k :: 0 <= k < |items| ==> others[k].value == items[k].value
    requires k < |items|
    ensures Housed(compare, items, stored, k, x, upward) <==> Housed(compare, others, stored, k, x, upward)
  {
    forall p | p in stored
      ensures RoundsTo(compare, items, p.0, k, upward) <==> RoundsTo(compare, others, p.0, k, upward)
    {
    }
  }

  /** A value without a boundary lies beyond the outermost one. */
  lemma {:induction false} Homeless<V(!new)>(compare: (V, V) -> int, items: seq<Item<V>>, value: V, bits: set<nat>,
                                             upward: bool)
    requires TotalPreorder(compare) && Sorted(compare, items)
    requires !Covered(compare, items, value, upward)
    ensures forall k :: 0 <= k < |items| ==>
              if upward then compare(items[k].value, value) < 0 else compare(items[k].value, value) > 0
    ensures Inserted(compare, items, value, bits) == if upward then items + [Item(value, bits)]
              else [Item(value, bits)] + items
  {
    var p := InsertedShape(compare, items, value, bits);
    CutAt(compare, items, value);
    if upward {
      if p < |items| {
        assert RoundsTo(compare, items, value, p, true);
      }
      assert items[..p] + [Item(value, bits)] + items[p..] == items + [Item(value, bits)];
    } else {
      if p < |items| && compare(items[p].value, value) == 0 {
        assert RoundsTo(compare, items, value, p, false);
      }
      if p > 0 {
        assert RoundsTo(compare, items, value, p - 1, false);
      }
      assert items[..p] + [Item(value, bits)] + items[p..] == [Item(value, bits)] + items;
    }
  }

  lemma {:induction false} InsertBeyond<V(!new)>(compare: (V, V) -> int, items: seq<Item<V>>, stored: iset<(V, nat)>,
                                                 value: V, id: nat, upward: bool)
    requires TotalPreorder(compare) && Sorted(compare, items)
    requires Tracks(compare, items, stored, upward)
    requires !Covered(compare, items, value, upward)
    ensures Tracks(compare, Inserted(compare, items, value, {id}), stored + iset{(value, id)}, upward)
  {
    Homeless(compare, items, value, {id}, upward);
    var grown := Inserted(compare, items, value, {id});
    var at := if upward then |items| else 0;
    var shift := if upward then 0 else 1;
    assert grown[at] == Item(value, {id});
    assert RoundsTo(compare, grown, value, at, upward);
    forall p | p in stored
      ensures Covered(compare, grown, p.0, upward) && !RoundsTo(compare, grown, p.0, at, upward)
      ensures forall k: nat :: k < |items| ==>
                (RoundsTo(compare, items, p.0, k, upward) <==> RoundsTo(compare, grown, p.0, k + shift, upward))
    {
      StaysPut(compare, items, value, {id}, p.0, upward);
    }
    forall k: nat, x: nat | k < |grown|
      ensures x in grown[k].bits <==> Housed(compare, grown, stored + iset{(value, id)}, k, x, upward)
    {
      HousedPlus(compare, grown, stored, value, id, k, x, upward);
      if k != at {
        assert grown[k] == items[k - shift];
        assert !RoundsTo(compare, grown, value, k, upward);
        assert Housed(compare, items, stored, k - shift, x, upward) <==> Housed(compare, grown, stored, k, x, upward);
      }
    }
  }

  /** A boundary added beyond the outermost one takes over no value already stored. */
  lemma {:induction false} StaysPut<V(!new)>(compare: (V, V) -> int, items: seq<Item<V>>, value: V, bits: set<nat>,
                                             other: V, upward: bool)
    requires TotalPreorder(compare) && Sorted(compare, items)
    requires !Covered(compare, items, value, upward) && Covered(compare, items, other, upward)
    ensures var grown := Inserted(compare, items, value, bits);
            var at := if upward then |items| else 0;
            var shift := if upward then 0 else 1;
            && |grown| == |items| + 1
            && Covered(compare, grown, other, upward) && !RoundsTo(compare, grown, other, at, upward)
            && forall k: nat :: k < |items| ==>
                 (RoundsTo(compare, items, other, k, upward) <==> RoundsTo(compare, grown, other, k + shift, upward))
  {
    Homeless(compare, items, value, bits, upward);
    WithinOutermost(compare, items, other, upward);
    if upward {
      KeptBelow(compare, items, Item(value, bits), other);
    } else {
      StrictlyBelow(compare, value, items[0].value, other);
      KeptAbove(compare, items, Item(value, bits), other);
    }
  }

  lemma {:induction false} WithinOutermost<V(!new)>(compare: (V, V) -> int, items: seq<Item<V>>, value: V, upward: bool)
    requires TotalPreorder(compare) && Sorted(compare, items)
    requires Covered(compare, items, value, upward)
    ensures |items| > 0
    ensures if upward then compare(value, items[|items| - 1].value) <= 0 else compare(items[0].value, value) <= 0
  {
    var c: nat :| c < |items| && RoundsTo(compare, items, value, c, upward);
    if upward {
      if c < |items| - 1 { StrictlyBelow(compare, value, items[c].value, items[|items| - 1].value); }
    } else {
      if c > 0 { StrictlyBelow(compare, items[0].value, items[c].value, value); }
    }
  }

  lemma {:induction false} KeptBelow<V(!new)>(compare: (V, V) -> int, items: seq<Item<V>>, last: Item<V>, other: V)
    requires TotalPreorder(compare) && Covered(compare, items, other, true) && |items| > 0
    requires compare(other, items[|items| - 1].value) <= 0
    ensures Covered(compare, items + [last], other, true) && !RoundsTo(compare, items + [last], other, |items|, true)
    ensures forall k: nat :: k < |items| ==>
              (RoundsTo(compare, items, other, k, true) <==> RoundsTo(compare, items + [last], other, k, true))
  {
    var c: nat :| c < |items| && RoundsTo(compare, items, other, c, true);
    assert RoundsTo(compare, items + [last], other, c, true);
  }

  lemma {:induction false} KeptAbove<V(!new)>(compare: (V, V) -> int, items: seq<Item<V>>, first: Item<V>, other: V)
    requires TotalPreorder(compare) && Covered(compare, items, other, false) && |items| > 0
    requires compare(items[0].value, other) <= 0 && compare(first.value, other) < 0
    ensures Covered(compare, [first] + items, other, false) && !RoundsTo(compare, [first] + items, other, 0, false)
    ensures forall k: nat :: k < |items| ==>
              (RoundsTo(compare, items, other, k, false) <==> RoundsTo(compare, [first] + items, other, k + 1, false))
  {
    var grown := [first] + items;
    assert forall k :: 0 <= k < |items| ==> grown[k + 1] == items[k];
    var c: nat :| c < |items| && RoundsTo(compare, items, other, c, false);
    assert RoundsTo(compare, grown, other, c + 1, false);
  }

  /** Merging two neighbours under the outward boundary moves exactly their values to it. */
  lemma {:induction false} MergeTracks<V(!new)>(compare: (V, V) -> int, items: seq<Item<V>>, stored: iset<(V, nat)>,
                                                position: nat, upward: bool)
    requires TotalPreorder(compare) && Sorted(compare, items) && position + 1 < |items|
    requires Tracks(compare, items, stored, upward)
    ensures Tracks(compare, Merged(items, position, upward), stored, upward)
  {
    forall p | p in stored
      ensures Covered(compare, Merged(items, position, upward), p.0, upward)
    {
      MergedCovers(compare, items, position, p.0, upward);
    }
    forall k: nat, x: nat | k < |items| - 1
      ensures x in Merged(items, position, upward)[k].bits <==>
                Housed(compare, Merged(items, position, upward), stored, k, x, upward)
    {
      MergedHouses(compare, items, stored, position, k, x, upward);
      MergedBits(items, position, k, upward);
    }
  }

  /** The same, stated about the merged list under another name. */
  lemma {:induction false} MergeTracksAs<V(!new)>(compare: (V, V) -> int, items: seq<Item<V>>, fewer: seq<Item<V>>,
                                                  stored: iset<(V, nat)>, position: nat, upward: bool)
    requires TotalPreorder(compare) && Sorted(compare, items) && position + 1 < |items|
    requires Tracks(compare, items, stored, upward) && fewer == Merged(items, position, upward)
    ensures Tracks(compare, fewer, stored, upward)
  {
    MergeTracks(compare, items, stored, position, upward);
  }

  lemma {:induction false} MergedBits<V>(items: seq<Item<V>>, position: nat, k: nat, upward: bool)
    requires position + 1 < |items| && k + 1 < |items|
    ensures Merged(items, position, upward)[k].bits ==
            (if k <= position then items[k].bits else {}) + (if k >= position then items[k + 1].bits else {})
  {
  }

  lemma {:induction false} MergedCovers<V(!new)>(compare: (V, V) -> int, items: seq<Item<V>>, position: nat, value: V,
                                                 upward: bool)
    requires TotalPreorder(compare) && Sorted(compare, items) && position + 1 < |items|
    requires Covered(compare, items, value, upward)
    ensures Covered(compare, Merged(items, position, upward), value, upward)
  {
    var c: nat :| c < |items| && RoundsTo(compare, items, value, c, upward);
    MergedRounds(compare, items, position, value, if c <= position then c else c - 1, upward);
  }

  lemma {:induction false} MergedHouses<V(!new)>(compare: (V, V) -> int, items: seq<Item<V>>, stored: iset<(V, nat)>,
                                                 position: nat, k: nat, x: nat, upward: bool)
    requires TotalPreorder(compare) && Sorted(compare, items) && position + 1 < |items| && k + 1 < |items|
    ensures Housed(compare, Merged(items, position, upward), stored, k, x, upward) <==>
            (k <= position && Housed(compare, items, stored, k, x, upward))
              || (k >= position && Housed(compare, items, stored, k + 1, x, upward))
  {
    forall p | p in stored
      ensures RoundsTo(compare, Merged(items, position, upward), p.0, k, upward) <==>
              (k <= position && RoundsTo(compare, items, p.0, k, upward))
                || (k >= position && RoundsTo(compare, items, p.0, k + 1, upward))
    {
      MergedRounds(compare, items, position, p.0, k, upward);
    }
  }

  lemma {:induction false} MergedRounds<V(!new)>(compare: (V, V) -> int, items: seq<Item<V>>, position: nat, value: V,
                                                 k: nat, upward: bool)
    requires TotalPreorder(compare) && Sorted(compare, items) && position + 1 < |items| && k + 1 < |items|
    ensures RoundsTo(compare, Merged(items, position, upward), value, k, upward) <==>
            (k <= position && RoundsTo(compare, items, value, k, upward))
              || (k >= position && RoundsTo(compare, items, value, k + 1, upward))
  {
    if k == position {
      MergedRoundsHere(compare, items, position, value, upward);
    } else {
      MergedRoundsApart(compare, items, position, value, k, upward);
    }
  }

  lemma {:induction false} MergedRoundsApart<V>(compare: (V, V) -> int, items: seq<Item<V>>, position: nat, value: V,
                                                k: nat, upward: bool)
    requires position + 1 < |items| && k + 1 < |items| && k != position
    ensures RoundsTo(compare, Merged(items, position, upward), value, k, upward) <==>
            RoundsTo(compare, items, value, if k < position then k else k + 1, upward)
  {
    var fewer := Merged(items, position, upward);
    var j := if k < position then k else k + 1;
    assert fewer[k] == items[j];
    if upward && k > 0 {
      assert fewer[k - 1].value == items[j - 1].value;
    }
    if !upward && k + 1 < |fewer| {
      assert fewer[k + 1].value == items[j + 1].value;
    }
  }

  lemma {:induction false} MergedRoundsHere<V(!new)>(compare: (V, V) -> int, items: seq<Item<V>>, k: nat, value: V,
                                                     upward: bool)
    requires TotalPreorder(compare) && Sorted(compare, items) && k + 1 < |items|
    ensures RoundsTo(compare, Merged(items, k, upward), value, k, upward) <==>
            RoundsTo(compare, items, value, k, upward) || RoundsTo(compare, items, value, k + 1, upward)
  {
    var fewer := Merged(items, k, upward);
    assert fewer[k].value == items[if upward then k + 1 else k].value;
    assert k > 0 ==> fewer[k - 1] == items[k - 1];
    assert k + 1 < |fewer| ==> fewer[k + 1] == items[k + 2];
    AtMergedPair(compare, items, k, value);
  }

  /** Around two neighbours, a value below the first is below the second, and one above the second above the first. */
  lemma {:induction false} AtMergedPair<V(!new)>(compare: (V, V) -> int, items: seq<Item<V>>, k: nat, value: V)
    requires TotalPreorder(compare) && Sorted(compare, items) && k + 1 < |items|
    ensures compare(value, items[k].value) <= 0 ==> compare(value, items[k + 1].value) < 0
    ensures compare(items[k + 1].value, value) <= 0 ==> compare(items[k].value, value) < 0
    ensures k + 2 < |items| && compare(value, items[k + 1].value) < 0 ==> compare(value, items[k + 2].value) < 0
    ensures k > 0 && compare(items[k].value, value) < 0 ==> compare(items[k - 1].value, value) < 0
  {
    if k > 0 && compare(items[k].value, value) < 0 {
      StrictlyBelow(compare, items[k - 1].value, items[k].value, value);
    }
    if compare(value, items[k].value) <= 0 {
      StrictlyBelow(compare, value, items[k].value, items[k + 1].value);
    }
    if compare(items[k + 1].value, value) <= 0 {
      StrictlyBelow(compare, items[k].value, items[k + 1].value, value);
    }
    if k + 2 < |items| && compare(value, items[k + 1].value) < 0 {
      StrictlyBelow(compare, value, items[k + 1].value, items[k + 2].value);
    }
  }

  // ----- before any merge -----

  /** Each posting holds exactly the IDs stored under a value equal to it. */
  ghost predicate TracksEqual<V(!new)>(compare: (V, V) -> int, items: seq<Item<V>>, stored: iset<(V, nat)>) {
    forall k: nat, id: nat :: k < |items| ==>
      (id in items[k].bits <==> exists p :: p in stored && p.1 == id && compare(items[k].value, p.0) == 0)
  }

  lemma {:induction false} RoundsToEqual<V(!new)>(compare: (V, V) -> int, items: seq<Item<V>>, value: V, e: nat,
                                                  upward: bool)
    requires TotalPreorder(compare) && Sorted(compare, items)
    requires e < |items| && compare(items[e].value, value) == 0
    ensures forall k: nat :: k < |items| ==> (RoundsTo(compare, items, value, k, upward) <==> k == e)
    ensures forall k: nat :: k < |items| ==> (compare(items[k].value, value) == 0 <==> k == e)
  {
    CutAt(compare, items, value);
    forall k: nat | k < |items|
      ensures RoundsTo(compare, items, value, k, upward) <==> k == e
    {
      assert RoundsTo(compare, items, value, e, upward);
      if RoundsTo(compare, items, value, k, upward) {
        RoundsToOne(compare, items, value, e, k, upward);
      }
    }
  }

  lemma {:induction false} UnmergedTracksEqual<V(!new)>(compare: (V, V) -> int, items: seq<Item<V>>,
                                                        stored: iset<(V, nat)>, upward: bool)
    requires TotalPreorder(compare) && Sorted(compare, items) && Unmerged(compare, items, stored)
    ensures Tracks(compare, items, stored, upward) <==> TracksEqual(compare, items, stored)
  {
    forall p | p in stored
      ensures Covered(compare, items, p.0, upward)
      ensures forall k: nat :: k < |items| ==>
                (RoundsTo(compare, items, p.0, k, upward) <==> compare(items[k].value, p.0) == 0)
    {
      var e: nat :| e < |items| && compare(items[e].value, p.0) == 0;
      RoundsToEqual(compare, items, p.0, e, upward);
      assert RoundsTo(compare, items, p.0, e, upward);
    }
    forall k: nat, id: nat | k < |items|
      ensures Housed(compare, items, stored, k, id, upward) <==>
                exists p :: p in stored && p.1 == id && compare(items[k].value, p.0) == 0
    {
    }
  }

  /** Ordinary insertion, while nothing has been merged. */
  lemma {:induction false} InsertUnmerged<V(!new)>(compare: (V, V) -> int, items: seq<Item<V>>, stored: iset<(V, nat)>,
                                                   value: V, id: nat)
    requires TotalPreorder(compare) && Sorted(compare, items)
    requires TracksEqual(compare, items, stored) && Unmerged(compare, items, stored)
    ensures var grown := Inserted(compare, items, value, {id});
            && TracksEqual(compare, grown, stored + iset{(value, id)})
            && Unmerged(compare, grown, stored + iset{(value, id)})
  {
    var p := InsertedShape(compare, items, value, {id});
    var grown := Inserted(compare, items, value, {id});
    var more := stored + iset{(value, id)};
    InsertedSorted(compare, items, value, {id});
    assert compare(grown[p].value, value) == 0;
    forall q | q in stored
      ensures exists k: nat :: k < |grown| && compare(grown[k].value, q.0) == 0
    {
      var e: nat :| e < |items| && compare(items[e].value, q.0) == 0;
      assert grown[e].value == items[e].value || grown[e + 1].value == items[e].value;
    }
    forall k: nat, x: nat | k < |grown|
      ensures x in grown[k].bits <==> exists q :: q in more && q.1 == x && compare(grown[k].value, q.0) == 0
    {
      GrownEqual(compare, items, stored, value, id, p, k, x);
    }
  }

  /** A posting of the grown list: the new pair joins the boundary equal to its value, all others are as before. */
  lemma {:induction false} GrownEqual<V(!new)>(compare: (V, V) -> int, items: seq<Item<V>>, stored: iset<(V, nat)>,
                                               value: V, id: nat, p: nat, k: nat, x: nat)
    requires TotalPreorder(compare) && Sorted(compare, items)
    requires TracksEqual(compare, items, stored) && Unmerged(compare, items, stored)
    requires p <= |items| && (forall j :: 0 <= j < p ==> compare(items[j].value, value) < 0)
             && (p < |items| ==> compare(items[p].value, value) >= 0)
    requires Inserted(compare, items, value, {id}) ==
               if p < |items| && compare(items[p].value, value) == 0
               then items[p := Item(items[p].value, items[p].bits + {id})]
               else items[..p] + [Item(value, {id})] + items[p..]
    requires k < |Inserted(compare, items, value, {id})|
    ensures var grown := Inserted(compare, items, value, {id});
            x in grown[k].bits <==>
              exists q :: q in stored + iset{(value, id)} && q.1 == x && compare(grown[k].value, q.0) == 0
  {
    hide Sorted, Unmerged;
    var grown := Inserted(compare, items, value, {id});
    InsertedSorted(compare, items, value, {id});
    assert compare(grown[p].value, value) == 0;
    assert (value, id) in stored + iset{(value, id)};
    EqualAt(compare, grown, value, p, k);
    if k != p {
      var j := if p < |items| && compare(items[p].value, value) == 0 then k else if k < p then k else k - 1;
      assert grown[k] == items[j];
    } else if p < |items| && compare(items[p].value, value) == 0 {
      assert x in grown[p].bits <==> x == id || x in items[p].bits;
    } else {
      NoneEqual(compare, items, stored, value, p);
      assert x in grown[p].bits <==> x == id;
    }
  }

  lemma {:induction false} EqualAt<V(!new)>(compare: (V, V) -> int, items: seq<Item<V>>, value: V, p: nat, k: nat)
    requires TotalPreorder(compare) && Sorted(compare, items) && p < |items| && k < |items|
    requires compare(items[p].value, value) == 0
    ensures compare(items[k].value, value) == 0 <==> k == p
  {
    RoundsToEqual(compare, items, value, p, true);
  }

  lemma {:induction false} NoneEqual<V(!new)>(compare: (V, V) -> int, items: seq<Item<V>>, stored: iset<(V, nat)>,
                                              value: V, p: nat)
    requires TotalPreorder(compare) && Sorted(compare, items) && Unmerged(compare, items, stored)
    requires p <= |items| && forall k :: 0 <= k < p ==> compare(items[k].value, value) < 0
    requires p < |items| ==> compare(items[p].value, value) > 0
    ensures forall q :: q in stored ==> compare(value, q.0) != 0
  {
    CutAt(compare, items, value);
    forall q | q in stored
      ensures compare(value, q.0) != 0
    {
      var e: nat :| e < |items| && compare(items[e].value, q.0) == 0;
      EqualSides(compare, items[e].value, q.0, value);
      assert compare(items[e].value, value) != 0;
    }
  }

  // ----- searching -----

  /** A scan of the boundaries finds exactly the IDs whose rounded value lies on the requested side. */
  lemma {:induction false} SelectTracks<V(!new)>(compare: (V, V) -> int, items: seq<Item<V>>, stored: iset<(V, nat)>,
                                                 query: V, ascending: bool, inclusive: bool, upward: bool, id: nat)
    requires Tracks(compare, items, stored, upward)
    ensures id in Select(compare, items, query, ascending, inclusive) <==>
            exists p, k: nat :: p in stored && p.1 == id && k < |items| && RoundsTo(compare, items, p.0, k, upward)
                                && Keeps(compare(items[k].value, query), ascending, inclusive)
  {
    SelectMember(compare, items, query, ascending, inclusive, id);
    if k: nat :| k < |items| && Keeps(compare(items[k].value, query), ascending, inclusive) && id in items[k].bits {
      assert Housed(compare, items, stored, k, id, upward);
    }
    if p, k: nat :| p in stored && p.1 == id && k < |items| && RoundsTo(compare, items, p.0, k, upward)
                    && Keeps(compare(items[k].value, query), ascending, inclusive) {
      assert Housed(compare, items, stored, k, id, upward);
    }
  }

  /** The exact answer: IDs with a stored value on the requested side of the query. */
  ghost predicate Qualifies<V(!new)>(compare: (V, V) -> int, stored: iset<(V, nat)>, query: V, ascending: bool,
                                     inclusive: bool, id: nat) {
    exists p :: p in stored && p.1 == id
      && var c := compare(p.0, query);
         if ascending then (if inclusive then c >= 0 else c > 0) else (if inclusive then c <= 0 else c < 0)
  }

  /** Rounding is outward, so no exact match is ever lost. */
  lemma {:induction false} SelectKeepsMatches<V(!new)>(compare: (V, V) -> int, items: seq<Item<V>>,
                                                       stored: iset<(V, nat)>, query: V, upward: bool,
                                                       inclusive: bool, id: nat)
    requires TotalPreorder(compare) && Tracks(compare, items, stored, upward)
    requires Qualifies(compare, stored, query, upward, inclusive, id)
    ensures id in Select(compare, items, query, upward, inclusive)
  {
    var p :| p in stored && p.1 == id && Keeps(compare(p.0, query), upward, inclusive);
    var k: nat :| k < |items| && RoundsTo(compare, items, p.0, k, upward);
    KeepsOutward(compare, p.0, items[k].value, query, upward, inclusive);
    SelectTracks(compare, items, stored, query, upward, inclusive, upward, id);
  }

  lemma {:induction false} KeepsOutward<V(!new)>(compare: (V, V) -> int, value: V, bound: V, query: V, upward: bool,
                                                 inclusive: bool)
    requires TotalPreorder(compare)
    requires upward ==> compare(value, bound) <= 0
    requires !upward ==> compare(bound, value) <= 0
    requires Keeps(compare(value, query), upward, inclusive)
    ensures Keeps(compare(bound, query), upward, inclusive)
  {
    if compare(value, query) == 0 {
      EqualSides(compare, value, query, bound);
    } else if upward {
      StrictlyBelow(compare, query, value, bound);
    } else {
      StrictlyBelow(compare, bound, value, query);
    }
  }

  /** Until something is merged, a scan gives exactly the matches. */
  lemma {:induction false} SelectExact<V(!new)>(compare: (V, V) -> int, items: seq<Item<V>>, stored: iset<(V, nat)>,
                                                query: V, ascending: bool, inclusive: bool, id: nat)
    requires TotalPreorder(compare) && Sorted(compare, items)
    requires TracksEqual(compare, items, stored) && Unmerged(compare, items, stored)
    ensures id in Select(compare, items, query, ascending, inclusive) <==>
              Qualifies(compare, stored, query, ascending, inclusive, id)
  {
    SelectMember(compare, items, query, ascending, inclusive, id);
    forall p, k: nat | p in stored && k < |items| && compare(items[k].value, p.0) == 0
      ensures Keeps(compare(items[k].value, query), ascending, inclusive) <==>
                Keeps(compare(p.0, query), ascending, inclusive)
    {
      EqualSides(compare, items[k].value, p.0, query);
    }
  }

  lemma {:induction false} EqualSides<V(!new)>(compare: (V, V) -> int, a: V, b: V, query: V)
    requires TotalPreorder(compare) && compare(a, b) == 0
    ensures compare(a, query) < 0 <==> compare(b, query) < 0
    ensures compare(a, query) > 0 <==> compare(b, query) > 0
  {
    assert Chain(compare, a, b, query) <==> compare(b, query) <= 0;
    assert Chain(compare, b, a, query) <==> compare(a, query) <= 0;
    assert Chain(compare, query, a, b) <==> compare(query, a) <= 0;
    assert Chain(compare, query, b, a) <==> compare(query, b) <= 0;
  }

  /** Quantized equality finds exactly the IDs stored with a value that rounds up to the query's boundary. */
  lemma {:induction false} CeilingTracks<V(!new)>(compare: (V, V) -> int, items: seq<Item<V>>, stored: iset<(V, nat)>,
                                                  query: V, id: nat)
    requires TotalPreorder(compare) && Sorted(compare, items) && Tracks(compare, items, stored, true)
    ensures var posting := AtOrAbove(compare, items, query);
            (posting.Some? && id in posting.value) <==>
            exists k: nat :: k < |items| && Housed(compare, items, stored, k, id, true)
              && RoundsTo(compare, items, query, k, true)
  {
    var p := RankOf(compare, items, query);
    LookupAtRank(compare, items, query, p);
    RoundsAtRank(compare, items, query, p);
  }

  lemma {:induction false} RankOf<V>(compare: (V, V) -> int, items: seq<Item<V>>, value: V) returns (p: nat)
    ensures IsRank(compare, items, value, p)
  {
    p := InsertedShape(compare, items, value, {});
  }

  /** The boundary at the rank is the only one a value rounds up to. */
  lemma {:induction false} RoundsAtRank<V(!new)>(compare: (V, V) -> int, items: seq<Item<V>>, value: V, p: nat)
    requires TotalPreorder(compare) && Sorted(compare, items) && IsRank(compare, items, value, p)
    ensures forall k: nat :: k < |items| ==> (RoundsTo(compare, items, value, k, true) <==> k == p)
  {
    CutAt(compare, items, value);
    assert forall k :: 0 <= k < p ==> items[..p][k] == items[k];
  }

  /** In particular, no value equal to the query is lost. */
  lemma {:induction false} CeilingKeepsMatches<V(!new)>(compare: (V, V) -> int, items: seq<Item<V>>,
                                                        stored: iset<(V, nat)>, query: V, p: (V, nat))
    requires TotalPreorder(compare) && Sorted(compare, items) && Tracks(compare, items, stored, true)
    requires p in stored && compare(p.0, query) == 0
    ensures AtOrAbove(compare, items, query).Some? && p.1 in AtOrAbove(compare, items, query).value
  {
    var k: nat :| k < |items| && RoundsTo(compare, items, p.0, k, true);
    EqualSides(compare, p.0, query, items[k].value);
    if k > 0 { EqualSides(compare, p.0, query, items[k - 1].value); }
    assert RoundsTo(compare, items, query, k, true);
    assert Housed(compare, items, stored, k, p.1, true);
    CeilingTracks(compare, items, stored, query, p.1);
  }

  /** Until something is merged, exact lookup finds exactly the IDs stored with an equal value. */
  lemma {:induction false} EqualToTracks<V(!new)>(compare: (V, V) -> int, items: seq<Item<V>>, stored: iset<(V, nat)>,
                                                  query: V, id: nat)
    requires TotalPreorder(compare) && Sorted(compare, items)
    requires TracksEqual(compare, items, stored) && Unmerged(compare, items, stored)
    ensures var posting := EqualTo(compare, items, query);
            (posting.Some? && id in posting.value) <==> exists p :: p in stored && p.1 == id && compare(p.0, query) == 0
  {
    EqualToFound(compare, items, query);
    forall p, k: nat | p in stored && k < |items| && compare(items[k].value, p.0) == 0
      ensures compare(items[k].value, query) == 0 <==> compare(p.0, query) == 0
    {
      EqualSides(compare, items[k].value, p.0, query);
    }
    forall j: nat, k: nat | j < |items| && k < |items| && compare(items[j].value, query) == 0
      && compare(items[k].value, query) == 0
      ensures j == k
    {
      RoundsToEqual(compare, items, query, j, true);
    }
  }

  /** The rounded value, from the value's rank: the number of boundaries strictly below it. */
  function RoundedAt<V>(compare: (V, V) -> int, items: seq<Item<V>>, value: V, p: nat, upward: bool): V
    requires p <= |items|
  {
    if p < |items| && (upward || compare(items[p].value, value) == 0) then items[p].value
    else if !upward && p > 0 then items[p - 1].value
    else value
  }

  lemma {:induction false} RankRounds<V(!new)>(compare: (V, V) -> int, items: seq<Item<V>>, value: V, p: nat,
                                               upward: bool)
    requires TotalPreorder(compare) && Sorted(compare, items)
    requires IsRank(compare, items, value, p)
    ensures IsRounded(compare, items, value, upward, RoundedAt(compare, items, value, p, upward))
  {
    CutAt(compare, items, value);
    assert forall k :: 0 <= k < p ==> items[k] == items[..p][k];
    if p < |items| && (upward || compare(items[p].value, value) == 0) {
      assert RoundsTo(compare, items, value, p, upward);
    } else if !upward && p > 0 {
      assert RoundsTo(compare, items, value, p - 1, upward);
    } else {
      assert !Covered(compare, items, value, upward);
    }
  }
}
