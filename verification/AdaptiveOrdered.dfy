/**
 Ordered leaves as adaptive leaves. A leaf owns one ordered index, two for an interval or five for `CompareBy`; each
 step merges two neighbouring boundaries of one of them, and late values are rounded outward. For every choice of the
 neighbours this satisfies what the memory controller relies on.
 */
module AdaptiveOrdered {
  import opened Bitmaps
  import opened OrderedItems
  import opened OrderedRounding
  import opened AdaptiveLeaves

  datatype Form<!V> = Form(compare: (V, V) -> int, upward: bool, items: seq<Item<V>>, quantized: bool,
                           wildcard: set<nat>)

  ghost predicate WellOrdered<V(!new)>(form: Form<V>) {
    TotalPreorder(form.compare) && Sorted(form.compare, form.items)
  }

  /** The trivial comparator, under which all values are equal. */
  function AllEqual<V>(): (V, V) -> int {
    (a, b) => 0
  }

  type OrderedForm<!V(!new)> = f: Form<V> | WellOrdered(f) ghost witness Form(AllEqual(), true, [], false, {})

  /** What an entry stores in one of the indexes: nothing, a missing value, or a value. */
  datatype Slot<V> = Skipped | Missing | Present(value: V)

  /** An entry and what it stores in each index. */
  datatype Entry<V> = Entry(id: nat, slots: seq<Slot<V>>)

  // ----- one index -----

  /** The number of values strictly below. */
  function RankIn<V>(compare: (V, V) -> int, items: seq<Item<V>>, value: V): (p: nat)
    ensures p <= |items| && (forall k :: 0 <= k < p ==> compare(items[k].value, value) < 0)
    ensures p < |items| ==> compare(items[p].value, value) >= 0
  {
    if items == [] || compare(items[0].value, value) >= 0 then 0
    else 1 + RankIn(compare, items[1..], value)
  }

  function StoreIn<V(!new)>(form: OrderedForm<V>, slot: Slot<V>, id: nat): OrderedForm<V> {
    match slot
    case Skipped => form
    case Missing => form.(wildcard := form.wildcard + {id})
    case Present(value) =>
      var p := RankIn(form.compare, form.items, value);
      var key := if form.quantized then RoundedAt(form.compare, form.items, value, p, form.upward) else value;
      InsertedSorted(form.compare, form.items, key, {id});
      form.(items := Inserted(form.compare, form.items, key, {id}))
  }

  function MergeIn<V(!new)>(form: OrderedForm<V>, position: nat): OrderedForm<V>
    requires position + 1 < |form.items|
  {
    MergedSorted(form.compare, form.items, position, form.upward);
    form.(items := Merged(form.items, position, form.upward), quantized := true)
  }

  /** The ID is found in the posting of the value's own boundary: an equal one, or the outward one after a merge. */
  predicate ValueHeld<V(!new)>(form: OrderedForm<V>, value: V, id: nat) {
    exists k :: 0 <= k < |form.items| && id in form.items[k].bits
                && if form.quantized then RoundsTo(form.compare, form.items, value, k, form.upward)
                   else form.compare(form.items[k].value, value) == 0
  }

  predicate SlotHeld<V(!new)>(form: OrderedForm<V>, slot: Slot<V>, id: nat) {
    match slot
    case Skipped => true
    case Missing => id in form.wildcard
    case Present(value) => ValueHeld(form, value, id)
  }

  /** The pairs that an index holds track its boundaries. */
  ghost function HeldPairs<V(!new)>(form: OrderedForm<V>): iset<(V, nat)> {
    iset p: (V, nat) | ValueHeld(form, p.0, p.1)
  }

  lemma {:induction false} HeldTracks<V(!new)>(form: OrderedForm<V>)
    ensures Tracks(form.compare, form.items, HeldPairs(form), form.upward)
    ensures !form.quantized ==>
              TracksEqual(form.compare, form.items, HeldPairs(form))
                && Unmerged(form.compare, form.items, HeldPairs(form))
  {
    hide Tracks, TracksEqual, Unmerged, HeldPairs;
    if form.quantized {
      HeldTracksMerged(form);
    } else {
      HeldTracksEqual(form);
      UnmergedTracksEqual(form.compare, form.items, HeldPairs(form), form.upward);
    }
  }

  lemma {:induction false} HeldTracksMerged<V(!new)>(form: OrderedForm<V>)
    requires form.quantized
    ensures Tracks(form.compare, form.items, HeldPairs(form), form.upward)
  {
    hide Sorted, Housed;
    var compare, items, stored := form.compare, form.items, HeldPairs(form);
    forall p | p in stored
      ensures Covered(compare, items, p.0, form.upward)
    {
      var k :| 0 <= k < |items| && p.1 in items[k].bits && RoundsTo(compare, items, p.0, k, form.upward);
    }
    hide HeldPairs, Covered;
    forall k: nat, id: nat | k < |items|
      ensures id in items[k].bits <==> Housed(compare, items, stored, k, id, form.upward)
    {
      HousedAt(form, k, id);
    }
  }

  lemma {:induction false} HeldTracksEqual<V(!new)>(form: OrderedForm<V>)
    requires !form.quantized
    ensures TracksEqual(form.compare, form.items, HeldPairs(form))
            && Unmerged(form.compare, form.items, HeldPairs(form))
  {
    hide Sorted;
    var compare, items, stored := form.compare, form.items, HeldPairs(form);
    assert Unmerged(compare, items, stored);
    hide HeldPairs;
    forall k: nat, id: nat | k < |items|
      ensures id in items[k].bits <==> exists p :: p in stored && p.1 == id && compare(items[k].value, p.0) == 0
    {
      EqualAtHeld(form, k, id);
    }
  }

  lemma {:induction false} HousedAt<V(!new)>(form: OrderedForm<V>, k: nat, id: nat)
    requires form.quantized && k < |form.items|
    ensures id in form.items[k].bits <==> Housed(form.compare, form.items, HeldPairs(form), k, id, form.upward)
  {
    var compare, items, stored := form.compare, form.items, HeldPairs(form);
    if id in items[k].bits {
      assert compare(items[k].value, items[k].value) == 0;
      RoundsToEqual(compare, items, items[k].value, k, form.upward);
      assert RoundsTo(compare, items, items[k].value, k, form.upward);
      assert (items[k].value, id) in stored;
    }
    if p :| p in stored && p.1 == id && RoundsTo(compare, items, p.0, k, form.upward) {
      var j :| 0 <= j < |items| && id in items[j].bits && RoundsTo(compare, items, p.0, j, form.upward);
      RoundsToOne(compare, items, p.0, j, k, form.upward);
    }
  }

  lemma {:induction false} EqualAtHeld<V(!new)>(form: OrderedForm<V>, k: nat, id: nat)
    requires !form.quantized && k < |form.items|
    ensures id in form.items[k].bits <==>
              exists p :: p in HeldPairs(form) && p.1 == id && form.compare(form.items[k].value, p.0) == 0
  {
    var compare, items, stored := form.compare, form.items, HeldPairs(form);
    if id in items[k].bits {
      assert compare(items[k].value, items[k].value) == 0;
      assert (items[k].value, id) in stored;
    }
    if p :| p in stored && p.1 == id && compare(items[k].value, p.0) == 0 {
      var j :| 0 <= j < |items| && id in items[j].bits && compare(items[j].value, p.0) == 0;
      EqualAt(compare, items, p.0, j, k);
    }
  }

  /** Merging any two neighbours keeps everything that is held. */
  lemma {:induction false} MergeHolds<V(!new)>(form: OrderedForm<V>, position: nat, slot: Slot<V>, id: nat)
    requires position + 1 < |form.items| && SlotHeld(form, slot, id)
    ensures SlotHeld(MergeIn(form, position), slot, id)
  {
    if slot.Present? {
      HeldTracks(form);
      MergeTracks(form.compare, form.items, HeldPairs(form), position, form.upward);
      TrackedHeld(MergeIn(form, position), HeldPairs(form), slot.value, id);
    }
  }

  lemma {:induction false} TrackedHeld<V(!new)>(form: OrderedForm<V>, stored: iset<(V, nat)>, value: V, id: nat)
    requires form.quantized && Tracks(form.compare, form.items, stored, form.upward) && (value, id) in stored
    ensures ValueHeld(form, value, id)
  {
    var k: nat :| k < |form.items| && RoundsTo(form.compare, form.items, (value, id).0, k, form.upward);
    assert Housed(form.compare, form.items, stored, k, id, form.upward);
  }

  /** Storing keeps everything that is held and adds the stored value, in an exact index as in a quantized one. */
  lemma {:induction false} StoreHolds<V(!new)>(form: OrderedForm<V>, slot: Slot<V>, id: nat, other: Slot<V>,
                                               otherID: nat)
    ensures SlotHeld(StoreIn(form, slot, id), slot, id)
    ensures SlotHeld(form, other, otherID) ==> SlotHeld(StoreIn(form, slot, id), other, otherID)
  {
    if slot.Present? {
      ValueStored(form, slot.value, id, slot.value, id);
      if other.Present? {
        ValueStored(form, slot.value, id, other.value, otherID);
      }
    }
  }

  lemma {:induction false} ValueStored<V(!new)>(form: OrderedForm<V>, value: V, id: nat, other: V, otherID: nat)
    ensures ValueHeld(form, other, otherID) || (other == value && otherID == id) ==>
              ValueHeld(StoreIn(form, Present(value), id), other, otherID)
  {
    HeldTracks(form);
    var stored, more := HeldPairs(form), HeldPairs(form) + iset{(value, id)};
    var now := StoreIn(form, Present(value), id);
    if ValueHeld(form, other, otherID) || (other == value && otherID == id) {
      assert (other, otherID) in more;
      if form.quantized {
        var p := RankIn(form.compare, form.items, value);
        RankRounds(form.compare, form.items, value, p, form.upward);
        InsertTracks(form.compare, form.items, stored, value, id,
                     RoundedAt(form.compare, form.items, value, p, form.upward), form.upward);
        TrackedHeld(now, more, other, otherID);
      } else {
        InsertUnmerged(form.compare, form.items, stored, value, id);
        EqualHeld(now, more, other, otherID);
      }
    }
  }

  lemma {:induction false} EqualHeld<V(!new)>(form: OrderedForm<V>, stored: iset<(V, nat)>, value: V, id: nat)
    requires !form.quantized && TracksEqual(form.compare, form.items, stored)
             && Unmerged(form.compare, form.items, stored)
    requires (value, id) in stored
    ensures ValueHeld(form, value, id)
  {
    var k: nat :| k < |form.items| && form.compare(form.items[k].value, (value, id).0) == 0;
    assert id in form.items[k].bits;
  }

  // ----- one or more indexes -----

  function Surplus<V(!new)>(form: OrderedForm<V>): nat {
    if |form.items| == 0 then 0 else |form.items| - 1
  }

  /** The boundaries that are left to merge away. */
  function Remaining<V(!new)>(forms: seq<OrderedForm<V>>): nat {
    if forms == [] then 0 else Surplus(forms[0]) + Remaining(forms[1..])
  }

  lemma {:induction false} RemainingUpdated<V(!new)>(forms: seq<OrderedForm<V>>, k: nat, form: OrderedForm<V>)
    requires k < |forms|
    ensures Remaining(forms[k := form]) == Remaining(forms) - Surplus(forms[k]) + Surplus(form)
  {
    if k > 0 {
      assert forms[k := form][1..] == forms[1..][k - 1 := form];
      RemainingUpdated(forms[1..], k - 1, form);
    } else {
      assert forms[0 := form][1..] == forms[1..];
    }
  }

  predicate Mergeable<V(!new)>(forms: seq<OrderedForm<V>>, at: (nat, nat)) {
    at.0 < |forms| && at.1 + 1 < |forms[at.0].items|
  }

  /** `choose` names the index and the neighbours of the next merge. */
  function NextOf<V(!new)>(forms: seq<OrderedForm<V>>,
                           choose: seq<OrderedForm<V>> -> (nat, nat)): Option<seq<OrderedForm<V>>> {
    var at := choose(forms);
    if Mergeable(forms, at) then Some(forms[at.0 := MergeIn(forms[at.0], at.1)]) else None
  }

  function StepOf<V(!new)>(forms: seq<OrderedForm<V>>, choose: seq<OrderedForm<V>> -> (nat, nat)): seq<OrderedForm<V>> {
    var next := NextOf(forms, choose);
    if next.Some? then next.value else forms
  }

  function InsertInto<V(!new)>(forms: seq<OrderedForm<V>>, entry: Entry<V>): seq<OrderedForm<V>> {
    seq(|forms|, k requires 0 <= k < |forms| => StoreIn(forms[k], SlotAt(entry, k), entry.id))
  }

  function SlotAt<V>(entry: Entry<V>, k: nat): Slot<V> {
    if k < |entry.slots| then entry.slots[k] else Skipped
  }

  /** The entry is found in every index that it stores something in. */
  predicate Holds<V(!new)>(forms: seq<OrderedForm<V>>, entry: Entry<V>) {
    forall k :: 0 <= k < |forms| ==> SlotHeld(forms[k], SlotAt(entry, k), entry.id)
  }

  function OrderedOps<V(!new)>(choose: seq<OrderedForm<V>> -> (nat, nat),
                               usage: seq<OrderedForm<V>> -> nat): LeafOps<seq<OrderedForm<V>>, Entry<V>> {
    LeafOps(usage, (forms, a) => NextOf(forms, choose), (forms, a) => true, forms => StepOf(forms, choose),
            (forms, e) => InsertInto(forms, e), (forms, a) => Remaining(forms), (forms, e) => Holds(forms, e))
  }

  lemma {:induction false} NextHolds<V(!new)>(forms: seq<OrderedForm<V>>, choose: seq<OrderedForm<V>> -> (nat, nat),
                                              entry: Entry<V>)
    requires NextOf(forms, choose).Some? && Holds(forms, entry)
    ensures Holds(NextOf(forms, choose).value, entry)
  {
    var at := choose(forms);
    MergeHolds(forms[at.0], at.1, SlotAt(entry, at.0), entry.id);
  }

  lemma {:induction false} NextRemaining<V(!new)>(forms: seq<OrderedForm<V>>, choose: seq<OrderedForm<V>> -> (nat, nat))
    requires NextOf(forms, choose).Some?
    ensures Remaining(NextOf(forms, choose).value) == Remaining(forms) - 1
  {
    var at := choose(forms);
    RemainingUpdated(forms, at.0, MergeIn(forms[at.0], at.1));
  }

  lemma {:induction false} InsertHolds<V(!new)>(forms: seq<OrderedForm<V>>, entry: Entry<V>, other: Entry<V>)
    ensures Holds(InsertInto(forms, entry), entry)
    ensures Holds(forms, other) ==> Holds(InsertInto(forms, entry), other)
  {
    forall k | 0 <= k < |forms|
      ensures SlotHeld(InsertInto(forms, entry)[k], SlotAt(entry, k), entry.id)
      ensures SlotHeld(forms[k], SlotAt(other, k), other.id) ==>
                SlotHeld(InsertInto(forms, entry)[k], SlotAt(other, k), other.id)
    {
      StoreHolds(forms[k], SlotAt(entry, k), entry.id, SlotAt(other, k), other.id);
    }
  }

  /** If two boundaries are merged whenever an index has two, steps end exactly when none has. */
  lemma {:induction false} StepsEnd<V(!new)>(forms: seq<OrderedForm<V>>, choose: seq<OrderedForm<V>> -> (nat, nat))
    requires (exists k :: 0 <= k < |forms| && |forms[k].items| > 1) ==> Mergeable(forms, choose(forms))
    ensures NextOf(forms, choose).None? <==> forall k :: 0 <= k < |forms| ==> |forms[k].items| <= 1
    ensures Remaining(forms) == 0 <==> forall k :: 0 <= k < |forms| ==> |forms[k].items| <= 1
  {
    NoneRemaining(forms);
  }

  lemma {:induction false} NoneRemaining<V(!new)>(forms: seq<OrderedForm<V>>)
    ensures Remaining(forms) == 0 <==> forall k :: 0 <= k < |forms| ==> |forms[k].items| <= 1
  {
    if forms != [] {
      NoneRemaining(forms[1..]);
      assert forall k :: 0 < k < |forms| ==> forms[1..][k - 1] == forms[k];
    }
  }

  /** Ordered leaves obey the controller's laws, for every choice of merges and every accounting. */
  lemma {:induction false} OrderedIsLawful<V(!new)>(choose: seq<OrderedForm<V>> -> (nat, nat),
                                                    usage: seq<OrderedForm<V>> -> nat)
    ensures Lawful(OrderedOps(choose, usage))
  {
    hide Holds, NextOf, InsertInto, Remaining;
    forall forms: seq<OrderedForm<V>> | NextOf(forms, choose).Some?
      ensures Remaining(NextOf(forms, choose).value) == Remaining(forms) - 1
    {
      NextRemaining(forms, choose);
    }
    forall forms: seq<OrderedForm<V>>, e: Entry<V> | NextOf(forms, choose).Some? && Holds(forms, e)
      ensures Holds(NextOf(forms, choose).value, e)
    {
      NextHolds(forms, choose, e);
    }
    forall forms: seq<OrderedForm<V>>, d: Entry<V>
      ensures Holds(InsertInto(forms, d), d)
    {
      InsertHolds(forms, d, d);
    }
    forall forms: seq<OrderedForm<V>>, d: Entry<V>, e: Entry<V> | Holds(forms, e)
      ensures Holds(InsertInto(forms, d), e)
    {
      InsertHolds(forms, d, e);
    }
  }
}
