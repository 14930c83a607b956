/**
 The strict wildcard-complement rewrite: two groups of equality children of an All whose wildcards complement each
 other become one operand that only unites the two sides' concrete intersections.
 */
module EqualityAntonyms {
  import opened Bitmaps
  import opened EqualityLeaves
  import AllExecution

  const CHEAP_DIRECT_SCAN_LIMIT: nat := 512
  const NO_CARDINALITY: nat := 0xFFFF_FFFF_FFFF_FFFF

  /**
   An equality child at one query. `pointer` identifies its interned wildcard bitmap, and `compact` says that the
   posting of the query value is kept as an ID list rather than as a bitmap.
   */
  datatype Operand<K> = Operand(leaf: Leaf<K>, query: Option<K>, pointer: nat, compact: bool)

  function Concretes<K(==)>(operand: Operand<K>): set<nat>
    requires |operand.leaf.keys| == |operand.leaf.sets|
  {
    Concrete(operand.leaf, operand.query)
  }

  ghost predicate Usable<K>(operand: Operand<K>) {
    WellFormed(operand.leaf)
  }

  ghost predicate AllUsable<K>(side: seq<Operand<K>>) {
    forall k :: 0 <= k < |side| ==> Usable(side[k])
  }

  /** The plain equality match: a stored wildcard or the posting of the query value. */
  ghost predicate Matches<K>(operand: Operand<K>, id: nat)
    requires Usable(operand)
  {
    id in operand.leaf.wildcard || id in Concretes(operand)
  }

  ghost predicate InSide<K>(side: seq<Operand<K>>, id: nat)
    requires AllUsable(side)
  {
    forall k :: 0 <= k < |side| ==> id in Concretes(side[k])
  }

  // ----- the cardinality argument -----

  function Total(sets: seq<set<nat>>): nat {
    if sets == [] then 0 else |sets[0]| + Total(sets[1..])
  }

  function UniverseCardinality<K>(leaf: Leaf<K>): nat {
    |leaf.wildcard| + Total(leaf.sets)
  }

  function XorCardinality(a: set<nat>, b: set<nat>): int {
    |a| + |b| - 2 * |a * b|
  }

  /** The test made by the rewrite on the first operand of each class. */
  predicate WildcardComplements<K>(left: Leaf<K>, right: Leaf<K>) {
    && UniverseCardinality(left) == UniverseCardinality(right)
    && XorCardinality(left.wildcard, right.wildcard) == UniverseCardinality(left)
  }

  lemma {:induction false} UnionBound(sets: seq<set<nat>>)
    ensures |Union(sets)| <= Total(sets)
  {
    if sets != [] {
      UnionBound(sets[1..]);
      UnionCardinality(sets[0], Union(sets[1..]));
    }
  }

  /** A leaf's total counts its universe at least once, and an ID that is both wildcard and concrete twice. */
  lemma {:induction false} TotalCounts<K>(leaf: Leaf<K>)
    ensures UniverseCardinality(leaf) >= |Universe(leaf)| + |leaf.wildcard * Union(leaf.sets)|
  {
    UnionBound(leaf.sets);
    UnionCardinality(leaf.wildcard, Union(leaf.sets));
  }

  lemma {:induction false} XorIsSymmetricDifference(a: set<nat>, b: set<nat>)
    ensures XorCardinality(a, b) == |(a - b) + (b - a)|
  {
    assert a == (a - b) + a * b && (a - b) !! a * b;
    assert b == (b - a) + a * b && (b - a) !! a * b;
    assert |a| == |a - b| + |a * b| && |b| == |b - a| + |a * b|;
    UnionCardinality(a - b, b - a);
    assert (a - b) * (b - a) == {};
  }

  /**
   With every ID known to both leaves, the count succeeds exactly when the wildcards partition the IDs and neither
   leaf counts an ID twice.
   */
  lemma {:induction false} ComplementsExactly<K>(left: Leaf<K>, right: Leaf<K>, ids: set<nat>)
    requires Universe(left) == ids == Universe(right)
    ensures WildcardComplements(left, right) <==>
              && left.wildcard !! right.wildcard && left.wildcard + right.wildcard == ids
              && UniverseCardinality(left) == |ids| == UniverseCardinality(right)
    ensures WildcardComplements(left, right) ==>
              left.wildcard !! Union(left.sets) && right.wildcard !! Union(right.sets)
  {
    TotalCounts(left);
    TotalCounts(right);
    XorIsSymmetricDifference(left.wildcard, right.wildcard);
    var xor := (left.wildcard - right.wildcard) + (right.wildcard - left.wildcard);
    SubsetCardinality(xor, ids);
    if WildcardComplements(left, right) {
      assert |xor| == |ids| && xor == ids;
      assert left.wildcard * Union(left.sets) == {} && right.wildcard * Union(right.sets) == {};
      assert left.wildcard * right.wildcard <= ids - xor;
    } else if left.wildcard !! right.wildcard && left.wildcard + right.wildcard == ids {
      assert xor == ids;
    }
  }

  lemma {:induction false} PostingWithin<K>(keys: seq<K>, sets: seq<set<nat>>, key: K)
    requires |keys| == |sets|
    ensures Posting(keys, sets, key) <= Union(sets)
  {
    if keys != [] && keys[0] != key {
      PostingWithin(keys[1..], sets[1..], key);
    }
  }

  lemma {:induction false} ConcretesWithin<K>(operand: Operand<K>)
    requires Usable(operand)
    ensures Concretes(operand) <= Union(operand.leaf.sets)
  {
    if operand.query.Some? {
      PostingWithin(operand.leaf.keys, operand.leaf.sets, operand.query.value);
    }
  }

  /** Two sides of an All of which only the first operands have been counted. */
  ghost predicate Antonyms<K>(left: seq<Operand<K>>, right: seq<Operand<K>>, ids: set<nat>) {
    && left != [] && right != [] && AllUsable(left) && AllUsable(right)
    && (forall k :: 0 <= k < |left| ==> left[k].leaf.wildcard == left[0].leaf.wildcard)
    && (forall k :: 0 <= k < |right| ==> right[k].leaf.wildcard == right[0].leaf.wildcard)
    && Universe(left[0].leaf) == ids == Universe(right[0].leaf)
    && WildcardComplements(left[0].leaf, right[0].leaf)
  }

  ghost predicate AllMatch<K>(side: seq<Operand<K>>, id: nat)
    requires AllUsable(side)
  {
    forall k :: 0 <= k < |side| ==> Matches(side[k], id)
  }

  /** On one side, either all concrete postings hold the ID or the shared wildcard does, never both. */
  lemma {:induction false} SideMatches<K>(side: seq<Operand<K>>, id: nat)
    requires side != [] && AllUsable(side)
    requires forall k :: 0 <= k < |side| ==> side[k].leaf.wildcard == side[0].leaf.wildcard
    requires side[0].leaf.wildcard !! Union(side[0].leaf.sets)
    ensures AllMatch(side, id) <==> id in side[0].leaf.wildcard || InSide(side, id)
    ensures InSide(side, id) ==> id in Universe(side[0].leaf) && id !in side[0].leaf.wildcard
  {
    ConcretesWithin(side[0]);
    if id in side[0].leaf.wildcard {
      assert id !in Concretes(side[0]);
    } else {
      assert forall k :: 0 <= k < |side| ==> (Matches(side[k], id) <==> id in Concretes(side[k]));
    }
  }

  /** The rewrite preserves the conjunction, although the other operands may hold an ID both ways. */
  lemma {:induction false} AntonymPreservesConjunction<K>(left: seq<Operand<K>>, right: seq<Operand<K>>, ids: set<nat>,
                                                          id: nat)
    requires Antonyms(left, right, ids)
    ensures AllMatch(left, id) && AllMatch(right, id) <==> InSide(left, id) || InSide(right, id)
  {
    ComplementsExactly(left[0].leaf, right[0].leaf, ids);
    SideMatches(left, id);
    SideMatches(right, id);
  }

  // ----- adding one side -----

  function SideSet<K(==)>(side: seq<Operand<K>>): (bits: set<nat>)
    requires side != [] && AllUsable(side)
    ensures forall id: nat :: id in bits <==> InSide(side, id)
  {
    set id | id in Concretes(side[0]) && forall k :: 0 <= k < |side| ==> id in Concretes(side[k])
  }

  /** The first operand with the smallest concrete posting, or none when no posting can be counted. */
  method SideCandidate<K(==)>(side: seq<Operand<K>>) returns (index: Option<nat>, cardinality: nat)
    requires AllUsable(side)
    ensures index.Some? ==> index.value < |side| && cardinality == |Concretes(side[index.value])|
    ensures index.Some? ==> forall k :: 0 <= k < |side| ==> cardinality <= |Concretes(side[k])|
    ensures index.Some? ==> forall k :: 0 <= k < index.value ==> cardinality < |Concretes(side[k])|
    ensures index.None? ==> forall k :: 0 <= k < |side| ==> NO_CARDINALITY <= |Concretes(side[k])|
  {
    index, cardinality := None, NO_CARDINALITY;
    var k := 0;
    while k < |side|
      invariant 0 <= k <= |side|
      invariant index.Some? ==> index.value < k && cardinality == |Concretes(side[index.value])|
      invariant index.None? ==> cardinality == NO_CARDINALITY
      invariant forall j :: 0 <= j < k ==> cardinality <= |Concretes(side[j])|
      invariant index.Some? ==> forall j :: 0 <= j < index.value ==> cardinality < |Concretes(side[j])|
    {
      if |Concretes(side[k])| < cardinality {
        index, cardinality := Some(k), |Concretes(side[k])|;
      }
      k := k + 1;
    }
  }

  method MatchesExcept<K(==)>(side: seq<Operand<K>>, skipped: nat, id: nat) returns (matches: bool)
    requires AllUsable(side) && skipped < |side| && id in Concretes(side[skipped])
    ensures matches <==> InSide(side, id)
  {
    var k := 0;
    while k < |side|
      invariant 0 <= k <= |side| && forall j :: 0 <= j < k ==> id in Concretes(side[j])
    {
      if k != skipped && id !in Concretes(side[k]) {
        return false;
      }
      k := k + 1;
    }
    matches := true;
  }

  method SetAllMatches<K(==)>(side: seq<Operand<K>>, candidate: nat) returns (all: bool)
    requires AllUsable(side) && candidate < |side|
    ensures all <==> Concretes(side[candidate]) <= SideSet(side)
  {
    var rest := Concretes(side[candidate]);
    while rest != {}
      invariant rest <= Concretes(side[candidate]) && Concretes(side[candidate]) - rest <= SideSet(side)
      decreases rest
    {
      var id :| id in rest;
      var matches := MatchesExcept(side, candidate, id);
      if !matches {
        return false;
      }
      rest := rest - {id};
    }
    all := true;
  }

  method FilterSet<K(==)>(side: seq<Operand<K>>, candidate: nat, dst: Bitmap)
    requires AllUsable(side) && candidate < |side|
    modifies dst
    ensures dst.ids == old(dst.ids) + SideSet(side)
  {
    var rest := Concretes(side[candidate]);
    while rest != {}
      invariant rest <= Concretes(side[candidate])
      invariant dst.ids == old(dst.ids) + (SideSet(side) - rest)
      decreases rest
    {
      var id :| id in rest;
      var matches := MatchesExcept(side, candidate, id);
      if matches {
        dst.Add(id);
      }
      rest := rest - {id};
    }
  }

  /** Operand `j` comes before rank (cardinality, index). */
  predicate Before<K(==)>(side: seq<Operand<K>>, j: nat, cardinality: nat, index: nat)
    requires AllUsable(side)
  {
    1 <= j < |side| && (|Concretes(side[j])| < cardinality || (|Concretes(side[j])| == cardinality && j < index))
  }

  ghost function AllBefore<K>(side: seq<Operand<K>>, cardinality: nat, index: nat): set<nat>
    requires AllUsable(side)
  {
    set j | 0 <= j < |side| && Before(side, j, cardinality, index)
  }

  /** The largest rank below the bound. */
  method SelectBelow<K(==)>(side: seq<Operand<K>>, cardinality: nat, index: nat) returns (selected: Option<nat>)
    requires AllUsable(side)
    ensures selected.None? ==> forall j: nat :: !Before(side, j, cardinality, index)
    ensures selected.Some? ==> Before(side, selected.value, cardinality, index)
    ensures selected.Some? ==> forall j: nat :: Before(side, j, cardinality, index) ==>
              j == selected.value || Before(side, j, |Concretes(side[selected.value])|, selected.value)
  {
    selected := None;
    var k := 1;
    while k < |side|
      invariant 1 <= k
      invariant selected.None? ==> forall j: nat :: j < k ==> !Before(side, j, cardinality, index)
      invariant selected.Some? ==> selected.value < k && Before(side, selected.value, cardinality, index)
      invariant selected.Some? ==> forall j: nat :: j < k && Before(side, j, cardinality, index) ==>
                  j == selected.value || Before(side, j, |Concretes(side[selected.value])|, selected.value)
    {
      if Before(side, k, cardinality, index) {
        if selected.None? || |Concretes(side[k])| > |Concretes(side[selected.value])|
           || (|Concretes(side[k])| == |Concretes(side[selected.value])| && k > selected.value) {
          selected := Some(k);
        }
      }
      k := k + 1;
    }
  }

  /** The operands are listed in ascending (cardinality, index) order, so none occurs twice. */
  ghost predicate AscendingRanks<K>(side: seq<Operand<K>>, order: seq<nat>)
    requires AllUsable(side)
  {
    && (forall k :: 0 <= k < |order| ==> 1 <= order[k] < |side|)
    && (forall j, k :: 0 <= j < k < |order| ==> Before(side, order[j], |Concretes(side[order[k]])|, order[k]))
  }

  /** The candidates narrowed by the listed operands. */
  function NarrowedBy<K(==)>(side: seq<Operand<K>>, order: seq<nat>, bits: set<nat>): set<nat>
    requires AllUsable(side) && forall k :: 0 <= k < |order| ==> order[k] < |side|
  {
    if order == [] then bits
    else NarrowedBy(side, order[..|order| - 1], bits) * Concretes(side[order[|order| - 1]])
  }

  lemma {:induction false} NarrowedMembers<K>(side: seq<Operand<K>>, order: seq<nat>, bits: set<nat>, id: nat)
    requires AllUsable(side) && forall k :: 0 <= k < |order| ==> order[k] < |side|
    ensures id in NarrowedBy(side, order, bits) <==>
              id in bits && forall k :: 0 <= k < |order| ==> id in Concretes(side[order[k]])
  {
    if order != [] {
      NarrowedMembers(side, order[..|order| - 1], bits, id);
    }
  }

  /**
   Selects every rank before the first intersection and applies them while the recursion unwinds. `order` is what was
   applied: in ascending rank order, and all ranks below the bound unless the candidates ran out.
   */
  method IntersectByCardinality<K(==)>(side: seq<Operand<K>>, bits: Bitmap, cardinality: nat, index: nat)
    returns (ok: bool, ghost order: seq<nat>)
    requires AllUsable(side)
    modifies bits
    ensures AscendingRanks(side, order) && bits.ids == NarrowedBy(side, order, old(bits.ids))
    ensures forall k :: 0 <= k < |order| ==> order[k] in AllBefore(side, cardinality, index)
    ensures ok ==> forall j :: j in AllBefore(side, cardinality, index) ==> j in order
    ensures !ok ==> bits.ids == {}
    decreases AllBefore(side, cardinality, index)
  {
    order := [];
    var selected := SelectBelow(side, cardinality, index);
    if selected.None? {
      return true, order;
    }
    var next := selected.value;
    assert next in AllBefore(side, cardinality, index) - AllBefore(side, |Concretes(side[next])|, next);
    ghost var below;
    ok, below := IntersectByCardinality(side, bits, |Concretes(side[next])|, next);
    order := below;
    if !ok {
      return;
    }
    order := below + [next];
    assert order[..|order| - 1] == below;
    bits.And(Concretes(side[next]));
    ok := bits.ids != {};
  }

  /** All ways of adding one side add the intersection of its concrete postings. */
  method AddSideMatches<K(==)>(side: seq<Operand<K>>, dst: Bitmap)
    requires side != [] && AllUsable(side)
    requires forall k :: 0 <= k < |side| ==> |Concretes(side[k])| < NO_CARDINALITY
    modifies dst
    ensures dst.ids == old(dst.ids) + SideSet(side)
  {
    if |side| == 1 {
      dst.Or(Concretes(side[0]));
      return;
    }
    var candidate, cardinality := SideCandidate(side);
    if candidate.Some? {
      if cardinality == 0 {
        assert Concretes(side[candidate.value]) == {};
        return;
      }
      if cardinality <= CHEAP_DIRECT_SCAN_LIMIT {
        var all := SetAllMatches(side, candidate.value);
        if all {
          assert SideSet(side) <= Concretes(side[candidate.value]);
          dst.Or(Concretes(side[candidate.value]));
        } else {
          FilterSet(side, candidate.value, dst);
        }
        return;
      }
    }
    var bits := new Bitmap();
    bits.Or(Concretes(side[0]));
    if candidate == Some(0) {
      IntersectInOrder(side, bits);
    } else {
      ghost var start := bits.ids;
      var _, order := IntersectByCardinality(side, bits, NO_CARDINALITY, |side|);
      RankedIntersection(side, order, start, bits.ids);
    }
    dst.Or(bits.ids);
  }

  method IntersectInOrder<K(==)>(side: seq<Operand<K>>, bits: Bitmap)
    requires side != [] && AllUsable(side) && bits.ids == Concretes(side[0])
    modifies bits
    ensures bits.ids == SideSet(side)
  {
    var k := 1;
    while k < |side|
      invariant 1 <= k <= |side|
      invariant forall id: nat :: id in bits.ids <==> forall j :: 0 <= j < k ==> id in Concretes(side[j])
    {
      bits.And(Concretes(side[k]));
      k := k + 1;
      if bits.ids == {} {
        break;
      }
    }
  }

  lemma {:induction false} RankedIntersection<K>(side: seq<Operand<K>>, order: seq<nat>, start: set<nat>,
                                                 bits: set<nat>)
    requires side != [] && AllUsable(side) && start == Concretes(side[0])
    requires forall k :: 0 <= k < |side| ==> |Concretes(side[k])| < NO_CARDINALITY
    requires AscendingRanks(side, order) && bits == NarrowedBy(side, order, start)
    requires bits == {} || forall j :: j in AllBefore(side, NO_CARDINALITY, |side|) ==> j in order
    ensures bits == SideSet(side)
  {
    forall id: nat
      ensures id in bits <==> InSide(side, id)
    {
      NarrowedMembers(side, order, start, id);
      if id in bits {
        forall j | 0 <= j < |side|
          ensures id in Concretes(side[j])
        {
          if j > 0 {
            assert j in AllBefore(side, NO_CARDINALITY, |side|);
          }
        }
      }
    }
  }

  // ----- the compiled operand -----

  datatype Component<K> = Component(left: seq<Operand<K>>, right: seq<Operand<K>>)

  ghost predicate Searchable<K>(component: Component<K>) {
    && component.left != [] && component.right != [] && AllUsable(component.left) && AllUsable(component.right)
    && (forall k :: 0 <= k < |component.left| ==> |Concretes(component.left[k])| < NO_CARDINALITY)
    && (forall k :: 0 <= k < |component.right| ==> |Concretes(component.right[k])| < NO_CARDINALITY)
  }

  ghost predicate ComponentMatches<K>(component: Component<K>, id: nat)
    requires Searchable(component)
  {
    InSide(component.left, id) || InSide(component.right, id)
  }

  method AddMatches<K(==)>(component: Component<K>, dst: Bitmap)
    requires Searchable(component)
    modifies dst
    ensures forall id: nat :: id in dst.ids <==> id in old(dst.ids) || ComponentMatches(component, id)
  {
    if |component.left| == 1 && |component.right| == 1 {
      dst.Or(Concretes(component.left[0]));
      dst.Or(Concretes(component.right[0]));
    } else {
      AddSideMatches(component.left, dst);
      AddSideMatches(component.right, dst);
    }
  }

  method SideHolds<K(==)>(side: seq<Operand<K>>, id: nat) returns (matches: bool)
    requires AllUsable(side)
    ensures matches <==> InSide(side, id)
  {
    var k := 0;
    while k < |side|
      invariant 0 <= k <= |side| && forall j :: 0 <= j < k ==> id in Concretes(side[j])
    {
      if id !in Concretes(side[k]) {
        return false;
      }
      k := k + 1;
    }
    matches := true;
  }

  method MatchesID<K(==)>(component: Component<K>, id: nat) returns (matches: bool)
    requires Searchable(component)
    ensures matches <==> ComponentMatches(component, id)
  {
    matches := SideHolds(component.left, id);
    if !matches {
      matches := SideHolds(component.right, id);
    }
  }

  /** The cardinality of the smallest posting of a side. */
  ghost predicate IsSmallest<K>(side: seq<Operand<K>>, cardinality: nat)
    requires AllUsable(side)
  {
    && (exists k :: 0 <= k < |side| && cardinality == |Concretes(side[k])|)
    && forall k :: 0 <= k < |side| ==> cardinality <= |Concretes(side[k])|
  }

  method SideCardinality<K(==)>(side: seq<Operand<K>>) returns (cardinality: nat)
    requires side != [] && AllUsable(side) && forall k :: 0 <= k < |side| ==> |Concretes(side[k])| < NO_CARDINALITY
    ensures |SideSet(side)| <= cardinality && IsSmallest(side, cardinality)
  {
    cardinality := NO_CARDINALITY;
    var k := 0;
    while k < |side|
      invariant 0 <= k <= |side| && (k == 0 ==> cardinality == NO_CARDINALITY)
      invariant k > 0 ==> exists j :: 0 <= j < k && cardinality == |Concretes(side[j])|
      invariant k > 0 ==> |SideSet(side)| <= cardinality
      invariant forall j :: 0 <= j < k ==> cardinality <= |Concretes(side[j])|
    {
      SubsetCardinality(SideSet(side), Concretes(side[k]));
      if |Concretes(side[k])| < cardinality {
        cardinality := |Concretes(side[k])|;
      }
      k := k + 1;
    }
  }

  /** The smallest postings of both sides: the estimate never undercounts, so zero proves that nothing matches. */
  method EstimateCardinality<K(==)>(component: Component<K>) returns (estimate: nat)
    requires Searchable(component)
    ensures exists left: nat, right: nat ::
              IsSmallest(component.left, left) && IsSmallest(component.right, right) && estimate == left + right
    ensures |SideSet(component.left) + SideSet(component.right)| <= estimate
    ensures estimate == 0 ==> forall id: nat :: !ComponentMatches(component, id)
  {
    var left := SideCardinality(component.left);
    var right := SideCardinality(component.right);
    estimate := left + right;
    UnionCardinality(SideSet(component.left), SideSet(component.right));
    if estimate == 0 {
      assert SideSet(component.left) == {} && SideSet(component.right) == {};
    }
  }

  /** The side is a single posting, kept as a bitmap. */
  ghost predicate Alone<K>(side: seq<Operand<K>>)
    requires AllUsable(side)
  {
    |side| == 1 && Concretes(side[0]) != {} && !side[0].compact
  }

  /** A posting is missing, and no posting kept as an ID list comes before it. */
  ghost predicate KnownEmpty<K>(side: seq<Operand<K>>)
    requires AllUsable(side)
  {
    exists k :: 0 <= k < |side| && Concretes(side[k]) == {}
                && forall j :: 0 <= j < k ==> Concretes(side[j]) != {} && !side[j].compact
  }

  /** What planning learns about one side: a posting kept as a bitmap, that the side is empty, or nothing. */
  method SidePlanning<K(==)>(side: seq<Operand<K>>) returns (bits: Option<set<nat>>, empty: bool, direct: bool)
    requires side != [] && AllUsable(side)
    ensures (bits.Some? <==> Alone(side)) && (bits.Some? ==> bits.value == SideSet(side))
    ensures (empty <==> KnownEmpty(side)) && (empty ==> SideSet(side) == {})
    ensures bits.Some? || empty ==> direct
  {
    bits, empty, direct := None, false, true;
    var k := 0;
    while k < |side|
      invariant 0 <= k <= |side| && (k > 0 ==> bits == Some(Concretes(side[k - 1])))
      invariant !empty && direct && forall j :: 0 <= j < k ==> Concretes(side[j]) != {} && !side[j].compact
    {
      if Concretes(side[k]) != {} && side[k].compact {
        return None, false, false;
      }
      if Concretes(side[k]) == {} {
        return None, true, true;
      }
      bits := Some(Concretes(side[k]));
      k := k + 1;
    }
    if |side| != 1 {
      bits := None;
    }
  }

  /** A planning bitmap is offered if one side is a single bitmap and the other is empty; it is the complete result. */
  method LookupPlanningBitmap<K(==)>(component: Component<K>) returns (bits: Option<set<nat>>)
    requires Searchable(component)
    ensures bits.Some? <==>
              || (Alone(component.left) && KnownEmpty(component.right))
              || (KnownEmpty(component.left) && Alone(component.right))
    ensures bits.Some? ==> forall id: nat :: id in bits.value <==> ComponentMatches(component, id)
  {
    var left, leftEmpty, leftDirect := SidePlanning(component.left);
    var right, rightEmpty, rightDirect := SidePlanning(component.right);
    if !leftDirect || !rightDirect {
      return None;
    }
    if rightEmpty && left.Some? {
      return left;
    }
    if leftEmpty && right.Some? {
      return right;
    }
    bits := None;
  }

  // ----- compiling the children of an All -----

  /** A child of an All at one query: an equality with its class there, any other rule, or a compiled component. */
  datatype Node<K> =
    | Equality(operand: Operand<K>, equalityClass: nat)
    | Other(child: AllExecution.Child)
    | Compiled(component: Component<K>)

  ghost predicate Sound<K>(node: Node<K>) {
    match node
    case Equality(operand, _) => Usable(operand) && |Concretes(operand)| < NO_CARDINALITY
    case Other(_) => true
    case Compiled(component) => Searchable(component)
  }

  ghost predicate NodeMatches<K>(node: Node<K>, id: nat)
    requires Sound(node)
  {
    match node
    case Equality(operand, _) => Matches(operand, id)
    case Other(child) => id in child.result
    case Compiled(component) => ComponentMatches(component, id)
  }

  ghost predicate AllSound<K>(nodes: seq<Node<K>>) {
    forall k :: 0 <= k < |nodes| ==> Sound(nodes[k])
  }

  ghost predicate Conjunction<K>(nodes: seq<Node<K>>, id: nat)
    requires AllSound(nodes)
  {
    forall k :: 0 <= k < |nodes| ==> NodeMatches(nodes[k], id)
  }

  /** Every inserted ID is known to every equality, and equal wildcard pointers mean equal wildcards. */
  ghost predicate Interned<K>(nodes: seq<Node<K>>, ids: set<nat>) {
    && AllSound(nodes)
    && (forall k :: 0 <= k < |nodes| && nodes[k].Equality? ==> Universe(nodes[k].operand.leaf) == ids)
    && (forall j, k :: 0 <= j < k < |nodes| && nodes[j].Equality? && nodes[k].Equality?
                       && nodes[j].operand.pointer == nodes[k].operand.pointer ==>
          nodes[j].operand.leaf.wildcard == nodes[k].operand.leaf.wildcard)
  }

  /** The equality children of one wildcard pointer, in schema order. */
  datatype Class<K> = Class(pointer: nat, members: seq<nat>, operands: seq<Operand<K>>)

  ghost predicate ClassOf<K>(nodes: seq<Node<K>>, cls: Class<K>) {
    && |cls.members| == |cls.operands| > 0
    && (forall k :: 0 <= k < |cls.members| ==>
          && cls.members[k] < |nodes| && nodes[cls.members[k]].Equality?
               && nodes[cls.members[k]].operand == cls.operands[k]
          && cls.operands[k].pointer == cls.pointer)
  }

  ghost predicate ClassesOf<K>(nodes: seq<Node<K>>, classes: seq<Class<K>>) {
    forall c :: 0 <= c < |classes| ==> ClassOf(nodes, classes[c])
  }

  /** The first equality child of its wildcard pointer. */
  ghost predicate LeadsClass<K>(nodes: seq<Node<K>>, i: nat) {
    && i < |nodes| && nodes[i].Equality?
    && forall k :: 0 <= k < i && nodes[k].Equality? ==> nodes[k].operand.pointer != nodes[i].operand.pointer
  }

  /** One class for each leader, in the order of the leaders. */
  ghost predicate InOrder<K>(nodes: seq<Node<K>>, classes: seq<Class<K>>)
    requires ClassesOf(nodes, classes)
  {
    && (forall c :: 0 <= c < |classes| ==> LeadsClass(nodes, classes[c].members[0]))
    && (forall c, d :: 0 <= c < d < |classes| ==> classes[c].members[0] < classes[d].members[0])
  }

  method CollectClasses<K(==)>(nodes: seq<Node<K>>) returns (classes: seq<Class<K>>)
    ensures ClassesOf(nodes, classes) && InOrder(nodes, classes)
    ensures forall c, d :: 0 <= c < d < |classes| ==> classes[c].pointer != classes[d].pointer
    ensures forall k :: 0 <= k < |nodes| && nodes[k].Equality? ==> Classified(classes, k)
  {
    hide LeadsClass, Led, ClassesOf, Classified, ByPointer;
    classes := [];
    NoClasses(nodes);
    var byWildcard: map<nat, nat> := map[];
    ghost var leaders: seq<nat> := [];
    var index := 0;
    while index < |nodes|
      invariant 0 <= index <= |nodes| && ClassesOf(nodes, classes) && Led(nodes, leaders, index)
      invariant ByPointer(classes, byWildcard)
      invariant forall k :: 0 <= k < index && nodes[k].Equality? ==>
                  Classified(classes, k) && nodes[k].operand.pointer in byWildcard
      invariant |leaders| == |classes|
      invariant forall c :: 0 <= c < |classes| ==> classes[c].members != [] && classes[c].members[0] == leaders[c]
    {
      ghost var was := classes;
      LedNext(nodes, leaders, index, byWildcard.Keys);
      if nodes[index].Equality? {
        var operand := nodes[index].operand;
        if operand.pointer in byWildcard {
          ByPointerNext(classes, byWildcard, Class(operand.pointer, [], []));
          var c := byWildcard[operand.pointer];
          ClassGrown(nodes, was, c, index);
          var grown := Class(operand.pointer, classes[c].members + [index], classes[c].operands + [operand]);
          ByPointerNext(classes, byWildcard, grown);
          classes := classes[c := grown];
          ClassExtended(was, c, index, classes);
        } else {
          ClassAppended(nodes, was, index);
          ByPointerNext(classes, byWildcard, Class(operand.pointer, [index], [operand]));
          byWildcard := byWildcard[operand.pointer := |classes|];
          classes := classes + [Class(operand.pointer, [index], [operand])];
          ClassStarted(was, index, classes);
          leaders := leaders + [index];
        }
      }
      index := index + 1;
    }
    AllLed(nodes, classes, leaders);
    PointersDiffer(classes, byWildcard);
  }

  /** The map finds the class of a pointer. */
  ghost predicate ByPointer<K>(classes: seq<Class<K>>, byWildcard: map<nat, nat>) {
    && (forall p :: p in byWildcard ==> byWildcard[p] < |classes| && classes[byWildcard[p]].pointer == p)
    && (forall c :: 0 <= c < |classes| ==> classes[c].pointer in byWildcard && byWildcard[classes[c].pointer] == c)
  }

  lemma {:induction false} ByPointerNext<K>(classes: seq<Class<K>>, byWildcard: map<nat, nat>, cls: Class<K>)
    requires ByPointer(classes, byWildcard)
    ensures cls.pointer in byWildcard ==>
              && byWildcard[cls.pointer] < |classes| && classes[byWildcard[cls.pointer]].pointer == cls.pointer
              && ByPointer(classes[byWildcard[cls.pointer] := cls], byWildcard)
    ensures cls.pointer !in byWildcard ==> ByPointer(classes + [cls], byWildcard[cls.pointer := |classes|])
  {
  }

  lemma {:induction false} NoClasses<K>(nodes: seq<Node<K>>)
    ensures ClassesOf<K>(nodes, []) && Led(nodes, [], 0) && ByPointer<K>([], map[])
  {
  }

  lemma {:induction false} PointersDiffer<K>(classes: seq<Class<K>>, byWildcard: map<nat, nat>)
    requires ByPointer(classes, byWildcard)
    ensures forall c, d :: 0 <= c < d < |classes| ==> classes[c].pointer != classes[d].pointer
  {
  }

  lemma {:induction false} ClassGrown<K>(nodes: seq<Node<K>>, classes: seq<Class<K>>, c: nat, index: nat)
    requires ClassesOf(nodes, classes) && c < |classes| && index < |nodes| && nodes[index].Equality?
    requires classes[c].pointer == nodes[index].operand.pointer
    ensures ClassesOf(nodes, classes[c := Class(nodes[index].operand.pointer, classes[c].members + [index],
                                                classes[c].operands + [nodes[index].operand])])
  {
    assert ClassOf(nodes, classes[c]);
  }

  lemma {:induction false} ClassAppended<K>(nodes: seq<Node<K>>, classes: seq<Class<K>>, index: nat)
    requires ClassesOf(nodes, classes) && index < |nodes| && nodes[index].Equality?
    ensures ClassesOf(nodes, classes + [Class(nodes[index].operand.pointer, [index], [nodes[index].operand])])
  {
  }

  /** The first children of the pointers met so far, in order. */
  ghost predicate Led<K>(nodes: seq<Node<K>>, leaders: seq<nat>, n: nat)
    requires n <= |nodes|
  {
    && (forall c :: 0 <= c < |leaders| ==> leaders[c] < n && LeadsClass(nodes, leaders[c]))
    && (forall c, d :: 0 <= c < d < |leaders| ==> leaders[c] < leaders[d])
  }

  lemma {:induction false} LedNext<K>(nodes: seq<Node<K>>, leaders: seq<nat>, index: nat, pointers: set<nat>)
    requires index < |nodes| && Led(nodes, leaders, index)
    requires forall k :: 0 <= k < index && nodes[k].Equality? ==> nodes[k].operand.pointer in pointers
    ensures Led(nodes, leaders, index + 1)
    ensures nodes[index].Equality? && nodes[index].operand.pointer !in pointers ==>
              Led(nodes, leaders + [index], index + 1)
  {
    assert nodes[index].Equality? && nodes[index].operand.pointer !in pointers ==> LeadsClass(nodes, index);
  }

  lemma {:induction false} AllLed<K>(nodes: seq<Node<K>>, classes: seq<Class<K>>, leaders: seq<nat>)
    requires ClassesOf(nodes, classes) && Led(nodes, leaders, |nodes|) && |leaders| == |classes|
    requires forall c :: 0 <= c < |classes| ==> classes[c].members != [] && classes[c].members[0] == leaders[c]
    ensures InOrder(nodes, classes)
  {
  }

  ghost predicate Classified<K>(classes: seq<Class<K>>, member: nat) {
    exists c :: 0 <= c < |classes| && member in classes[c].members
  }

  lemma {:induction false} ClassExtended<K>(was: seq<Class<K>>, c: nat, member: nat, now: seq<Class<K>>)
    requires c < |was| == |now| && now[c].members == was[c].members + [member]
    requires forall d :: 0 <= d < |was| && d != c ==> now[d] == was[d]
    ensures forall k: nat :: Classified(was, k) || k == member ==> Classified(now, k)
  {
    forall k: nat | Classified(was, k) || k == member
      ensures Classified(now, k)
    {
      if k == member {
        assert k in now[c].members;
      } else {
        var d :| 0 <= d < |was| && k in was[d].members;
        assert k in now[d].members;
      }
    }
  }

  lemma {:induction false} ClassStarted<K>(was: seq<Class<K>>, member: nat, now: seq<Class<K>>)
    requires |now| == |was| + 1 && now[..|was|] == was && now[|was|].members == [member]
    ensures forall k: nat :: Classified(was, k) || k == member ==> Classified(now, k)
  {
    forall k: nat | Classified(was, k) || k == member
      ensures Classified(now, k)
    {
      if k == member {
        assert k in now[|was|].members;
      } else {
        var d :| 0 <= d < |was| && k in was[d].members;
        assert k in now[..|was|][d].members;
      }
    }
  }

  ghost predicate Listed<K>(nodes: seq<Node<K>>, indices: set<nat>) {
    AllSound(nodes) && forall k :: k in indices ==> k < |nodes|
  }

  ghost predicate IndicesMatch<K>(nodes: seq<Node<K>>, indices: set<nat>, id: nat)
    requires Listed(nodes, indices)
  {
    forall k :: k in indices ==> NodeMatches(nodes[k], id)
  }

  function Members(indices: seq<nat>): set<nat> {
    set k | k in indices
  }

  /** The operands of a class match exactly when its member children do. */
  lemma {:induction false} ClassMatches<K>(nodes: seq<Node<K>>, cls: Class<K>, id: nat)
    requires AllSound(nodes) && ClassOf(nodes, cls)
    ensures Listed(nodes, Members(cls.members)) && AllUsable(cls.operands)
    ensures AllMatch(cls.operands, id) <==> IndicesMatch(nodes, Members(cls.members), id)
  {
    forall k | 0 <= k < |cls.members|
      ensures Usable(cls.operands[k]) && cls.members[k] in Members(cls.members)
      ensures NodeMatches(nodes[cls.members[k]], id) <==> Matches(cls.operands[k], id)
    {
      assert Sound(nodes[cls.members[k]]);
    }
  }

  lemma {:induction false} ClassOperands<K>(nodes: seq<Node<K>>, cls: Class<K>, ids: set<nat>)
    requires Interned(nodes, ids) && ClassOf(nodes, cls)
    ensures AllUsable(cls.operands) && Universe(cls.operands[0].leaf) == ids
    ensures forall k :: 0 <= k < |cls.operands| ==>
              cls.operands[k].leaf.wildcard == cls.operands[0].leaf.wildcard
                && |Concretes(cls.operands[k])| < NO_CARDINALITY
  {
    forall k | 0 <= k < |cls.operands|
      ensures Usable(cls.operands[k]) && |Concretes(cls.operands[k])| < NO_CARDINALITY
      ensures cls.operands[k].leaf.wildcard == cls.operands[0].leaf.wildcard
    {
      assert Sound(nodes[cls.members[k]]) && Sound(nodes[cls.members[0]]);
      assert nodes[cls.members[k]].operand.pointer == nodes[cls.members[0]].operand.pointer;
    }
  }

  /** The components compiled so far stand for exactly the consumed children. */
  ghost predicate Represents<K>(nodes: seq<Node<K>>, components: map<nat, Component<K>>, consumed: set<nat>) {
    && Listed(nodes, consumed) && components.Keys <= consumed
    && (forall e :: e in components ==> Searchable(components[e]))
    && (forall id: nat :: ComponentsMatch(components, id) <==> IndicesMatch(nodes, consumed, id))
  }

  ghost predicate ComponentsMatch<K>(components: map<nat, Component<K>>, id: nat)
    requires forall e :: e in components ==> Searchable(components[e])
  {
    forall e :: e in components ==> ComponentMatches(components[e], id)
  }

  lemma {:induction false} ComponentAdded<K>(nodes: seq<Node<K>>, ids: set<nat>, components: map<nat, Component<K>>,
                                             consumed: set<nat>, left: Class<K>, right: Class<K>, emit: nat)
    requires Interned(nodes, ids) && Represents(nodes, components, consumed)
    requires ClassOf(nodes, left) && ClassOf(nodes, right)
    requires WildcardComplements(left.operands[0].leaf, right.operands[0].leaf)
    requires emit !in consumed && (emit in left.members || emit in right.members)
    ensures Represents(nodes, components[emit := Component(left.operands, right.operands)],
                       consumed + Members(left.members) + Members(right.members))
  {
    var component := Component(left.operands, right.operands);
    var now := components[emit := component];
    var all := consumed + Members(left.members) + Members(right.members);
    ClassOperands(nodes, left, ids);
    ClassOperands(nodes, right, ids);
    forall id: nat
      ensures Listed(nodes, all) && (ComponentsMatch(now, id) <==> IndicesMatch(nodes, all, id))
    {
      ClassMatches(nodes, left, id);
      ClassMatches(nodes, right, id);
      AntonymPreservesConjunction(left.operands, right.operands, ids, id);
      ComponentInserted(components, emit, component, id);
      IndicesJoined(nodes, consumed, Members(left.members), Members(right.members), id);
    }
  }

  lemma {:induction false} ComponentInserted<K>(components: map<nat, Component<K>>, emit: nat, component: Component<K>,
                                                id: nat)
    requires emit !in components && Searchable(component) && forall e :: e in components ==> Searchable(components[e])
    ensures ComponentsMatch(components[emit := component], id) <==>
              ComponentsMatch(components, id) && ComponentMatches(component, id)
  {
    var now := components[emit := component];
    if ComponentsMatch(now, id) {
      assert ComponentMatches(now[emit], id);
      forall e | e in components
        ensures ComponentMatches(components[e], id)
      {
        assert e in now && now[e] == components[e];
      }
    }
  }

  lemma {:induction false} IndicesJoined<K>(nodes: seq<Node<K>>, a: set<nat>, b: set<nat>, c: set<nat>, id: nat)
    requires Listed(nodes, a) && Listed(nodes, b) && Listed(nodes, c)
    ensures Listed(nodes, a + b + c)
    ensures IndicesMatch(nodes, a + b + c, id) <==>
              IndicesMatch(nodes, a, id) && IndicesMatch(nodes, b, id) && IndicesMatch(nodes, c, id)
  {
  }

  /** Two classes whose first operands complement each other. */
  ghost predicate Complement<K>(nodes: seq<Node<K>>, i: nat, j: nat) {
    && LeadsClass(nodes, i) && LeadsClass(nodes, j) && i < j
    && WildcardComplements(nodes[i].operand.leaf, nodes[j].operand.leaf)
  }

  /** Every component stands at the first child of a class that complements a later one. */
  ghost predicate Paired<K>(nodes: seq<Node<K>>, components: map<nat, Component<K>>, consumed: set<nat>) {
    && (components == map[] ==> consumed == {})
    && forall e :: e in components ==> exists j: nat :: Complement(nodes, e, j) && e in consumed && j in consumed
  }

  /** No class among the first `n` is left over beside a complement that is left over too. */
  ghost predicate NoneLeft<K>(nodes: seq<Node<K>>, classes: seq<Class<K>>, consumed: set<nat>, n: nat)
    requires ClassesOf(nodes, classes) && n <= |classes|
  {
    forall c, d :: 0 <= c < n && c < d < |classes|
                   && classes[c].members[0] !in consumed && classes[d].members[0] !in consumed ==>
      !Complement(nodes, classes[c].members[0], classes[d].members[0])
  }

  function Smaller(a: nat, b: nat): nat {
    if a < b then a else b
  }

  /** Pairs the first unconsumed class with the next unconsumed complement, if there is one. */
  method PairClass<K(==)>(nodes: seq<Node<K>>, classes: seq<Class<K>>, first: nat, consumed: set<nat>,
                          components: map<nat, Component<K>>, ghost ids: set<nat>)
    returns (nowConsumed: set<nat>, nowComponents: map<nat, Component<K>>)
    requires Interned(nodes, ids) && ClassesOf(nodes, classes) && InOrder(nodes, classes) && first < |classes|
    requires Represents(nodes, components, consumed) && Paired(nodes, components, consumed)
    requires NoneLeft(nodes, classes, consumed, first)
    ensures Represents(nodes, nowComponents, nowConsumed) && Paired(nodes, nowComponents, nowConsumed)
    ensures NoneLeft(nodes, classes, nowConsumed, first + 1)
  {
    hide Represents, Paired, Complement, InOrder, WildcardComplements, NoneLeft;
    nowConsumed, nowComponents := consumed, components;
    NoneLeftAfter(nodes, classes, consumed, consumed, first);
    var left := classes[first];
    if left.members[0] in consumed {
      return;
    }
    var second := first + 1;
    while second < |classes|
      invariant first < second <= |classes|
      invariant forall d :: first < d < second && classes[d].members[0] !in consumed ==>
                  !Complement(nodes, left.members[0], classes[d].members[0])
    {
      var right := classes[second];
      ComplementFirst(nodes, classes, first, second);
      if right.members[0] !in consumed && WildcardComplements(left.operands[0].leaf, right.operands[0].leaf) {
        var emit := Smaller(left.members[0], right.members[0]);
        ComponentAdded(nodes, ids, components, consumed, left, right, emit);
        PairAdded(nodes, components, consumed, left, right);
        nowComponents := components[emit := Component(left.operands, right.operands)];
        nowConsumed := consumed + Members(left.members) + Members(right.members);
        NoneLeftAfter(nodes, classes, consumed, nowConsumed, first);
        return;
      }
      second := second + 1;
    }
  }

  lemma {:induction false} NoneLeftAfter<K>(nodes: seq<Node<K>>, classes: seq<Class<K>>, consumed: set<nat>,
                                            now: set<nat>, first: nat)
    requires ClassesOf(nodes, classes) && first < |classes| && consumed <= now
    requires NoneLeft(nodes, classes, consumed, first)
    ensures (classes[first].members[0] in now
             || forall d :: first < d < |classes| && classes[d].members[0] !in now ==>
                  !Complement(nodes, classes[first].members[0], classes[d].members[0])) ==>
              NoneLeft(nodes, classes, now, first + 1)
  {
  }

  lemma {:induction false} ComplementFirst<K>(nodes: seq<Node<K>>, classes: seq<Class<K>>, c: nat, d: nat)
    requires ClassesOf(nodes, classes) && InOrder(nodes, classes) && c < d < |classes|
    ensures classes[c].members[0] < classes[d].members[0]
    ensures Complement(nodes, classes[c].members[0], classes[d].members[0]) <==>
              WildcardComplements(classes[c].operands[0].leaf, classes[d].operands[0].leaf)
  {
    assert ClassOf(nodes, classes[c]) && ClassOf(nodes, classes[d]);
  }

  lemma {:induction false} PairAdded<K>(nodes: seq<Node<K>>, components: map<nat, Component<K>>, consumed: set<nat>,
                                        left: Class<K>, right: Class<K>)
    requires Paired(nodes, components, consumed) && left.members != [] && right.members != []
    requires Complement(nodes, left.members[0], right.members[0])
    ensures Paired(nodes, components[left.members[0] := Component(left.operands, right.operands)],
                   consumed + Members(left.members) + Members(right.members))
  {
    var now := components[left.members[0] := Component(left.operands, right.operands)];
    var all := consumed + Members(left.members) + Members(right.members);
    assert left.members[0] in now && right.members[0] in all && left.members[0] in all;
    forall e | e in now
      ensures exists j: nat :: Complement(nodes, e, j) && e in all && j in all
    {
      if e != left.members[0] {
        var j: nat :| Complement(nodes, e, j) && e in consumed && j in consumed;
      }
    }
  }

  /**
   Replaces complementary classes by components in the place of their first member: what is not consumed stays in
   order, and of two complementary classes at least one is consumed.
   */
  method Compile<K(==)>(nodes: seq<Node<K>>, ghost ids: set<nat>)
    returns (children: seq<Node<K>>, ghost components: map<nat, Component<K>>, ghost consumed: set<nat>)
    requires Interned(nodes, ids)
    ensures AllSound(children) && forall id: nat :: Conjunction(children, id) <==> Conjunction(nodes, id)
    ensures forall c :: c in children && !c.Compiled? ==> c in nodes
    ensures nodes != [] ==> children != []
    ensures children == Emitted(nodes, components, consumed, |nodes|) && Paired(nodes, components, consumed)
    ensures forall i: nat, j: nat :: Complement(nodes, i, j) ==> i in consumed || j in consumed
  {
    var classes := CollectClasses(nodes);
    var taken: set<nat> := {};
    var compiled: map<nat, Component<K>> := map[];
    var first := 0;
    while first < |classes|
      invariant 0 <= first <= |classes| && Represents(nodes, compiled, taken)
      invariant Paired(nodes, compiled, taken) && NoneLeft(nodes, classes, taken, first)
    {
      taken, compiled := PairClass(nodes, classes, first, taken, compiled, ids);
      first := first + 1;
    }
    components, consumed := compiled, taken;
    NoComplementLeft(nodes, classes, taken);
    if |compiled| == 0 {
      AllEmittedAsIs(nodes, |nodes|);
      return nodes, map[], {};
    }
    children := Emit(nodes, compiled, taken);
  }

  lemma {:induction false} NoComplementLeft<K>(nodes: seq<Node<K>>, classes: seq<Class<K>>, consumed: set<nat>)
    requires ClassesOf(nodes, classes) && InOrder(nodes, classes) && NoneLeft(nodes, classes, consumed, |classes|)
    requires forall k :: 0 <= k < |nodes| && nodes[k].Equality? ==> Classified(classes, k)
    ensures forall i: nat, j: nat :: Complement(nodes, i, j) ==> i in consumed || j in consumed
  {
    forall i: nat, j: nat | Complement(nodes, i, j)
      ensures i in consumed || j in consumed
    {
      var c := ClassLed(nodes, classes, i);
      var d := ClassLed(nodes, classes, j);
      assert c < d;
    }
  }

  lemma {:induction false} ClassLed<K>(nodes: seq<Node<K>>, classes: seq<Class<K>>, i: nat) returns (c: nat)
    requires ClassesOf(nodes, classes) && InOrder(nodes, classes) && LeadsClass(nodes, i) && Classified(classes, i)
    ensures c < |classes| && classes[c].members[0] == i
  {
    c :| 0 <= c < |classes| && i in classes[c].members;
    var k :| 0 <= k < |classes[c].members| && classes[c].members[k] == i;
    assert ClassOf(nodes, classes[c]) && LeadsClass(nodes, classes[c].members[0]);
    assert nodes[classes[c].members[0]].operand.pointer == nodes[i].operand.pointer;
  }

  /** The children that stay, in order, with the components in their places. */
  ghost function Emitted<K>(nodes: seq<Node<K>>, components: map<nat, Component<K>>, consumed: set<nat>,
                            n: nat): seq<Node<K>>
    requires n <= |nodes|
  {
    if n == 0 then []
    else
      Emitted(nodes, components, consumed, n - 1)
        + if n - 1 in components then [Compiled(components[n - 1])]
          else if n - 1 in consumed then []
          else [nodes[n - 1]]
  }

  lemma {:induction false} AllEmittedAsIs<K>(nodes: seq<Node<K>>, n: nat)
    requires n <= |nodes|
    ensures Emitted(nodes, map[], {}, n) == nodes[..n]
  {
    if n > 0 {
      AllEmittedAsIs(nodes, n - 1);
    }
  }

  method Emit<K(==)>(nodes: seq<Node<K>>, components: map<nat, Component<K>>, consumed: set<nat>)
    returns (children: seq<Node<K>>)
    requires AllSound(nodes) && Represents(nodes, components, consumed) && |components| > 0
    ensures AllSound(children) && forall id: nat :: Conjunction(children, id) <==> Conjunction(nodes, id)
    ensures forall c :: c in children && !c.Compiled? ==> c in nodes
    ensures children != [] && children == Emitted(nodes, components, consumed, |nodes|)
  {
    children := [];
    var index := 0;
    while index < |nodes|
      invariant 0 <= index <= |nodes| && AllSound(children)
      invariant children == Emitted(nodes, components, consumed, index)
      invariant forall c :: c in children && !c.Compiled? ==> c in nodes
      invariant forall e :: e in components && e < index ==> children != []
      invariant forall id: nat :: Conjunction(children, id) <==> EmittedMatch(nodes, components, consumed, index, id)
    {
      ghost var was := children;
      if index in components {
        children := children + [Compiled(components[index])];
      } else if index !in consumed {
        children := children + [nodes[index]];
      }
      forall id: nat
        ensures AllSound(children)
                && (Conjunction(children, id) <==> EmittedMatch(nodes, components, consumed, index + 1, id))
      {
        EmittedNext(nodes, components, consumed, index, was, children, id);
      }
      index := index + 1;
    }
    assert children != [] by {
      var e :| e in components.Keys;
      assert e in consumed;
    }
    forall id: nat
      ensures Conjunction(children, id) <==> Conjunction(nodes, id)
    {
      AllEmitted(nodes, components, consumed, id);
    }
  }

  /** The components and unconsumed children among the first `index` positions match. */
  ghost predicate EmittedMatch<K>(nodes: seq<Node<K>>, components: map<nat, Component<K>>, consumed: set<nat>,
                                  index: nat, id: nat)
    requires index <= |nodes| && Represents(nodes, components, consumed)
  {
    && (forall e :: e in components && e < index ==> ComponentMatches(components[e], id))
    && (forall k :: 0 <= k < index && k !in consumed ==> NodeMatches(nodes[k], id))
  }

  lemma {:induction false} EmittedNext<K>(nodes: seq<Node<K>>, components: map<nat, Component<K>>, consumed: set<nat>,
                                          index: nat, was: seq<Node<K>>, now: seq<Node<K>>, id: nat)
    requires index < |nodes| && Represents(nodes, components, consumed) && AllSound(was)
    requires Conjunction(was, id) <==> EmittedMatch(nodes, components, consumed, index, id)
    requires now == was + if index in components then [Compiled(components[index])]
                          else if index !in consumed then [nodes[index]]
                          else []
    ensures AllSound(now) && (Conjunction(now, id) <==> EmittedMatch(nodes, components, consumed, index + 1, id))
  {
    if now == was {
    } else {
      var last := now[|was|];
      assert Sound(last);
      assert Conjunction(now, id) <==> Conjunction(was, id) && NodeMatches(last, id) by {
        if Conjunction(now, id) {
          forall k | 0 <= k < |was|
            ensures NodeMatches(was[k], id)
          {
            assert was[k] == now[k];
          }
        }
      }
    }
  }

  lemma {:induction false} AllEmitted<K>(nodes: seq<Node<K>>, components: map<nat, Component<K>>, consumed: set<nat>,
                                         id: nat)
    requires Represents(nodes, components, consumed)
    ensures EmittedMatch(nodes, components, consumed, |nodes|, id) <==> Conjunction(nodes, id)
  {
    assert EmittedMatch(nodes, components, consumed, |nodes|, id) ==> ComponentsMatch(components, id);
    if Conjunction(nodes, id) {
      assert IndicesMatch(nodes, consumed, id);
    }
  }
}
