/** Build-time coarsening of an ordered index: rounding late values and merging neighbouring boundaries. */
module OrderedRebuild {
  import opened Bitmaps
  import opened OrderedItems
  import opened OrderedBlocks
  import opened OrderedRounding
  import opened OrderedIndexes

  datatype MergeCandidate = MergeCandidate(position: nat, cardinality: nat, footprint: nat)

  /** The boundary a late value is inserted under. */
  method RoundedBoundary<V(!new)>(index: OrderedIndex<V>, value: V, upward: bool) returns (rounded: V)
    requires index.Ordered()
    ensures IsRounded(index.compare, index.Items(), value, upward, rounded)
  {
    if |index.blocks| == 0 {
      return value;
    }
    rounded := RoundedAmong(index, index.compare, index.blocks, value, upward);
  }

  method RoundedAmong<V(!new)>(index: OrderedIndex<V>, compare: (V, V) -> int, blocks: seq<Block<V>>, value: V,
                               upward: bool)
    returns (rounded: V)
    requires index.Ordered() && blocks == index.blocks != [] && compare == index.compare
    ensures IsRounded(compare, Flat(blocks), value, upward, rounded)
  {
    var b, position, found := Locate(index, compare, blocks, value);
    rounded := RoundedNear(compare, blocks, value, b, position, found, upward);
    RoundsNear(compare, blocks, value, b, position, upward);
  }

  /** The place of a value: its block, the first item not below it there, and whether that item is equal to it. */
  method Locate<V(!new)>(index: OrderedIndex<V>, compare: (V, V) -> int, blocks: seq<Block<V>>, value: V)
    returns (b: nat, position: nat, found: bool)
    requires index.Ordered() && blocks == index.blocks != [] && compare == index.compare
    ensures IsBlockFor(compare, blocks, value, b) && position <= |blocks[b].items|
    ensures AllBelow(compare, blocks[b].items[..position], value)
    ensures position < |blocks[b].items| ==> compare(blocks[b].items[position].value, value) >= 0
    ensures found <==> position < |blocks[b].items| && compare(blocks[b].items[position].value, value) == 0
  {
    b, position, found := index.Find(value);
  }

  lemma {:induction false} RoundsNear<V(!new)>(compare: (V, V) -> int, blocks: seq<Block<V>>, value: V, b: nat,
                                               position: nat, upward: bool)
    requires TotalPreorder(compare) && Sized(blocks) && Sorted(compare, Flat(blocks))
    requires IsBlockFor(compare, blocks, value, b)
    requires position <= |blocks[b].items| && AllBelow(compare, blocks[b].items[..position], value)
    requires position < |blocks[b].items| ==> compare(blocks[b].items[position].value, value) >= 0
    ensures var p := |Flat(blocks[..b])| + position;
            p <= |Flat(blocks)|
              && IsRounded(compare, Flat(blocks), value, upward, RoundedAt(compare, Flat(blocks), value, p, upward))
  {
    AtRank(compare, blocks, value, b, position);
    RankRounds(compare, Flat(blocks), value, |Flat(blocks[..b])| + position, upward);
  }

  method RoundedNear<V>(compare: (V, V) -> int, blocks: seq<Block<V>>, value: V, b: nat, position: nat, found: bool,
                        upward: bool)
    returns (rounded: V)
    requires Sized(blocks) && IsBlockFor(compare, blocks, value, b) && position <= |blocks[b].items|
    requires AllBelow(compare, blocks[b].items[..position], value)
    requires found <==> position < |blocks[b].items| && compare(blocks[b].items[position].value, value) == 0
    ensures |Flat(blocks[..b])| + position <= |Flat(blocks)|
    ensures rounded == RoundedAt(compare, Flat(blocks), value, |Flat(blocks[..b])| + position, upward)
  {
    FlatAt(blocks, b);
    EndOfBlock(compare, blocks, value, b, position);
    var items := blocks[b].items;
    if found {
      return items[position].value;
    }
    if upward {
      // The located block reaches the value unless it is the last one, so no later block can hold the ceiling.
      if position < |items| {
        return items[position].value;
      }
      return value;
    }
    if position > 0 {
      return items[position - 1].value;
    }
    if b > 0 {
      LastAt(blocks, b - 1);
      FlatAt(blocks, b - 1);
      return Last(blocks[b - 1]);
    }
    return value;
  }

  /** Build-time insertion: once boundaries have been merged, values are rounded outward first. */
  method InsertOrdered<V(!new)>(index: OrderedIndex<V>, value: V, id: nat, upward: bool, quantized: bool)
    requires index.Valid() && index.Building()
    modifies index`blocks, index`accountingValid
    ensures index.Valid() && index.Building()
    ensures exists key :: index.Items() == Inserted(index.compare, old(index.Items()), key, {id})
                          && if quantized then IsRounded(index.compare, old(index.Items()), value, upward, key)
                               else key == value
  {
    var key := value;
    if quantized {
      key := RoundedBoundary(index, value, upward);
    }
    index.Insert(key, id);
  }

  // ----- choosing a merge -----

  function MergeCardinality<V>(items: seq<Item<V>>, j: nat): nat
    requires j + 1 < |items|
  {
    |items[j].bits + items[j + 1].bits|
  }

  function MergeFootprint<V>(items: seq<Item<V>>, size: set<nat> -> nat, j: nat): nat
    requires j + 1 < |items|
  {
    size(items[j].bits) + size(items[j + 1].bits)
  }

  /** Merging at `j` costs strictly less precision than at `k`, or as much while releasing more. */
  predicate Cheaper<V>(items: seq<Item<V>>, size: set<nat> -> nat, j: nat, k: nat)
    requires j + 1 < |items| && k + 1 < |items|
  {
    || MergeCardinality(items, j) < MergeCardinality(items, k)
    || (MergeCardinality(items, j) == MergeCardinality(items, k)
        && MergeFootprint(items, size, j) > MergeFootprint(items, size, k))
  }

  /** Among the pairs of the first `n` items: a cheapest one, and the earliest such. */
  ghost predicate IsBestMerge<V>(items: seq<Item<V>>, size: set<nat> -> nat, n: nat, best: Option<MergeCandidate>)
    requires n <= |items|
  {
    match best
    case None => n < 2
    case Some(c) =>
      && c.position + 1 < n
      && c.cardinality == MergeCardinality(items, c.position) && c.footprint == MergeFootprint(items, size, c.position)
      && (forall j: nat :: j + 1 < n ==> !Cheaper(items, size, j, c.position))
      && (forall j: nat :: j < c.position ==> Cheaper(items, size, c.position, j))
  }

  method BestMerge<V(!new)>(index: OrderedIndex<V>) returns (best: Option<MergeCandidate>)
    requires index.Ordered()
    ensures IsBestMerge(index.Items(), index.size, |index.Items()|, best)
  {
    best := BestOf(index.blocks, index.size);
  }

  method BestOf<V>(blocks: seq<Block<V>>, size: set<nat> -> nat) returns (best: Option<MergeCandidate>)
    ensures IsBestMerge(Flat(blocks), size, |Flat(blocks)|, best)
  {
    best := None;
    var previous: Option<Item<V>> := None;
    ghost var all := Flat(blocks);
    var position := 0;
    var b := 0;
    while b < |blocks|
      invariant 0 <= b <= |blocks| && position == |Flat(blocks[..b])| <= |all|
      invariant previous == if position == 0 then None else Some(all[position - 1])
      invariant IsBestMerge(all, size, position, best)
    {
      BlockSpan(blocks, b);
      best, previous := ConsiderBlock(all, size, blocks[b].items, position, previous, best);
      position := position + |blocks[b].items|;
      b := b + 1;
    }
    assert blocks[..b] == blocks;
  }

  /** Where the items of a block lie in the flat list. */
  lemma {:induction false} BlockSpan<V>(blocks: seq<Block<V>>, b: nat)
    requires b < |blocks|
    ensures |Flat(blocks[..b + 1])| == |Flat(blocks[..b])| + |blocks[b].items| <= |Flat(blocks)|
    ensures Flat(blocks)[|Flat(blocks[..b])|..|Flat(blocks[..b + 1])|] == blocks[b].items
  {
    FlatAt(blocks, b);
  }

  /** Goes through the items of one block, which start at `start` in the whole list. */
  method ConsiderBlock<V>(ghost all: seq<Item<V>>, size: set<nat> -> nat, items: seq<Item<V>>, start: nat,
                          before: Option<Item<V>>, previousBest: Option<MergeCandidate>)
    returns (best: Option<MergeCandidate>, previous: Option<Item<V>>)
    requires start + |items| <= |all| && all[start..start + |items|] == items
    requires before == if start == 0 then None else Some(all[start - 1])
    requires IsBestMerge(all, size, start, previousBest)
    ensures previous == if start + |items| == 0 then None else Some(all[start + |items| - 1])
    ensures IsBestMerge(all, size, start + |items|, best)
  {
    best, previous := previousBest, before;
    var position, k := start, 0;
    while k < |items|
      invariant 0 <= k <= |items| && position == start + k
      invariant previous == if position == 0 then None else Some(all[position - 1])
      invariant IsBestMerge(all, size, position, best)
    {
      assert all[position] == all[start..start + |items|][k];
      best := ConsiderMerge(all, size, position, previous, items[k], best);
      previous := Some(items[k]);
      position, k := position + 1, k + 1;
    }
  }

  lemma {:induction false} NewBest<V>(items: seq<Item<V>>, size: set<nat> -> nat, last: nat, best: nat)
    requires last + 1 < |items| && best < last
    requires forall j: nat :: j + 1 < last + 1 ==> !Cheaper(items, size, j, best)
    requires Cheaper(items, size, last, best)
    ensures forall j: nat :: j < last ==> Cheaper(items, size, last, j)
    ensures forall j: nat :: j < last ==> !Cheaper(items, size, j, last)
  {
    forall j: nat | j < last
      ensures Cheaper(items, size, last, j) && !Cheaper(items, size, j, last)
    {
      assert !Cheaper(items, size, j, best);
    }
  }

  /** The cardinality of a union, computed from an intersection. */
  lemma {:induction false} MergeCost(a: set<nat>, b: set<nat>)
    ensures |a + b| == |a| + |b| - |a * b|
  {
    UnionCardinality(a, b);
  }

  method ConsiderMerge<V>(ghost items: seq<Item<V>>, size: set<nat> -> nat, position: nat, previous: Option<Item<V>>,
                          current: Item<V>, best: Option<MergeCandidate>)
      returns (next: Option<MergeCandidate>)
    requires position < |items| && current == items[position]
    requires previous == if position == 0 then None else Some(items[position - 1])
    requires IsBestMerge(items, size, position, best)
    ensures IsBestMerge(items, size, position + 1, next)
  {
    next := best;
    if previous.Some? {
      MergeCost(previous.value.bits, current.bits);
      var cardinality := |previous.value.bits| + |current.bits| - |previous.value.bits * current.bits|;
      var footprint := size(previous.value.bits) + size(current.bits);
      assert cardinality == MergeCardinality(items, position - 1);
      assert footprint == MergeFootprint(items, size, position - 1);
      hide MergeCardinality, MergeFootprint;
      if best.None? || cardinality < best.value.cardinality
         || (cardinality == best.value.cardinality && footprint > best.value.footprint) {
        next := Some(MergeCandidate(position - 1, cardinality, footprint));
        if best.Some? {
          NewBest(items, size, position - 1, best.value.position);
        }
      }
    }
  }

  // ----- performing a merge -----

  /** The block and offset of a flat position. */
  method ItemPosition<V(!new)>(index: OrderedIndex<V>, position: nat) returns (b: nat, k: nat)
    requires index.Ordered() && position < |index.Items()|
    ensures b < |index.blocks| && k < |index.blocks[b].items|
    ensures |Flat(index.blocks[..b])| + k == position
  {
    b, k := 0, position;
    assert index.blocks[..|index.blocks|] == index.blocks;
    FlatAt(index.blocks, 0);
    while k >= |index.blocks[b].items|
      invariant b < |index.blocks| && |Flat(index.blocks[..b])| + k == position
    {
      FlatAt(index.blocks, b);
      k := k - |index.blocks[b].items|;
      b := b + 1;
    }
  }

  /** A one-item block shares its only posting; wider blocks get the union. */
  function NewBlock<V>(items: seq<Item<V>>): Block<V> {
    Block(items, if |items| == 1 then items[0].bits else Postings(items))
  }

  lemma {:induction false} NewBlockAggregated<V>(items: seq<Item<V>>)
    ensures NewBlock(items).bits == Postings(items)
  {
    if |items| == 1 {
      assert items[1..] == [];
    }
  }

  lemma {:induction false} MergedWithin<V>(below: seq<Item<V>>, region: seq<Item<V>>, above: seq<Item<V>>, k: nat,
                                           upward: bool)
    requires k + 1 < |region|
    ensures Merged(below + region + above, |below| + k, upward) == below + Merged(region, k, upward) + above
  {
  }

  lemma {:induction false} MergedKeepsPostings<V>(items: seq<Item<V>>, k: nat, upward: bool)
    requires k + 1 < |items| && NoEmptyPosting(items)
    ensures NoEmptyPosting(Merged(items, k, upward))
  {
  }

  function Pieces<V>(left: seq<Item<V>>, right: seq<Item<V>>): seq<Block<V>> {
    (if left == [] then [] else [NewBlock(left)]) + (if right == [] then [] else [NewBlock(right)])
  }

  lemma {:induction false} PiecesFlat<V>(left: seq<Item<V>>, right: seq<Item<V>>)
    requires |left| <= 2 * BLOCK_SIZE && |right| <= 2 * BLOCK_SIZE
    ensures Flat(Pieces(left, right)) == left + right
    ensures Sized(Pieces(left, right)) && Aggregated(Pieces(left, right))
  {
    FlatConcat(if left == [] then [] else [NewBlock(left)], if right == [] then [] else [NewBlock(right)]);
    FlatOne(NewBlock(left));
    FlatOne(NewBlock(right));
    NewBlockAggregated(left);
    NewBlockAggregated(right);
  }

  lemma {:induction false} TwoBlocks<V>(blocks: seq<Block<V>>, b: nat)
    requires b + 1 < |blocks|
    ensures Flat(blocks[b..b + 2]) == blocks[b].items + blocks[b + 1].items
  {
    assert blocks[b..b + 2] == [blocks[b]] + [blocks[b + 1]];
    FlatConcat([blocks[b]], [blocks[b + 1]]);
    FlatOne(blocks[b]);
    FlatOne(blocks[b + 1]);
  }

  /** Consecutive flat positions share a block, or end one and start the next. */
  lemma {:induction false} Neighbours<V>(blocks: seq<Block<V>>, lb: nat, lp: nat, rb: nat, rp: nat)
    requires Sized(blocks) && lb < |blocks| && rb < |blocks| && lp < |blocks[lb].items| && rp < |blocks[rb].items|
    requires |Flat(blocks[..lb])| + lp + 1 == |Flat(blocks[..rb])| + rp
    ensures (lb == rb && rp == lp + 1) || (rb == lb + 1 && lp == |blocks[lb].items| - 1 && rp == 0)
  {
    FlatAt(blocks, lb);
    FlatAt(blocks, rb);
    if lb < rb {
      FlatPrefix(blocks, lb + 1, rb);
      if lb + 1 < rb { FlatAt(blocks, lb + 1); FlatPrefix(blocks, lb + 2, rb); }
    } else if rb < lb {
      FlatPrefix(blocks, rb + 1, lb);
    }
  }

  lemma {:induction false} FlatPrefix<V>(blocks: seq<Block<V>>, a: nat, b: nat)
    requires a <= b <= |blocks|
    ensures |Flat(blocks[..a])| <= |Flat(blocks[..b])|
  {
    FlatSlice(blocks, 0, a, b);
    assert blocks[0..a] == blocks[..a] && blocks[0..b] == blocks[..b];
  }

  function Spliced<V>(blocks: seq<Block<V>>, b: nat, count: nat, replacement: seq<Block<V>>): seq<Block<V>>
    requires b + count <= |blocks|
  {
    blocks[..b] + replacement + blocks[b + count..]
  }

  function SplicedAccounting<V>(blocks: seq<Block<V>>, b: nat, count: nat, replacement: seq<Block<V>>,
                                size: set<nat> -> nat, valueBytes: V -> nat, current: Accounting): (next: Accounting)
    requires b + count <= |blocks| && current == BlocksAccounting(blocks, size, valueBytes)
    ensures next == BlocksAccounting(Spliced(blocks, b, count, replacement), size, valueBytes)
  {
    AccountingReplace(blocks, b, count, replacement, size, valueBytes);
    Plus(Minus(current, BlocksAccounting(blocks[b..b + count], size, valueBytes)),
         BlocksAccounting(replacement, size, valueBytes))
  }

  lemma {:induction false} SplicedReady<V(!new)>(compare: (V, V) -> int, blocks: seq<Block<V>>, position: nat, b: nat,
                                                 count: nat, replacement: seq<Block<V>>, k: nat, upward: bool)
    requires Sized(blocks) && Aggregated(blocks) && Sorted(compare, Flat(blocks)) && NoEmptyPosting(Flat(blocks))
    requires IsMergePlan(blocks, position, upward, b, count, replacement, k)
    ensures position + 1 < |Flat(blocks)|
    ensures var next := Spliced(blocks, b, count, replacement);
            && Sized(next) && Aggregated(next) && Sorted(compare, Flat(next)) && NoEmptyPosting(Flat(next))
            && Flat(next) == Merged(Flat(blocks), position, upward)
  {
    hide Sorted, NoEmptyPosting, Sized, Aggregated, Flat, Merged;
    SplicedItems(blocks, b, count, replacement, k, upward);
    SplicedBlocks(blocks, b, count, replacement);
    MergedReady(compare, Flat(blocks), position, upward, Flat(Spliced(blocks, b, count, replacement)));
  }

  lemma {:induction false} MergedReady<V(!new)>(compare: (V, V) -> int, items: seq<Item<V>>, position: nat,
                                                upward: bool, fewer: seq<Item<V>>)
    requires Sorted(compare, items) && NoEmptyPosting(items)
    requires position + 1 < |items| && fewer == Merged(items, position, upward)
    ensures Sorted(compare, fewer) && NoEmptyPosting(fewer)
  {
    MergedSorted(compare, items, position, upward);
    MergedKeepsPostings(items, position, upward);
  }

  lemma {:induction false} SplicedItems<V>(blocks: seq<Block<V>>, b: nat, count: nat, replacement: seq<Block<V>>,
                                           k: nat, upward: bool)
    requires b + count <= |blocks|
    requires k + 1 < |Flat(blocks[b..b + count])|
    requires Flat(replacement) == Merged(Flat(blocks[b..b + count]), k, upward)
    ensures |Flat(blocks[..b])| + k + 1 < |Flat(blocks)|
    ensures Flat(Spliced(blocks, b, count, replacement)) == Merged(Flat(blocks), |Flat(blocks[..b])| + k, upward)
  {
    FlatReplace(blocks, b, count, replacement);
    FlatReplace(blocks, b, count, blocks[b..b + count]);
    assert blocks == blocks[..b] + blocks[b..b + count] + blocks[b + count..];
    MergedWithin(Flat(blocks[..b]), Flat(blocks[b..b + count]), Flat(blocks[b + count..]), k, upward);
  }

  lemma {:induction false} SplicedBlocks<V>(blocks: seq<Block<V>>, b: nat, count: nat, replacement: seq<Block<V>>)
    requires b + count <= |blocks| && Sized(blocks) && Aggregated(blocks) && Sized(replacement)
             && Aggregated(replacement)
    ensures Sized(Spliced(blocks, b, count, replacement)) && Aggregated(Spliced(blocks, b, count, replacement))
  {
  }

  /** The blocks that change in a merge, and what replaces them; `k` is the merge position inside them. */
  ghost predicate IsMergePlan<V>(blocks: seq<Block<V>>, position: nat, upward: bool, b: nat, count: nat,
                                 replacement: seq<Block<V>>, k: nat) {
    && b + count <= |blocks|
    && |Flat(blocks[..b])| + k == position
    && k + 1 < |Flat(blocks[b..b + count])|
    && Flat(replacement) == Merged(Flat(blocks[b..b + count]), k, upward)
    && Sized(replacement) && Aggregated(replacement)
  }

  function MergedItem<V>(left: Item<V>, right: Item<V>, upward: bool): Item<V> {
    Item(if upward then right.value else left.value, left.bits + right.bits)
  }

  function InsideReplacement<V>(items: seq<Item<V>>, k: nat, upward: bool): seq<Block<V>>
    requires k + 1 < |items|
  {
    [NewBlock(items[..k] + [MergedItem(items[k], items[k + 1], upward)] + items[k + 2..])]
  }

  lemma {:induction false} InsidePlan<V>(blocks: seq<Block<V>>, b: nat, k: nat, upward: bool)
    requires Sized(blocks) && b < |blocks| && k + 1 < |blocks[b].items|
    ensures IsMergePlan(blocks, |Flat(blocks[..b])| + k, upward, b, 1, InsideReplacement(blocks[b].items, k, upward), k)
  {
    var items := Merged(blocks[b].items, k, upward);
    assert blocks[b..b + 1] == [blocks[b]];
    FlatOne(blocks[b]);
    FlatOne(NewBlock(items));
    NewBlockAggregated(items);
  }

  /** The last item of one block and the first of the next; a block that loses its only item disappears. */
  function AcrossReplacement<V>(left: seq<Item<V>>, right: seq<Item<V>>, upward: bool): seq<Block<V>>
    requires left != [] && right != []
  {
    var k := |left| - 1;
    var merged := MergedItem(left[k], right[0], upward);
    if upward then Pieces(left[..k], [merged] + right[1..]) else Pieces(left[..k] + [merged], right[1..])
  }

  lemma {:induction false} AcrossPlan<V>(blocks: seq<Block<V>>, b: nat, upward: bool)
    requires Sized(blocks) && b + 1 < |blocks|
    ensures var k := |blocks[b].items| - 1;
            IsMergePlan(blocks, |Flat(blocks[..b])| + k, upward, b, 2,
                        AcrossReplacement(blocks[b].items, blocks[b + 1].items, upward), k)
  {
    var left, right := blocks[b].items, blocks[b + 1].items;
    var k := |left| - 1;
    var merged := MergedItem(left[k], right[0], upward);
    TwoBlocks(blocks, b);
    PiecesFlat(left[..k], [merged] + right[1..]);
    PiecesFlat(left[..k] + [merged], right[1..]);
    CrossMerged(left, right, upward);
  }

  lemma {:induction false} CrossMerged<V>(left: seq<Item<V>>, right: seq<Item<V>>, upward: bool)
    requires left != [] && right != []
    ensures var k := |left| - 1;
            var merged := MergedItem(left[k], right[0], upward);
            Merged(left + right, k, upward)
            == if upward then left[..k] + ([merged] + right[1..]) else (left[..k] + [merged]) + right[1..]
  {
  }

  method PlanMerge<V(!new)>(index: OrderedIndex<V>, upward: bool, position: nat)
      returns (b: nat, count: nat, replacement: seq<Block<V>>, k: nat)
    requires index.Ordered() && position + 1 < |index.Items()|
    ensures IsMergePlan(index.blocks, position, upward, b, count, replacement, k)
  {
    var leftBlock, leftPosition := ItemPosition(index, position);
    var rightBlock, rightPosition := ItemPosition(index, position + 1);
    Neighbours(index.blocks, leftBlock, leftPosition, rightBlock, rightPosition);
    b, k := leftBlock, leftPosition;
    if leftBlock == rightBlock {
      InsidePlan(index.blocks, b, leftPosition, upward);
      count, replacement := 1, InsideReplacement(index.blocks[b].items, leftPosition, upward);
    } else {
      AcrossPlan(index.blocks, b, upward);
      count, replacement := 2, AcrossReplacement(index.blocks[b].items, index.blocks[b + 1].items, upward);
    }
  }

  /**
   Merges the items at `position` and `position + 1` into a new index; the source keeps its contents.
   The accounting is carried over by subtracting the old blocks and adding the new ones.
   */
  method RebuildSelected<V(!new)>(index: OrderedIndex<V>, upward: bool, position: nat) returns (next: OrderedIndex<V>)
    requires index.Valid() && position + 1 < |index.Items()|
    modifies index`buildAccounting, index`accountingValid
    ensures fresh(next) && next.Valid() && next.Building() && next.accountingValid && next.routing == NO_ROUTING
    ensures next.compare == index.compare && next.routingKey == index.routingKey
    ensures next.size == index.size && next.valueBytes == index.valueBytes
    ensures next.Items() == Merged(index.Items(), position, upward)
    ensures index.Valid()
  {
    var current := index.Account();
    var b, count, replacement, k := PlanMerge(index, upward, position);
    SplicedReady(index.compare, index.blocks, position, b, count, replacement, k, upward);
    var accounting := SplicedAccounting(index.blocks, b, count, replacement, index.size, index.valueBytes, current);
    next := new OrderedIndex.Adopt(index, Spliced(index.blocks, b, count, replacement), accounting);
  }
}
