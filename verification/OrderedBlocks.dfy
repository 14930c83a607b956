/** The block layout of an ordered index, and how it represents one flat sorted list. */
module OrderedBlocks {
  import opened Bitmaps
  import opened OrderedItems

  const BLOCK_SIZE: nat := 64
  const RANGE_BLOCK_SIZE: nat := 8

  datatype Block<V> = Block(items: seq<Item<V>>, bits: set<nat>)

  /** A second-level aggregate over RANGE_BLOCK_SIZE consecutive blocks. */
  datatype RangeBlock = RangeBlock(first: nat, bits: set<nat>)

  function Flat<V>(blocks: seq<Block<V>>): seq<Item<V>> {
    if blocks == [] then [] else blocks[0].items + Flat(blocks[1..])
  }

  ghost predicate Sized<V>(blocks: seq<Block<V>>) {
    forall b :: 0 <= b < |blocks| ==> 1 <= |blocks[b].items| <= 2 * BLOCK_SIZE
  }

  ghost predicate Aggregated<V>(blocks: seq<Block<V>>) {
    forall b :: 0 <= b < |blocks| ==> blocks[b].bits == Postings(blocks[b].items)
  }

  function Last<V>(block: Block<V>): V
    requires |block.items| > 0
  {
    block.items[|block.items| - 1].value
  }

  lemma {:induction false} FlatConcat<V>(a: seq<Block<V>>, b: seq<Block<V>>)
    ensures Flat(a + b) == Flat(a) + Flat(b)
  {
    if a == [] {
      assert a + b == b;
    } else {
      assert (a + b)[1..] == a[1..] + b;
      FlatConcat(a[1..], b);
    }
  }

  lemma {:induction false} FlatOne<V>(block: Block<V>)
    ensures Flat([block]) == block.items
  {
    assert [block][1..] == [];
  }

  /** Cutting the block list at block `b`. */
  lemma {:induction false} FlatAt<V>(blocks: seq<Block<V>>, b: nat)
    requires b < |blocks|
    ensures Flat(blocks) == Flat(blocks[..b]) + blocks[b].items + Flat(blocks[b + 1..])
    ensures Flat(blocks[..b + 1]) == Flat(blocks[..b]) + blocks[b].items
  {
    assert blocks == blocks[..b] + [blocks[b]] + blocks[b + 1..];
    assert blocks[..b + 1] == blocks[..b] + [blocks[b]];
    FlatConcat(blocks[..b] + [blocks[b]], blocks[b + 1..]);
    FlatConcat(blocks[..b], [blocks[b]]);
    FlatOne(blocks[b]);
  }

  lemma {:induction false} FlatSlice<V>(blocks: seq<Block<V>>, first: nat, middle: nat, last: nat)
    requires first <= middle <= last <= |blocks|
    ensures Flat(blocks[first..last]) == Flat(blocks[first..middle]) + Flat(blocks[middle..last])
  {
    assert blocks[first..last] == blocks[first..middle] + blocks[middle..last];
    FlatConcat(blocks[first..middle], blocks[middle..last]);
  }

  lemma {:induction false} FlatStep<V>(blocks: seq<Block<V>>, first: nat, last: nat)
    requires first <= last < |blocks|
    ensures Flat(blocks[first..last + 1]) == Flat(blocks[first..last]) + blocks[last].items
  {
    FlatSlice(blocks, first, last, last + 1);
    assert blocks[last..last + 1] == [blocks[last]];
    FlatOne(blocks[last]);
  }

  /** Replacing block `b` by other blocks replaces its items in the flat list. */
  lemma {:induction false} FlatReplace<V>(blocks: seq<Block<V>>, b: nat, count: nat, replacement: seq<Block<V>>)
    requires b + count <= |blocks|
    ensures Flat(blocks[..b] + replacement + blocks[b + count..])
              == Flat(blocks[..b]) + Flat(replacement) + Flat(blocks[b + count..])
  {
    FlatConcat(blocks[..b] + replacement, blocks[b + count..]);
    FlatConcat(blocks[..b], replacement);
  }

  // ----- locating a value -----

  /** The first block whose last value is not below `value`, or the last block. */
  ghost predicate IsBlockFor<V>(compare: (V, V) -> int, blocks: seq<Block<V>>, value: V, r: nat)
    requires Sized(blocks)
  {
    && r < |blocks|
    && (forall b :: 0 <= b < r ==> compare(Last(blocks[b]), value) < 0)
    && (r < |blocks| - 1 ==> compare(Last(blocks[r]), value) >= 0)
  }

  lemma {:induction false} BlockForUnique<V>(compare: (V, V) -> int, blocks: seq<Block<V>>, value: V, r: nat, s: nat)
    requires Sized(blocks) && IsBlockFor(compare, blocks, value, r) && IsBlockFor(compare, blocks, value, s)
    ensures r == s
  {
  }

  lemma {:induction false} LastAt<V>(blocks: seq<Block<V>>, b: nat)
    requires Sized(blocks) && b < |blocks|
    ensures 0 < |Flat(blocks[..b + 1])| <= |Flat(blocks)|
    ensures Flat(blocks)[|Flat(blocks[..b + 1])| - 1].value == Last(blocks[b])
  {
    FlatAt(blocks, b);
  }

  /** The last values of the blocks are sorted like the items. */
  lemma {:induction false} LastsInOrder<V>(blocks: seq<Block<V>>, a: nat, b: nat)
    requires Sized(blocks) && a < b < |blocks|
    ensures |Flat(blocks[..a + 1])| < |Flat(blocks[..b + 1])|
  {
    hide Flat;
    FlatSlice(blocks, 0, a + 1, b + 1);
    assert blocks[0..a + 1] == blocks[..a + 1] && blocks[0..b + 1] == blocks[..b + 1];
    FlatStep(blocks, a + 1, b);
  }

  lemma {:induction false} LastCut<V(!new)>(compare: (V, V) -> int, blocks: seq<Block<V>>, value: V, a: nat, b: nat)
    requires TotalPreorder(compare) && Sized(blocks) && Sorted(compare, Flat(blocks))
    requires a < b < |blocks|
    requires compare(Last(blocks[b]), value) <= 0
    ensures compare(Last(blocks[a]), value) < 0
  {
    LastAt(blocks, a);
    LastAt(blocks, b);
    LastsInOrder(blocks, a, b);
    CutAt(compare, Flat(blocks), value);
  }

  /** Where the located block sits in the flat list: everything before is below, everything after above. */
  lemma {:induction false} Located<V(!new)>(compare: (V, V) -> int, blocks: seq<Block<V>>, value: V, r: nat)
    requires TotalPreorder(compare) && Sized(blocks) && Sorted(compare, Flat(blocks))
    requires IsBlockFor(compare, blocks, value, r)
    ensures Flat(blocks) == Flat(blocks[..r]) + blocks[r].items + Flat(blocks[r + 1..])
    ensures AllBelow(compare, Flat(blocks[..r]), value) && AllAbove(compare, Flat(blocks[r + 1..]), value)
    ensures Sorted(compare, blocks[r].items)
  {
    var below, here, above := Flat(blocks[..r]), blocks[r].items, Flat(blocks[r + 1..]);
    FlatAt(blocks, r);
    AroundBlock(blocks, r);
    SortedParts(compare, below, here, above);
    BelowUpTo(compare, below, value);
    AboveFrom(compare, here, above, value);
  }

  /** What comes before a block ends with the previous block's last value; nothing follows the last block. */
  lemma {:induction false} AroundBlock<V>(blocks: seq<Block<V>>, r: nat)
    requires Sized(blocks) && r < |blocks|
    ensures r > 0 ==> Flat(blocks[..r]) != [] && Flat(blocks[..r])[|Flat(blocks[..r])| - 1].value == Last(blocks[r - 1])
    ensures r == 0 ==> Flat(blocks[..r]) == []
    ensures r + 1 == |blocks| ==> Flat(blocks[r + 1..]) == []
  {
    if r > 0 {
      FlatAt(blocks, r - 1);
    }
    assert blocks[|blocks|..] == [];
  }

  lemma {:induction false} SortedParts<V>(compare: (V, V) -> int, below: seq<Item<V>>, here: seq<Item<V>>,
                                          above: seq<Item<V>>)
    requires Sorted(compare, below + here + above)
    ensures Sorted(compare, below) && Sorted(compare, here)
    ensures forall i, k :: 0 <= i < |here| && 0 <= k < |above| ==> compare(here[i].value, above[k].value) < 0
  {
    var items := below + here + above;
    forall i, j | 0 <= i < j < |here|
      ensures compare(here[i].value, here[j].value) < 0
    {
      assert items[|below| + i] == here[i] && items[|below| + j] == here[j];
    }
    forall i, k | 0 <= i < |here| && 0 <= k < |above|
      ensures compare(here[i].value, above[k].value) < 0
    {
      assert items[|below| + i] == here[i] && items[|below| + |here| + k] == above[k];
    }
    assert forall i :: 0 <= i < |below| ==> items[i] == below[i];
  }

  lemma {:induction false} BelowUpTo<V(!new)>(compare: (V, V) -> int, below: seq<Item<V>>, value: V)
    requires TotalPreorder(compare) && Sorted(compare, below)
    requires below != [] ==> compare(below[|below| - 1].value, value) < 0
    ensures AllBelow(compare, below, value)
  {
    CutAt(compare, below, value);
  }

  lemma {:induction false} AboveFrom<V(!new)>(compare: (V, V) -> int, here: seq<Item<V>>, above: seq<Item<V>>, value: V)
    requires TotalPreorder(compare)
    requires above != [] ==> here != [] && compare(here[|here| - 1].value, value) >= 0
    requires forall i, k :: 0 <= i < |here| && 0 <= k < |above| ==> compare(here[i].value, above[k].value) < 0
    ensures AllAbove(compare, above, value)
  {
    forall k | 0 <= k < |above|
      ensures compare(above[k].value, value) > 0
    {
      StrictlyBelow(compare, value, here[|here| - 1].value, above[k].value);
    }
  }

  // ----- accounting -----

  datatype Accounting = Accounting(memory: int, items: int, distinct: int)

  const NOTHING := Accounting(0, 0, 0)

  function Plus(left: Accounting, right: Accounting): Accounting {
    Accounting(left.memory + right.memory, left.items + right.items, left.distinct + right.distinct)
  }

  function Minus(left: Accounting, right: Accounting): Accounting {
    Accounting(left.memory - right.memory, left.items - right.items, left.distinct - right.distinct)
  }

  function ItemMemory<V>(items: seq<Item<V>>, size: set<nat> -> nat, valueBytes: V -> nat): nat {
    if items == [] then 0
    else valueBytes(items[0].value) + 8 + size(items[0].bits) + ItemMemory(items[1..], size, valueBytes)
  }

  /** A one-item block shares its posting, so only wider blocks are charged for an aggregate. */
  function BlockMemory<V>(block: Block<V>, size: set<nat> -> nat, valueBytes: V -> nat): nat {
    (if |block.items| > 1 then size(block.bits) + 8 else 0) + ItemMemory(block.items, size, valueBytes)
  }

  function Memory<V>(blocks: seq<Block<V>>, size: set<nat> -> nat, valueBytes: V -> nat): nat {
    if blocks == [] then 0 else BlockMemory(blocks[0], size, valueBytes) + Memory(blocks[1..], size, valueBytes)
  }

  /** What a build state owns: its memory, the posted IDs over all items, and the number of boundaries. */
  function BlocksAccounting<V>(blocks: seq<Block<V>>, size: set<nat> -> nat, valueBytes: V -> nat): Accounting {
    Accounting(Memory(blocks, size, valueBytes), ItemCards(Flat(blocks)), |Flat(blocks)|)
  }

  lemma {:induction false} MemoryConcat<V>(a: seq<Block<V>>, b: seq<Block<V>>, size: set<nat> -> nat,
                                           valueBytes: V -> nat)
    ensures Memory(a + b, size, valueBytes) == Memory(a, size, valueBytes) + Memory(b, size, valueBytes)
  {
    if a == [] {
      assert a + b == b;
    } else {
      assert (a + b)[1..] == a[1..] + b;
      MemoryConcat(a[1..], b, size, valueBytes);
    }
  }

  lemma {:induction false} ItemCardsConcat<V>(a: seq<Item<V>>, b: seq<Item<V>>)
    ensures ItemCards(a + b) == ItemCards(a) + ItemCards(b)
  {
    if a == [] {
      assert a + b == b;
    } else {
      assert (a + b)[1..] == a[1..] + b;
      ItemCardsConcat(a[1..], b);
    }
  }

  lemma {:induction false} AccountingConcat<V>(a: seq<Block<V>>, b: seq<Block<V>>, size: set<nat> -> nat,
                                               valueBytes: V -> nat)
    ensures BlocksAccounting(a + b, size, valueBytes)
              == Plus(BlocksAccounting(a, size, valueBytes), BlocksAccounting(b, size, valueBytes))
  {
    var memory, items, distinct := Memory(a + b, size, valueBytes), ItemCards(Flat(a + b)), |Flat(a + b)|;
    assert memory
             == Memory(a, size, valueBytes) + Memory(b, size, valueBytes) by { MemoryConcat(a, b, size, valueBytes); }
    assert items == ItemCards(Flat(a)) + ItemCards(Flat(b))
             && distinct == |Flat(a)| + |Flat(b)| by { CountsConcat(a, b); }
  }

  lemma {:induction false} CountsConcat<V>(a: seq<Block<V>>, b: seq<Block<V>>)
    ensures ItemCards(Flat(a + b)) == ItemCards(Flat(a)) + ItemCards(Flat(b))
    ensures |Flat(a + b)| == |Flat(a)| + |Flat(b)|
  {
    FlatConcat(a, b);
    ItemCardsConcat(Flat(a), Flat(b));
  }

  /** The incremental step: subtract what a part was charged, add what replaces it. */
  lemma {:induction false} AccountingReplace<V>(blocks: seq<Block<V>>, b: nat, count: nat, replacement: seq<Block<V>>,
                                                size: set<nat> -> nat, valueBytes: V -> nat)
    requires b + count <= |blocks|
    ensures BlocksAccounting(blocks[..b] + replacement + blocks[b + count..], size, valueBytes) ==
            Plus(Minus(BlocksAccounting(blocks, size, valueBytes),
                       BlocksAccounting(blocks[b..b + count], size, valueBytes)),
                 BlocksAccounting(replacement, size, valueBytes))
  {
    var before, part, after := blocks[..b], blocks[b..b + count], blocks[b + count..];
    assert blocks == before + part + after;
    AccountingConcat(before + part, after, size, valueBytes);
    AccountingConcat(before, part, size, valueBytes);
    AccountingConcat(before + replacement, after, size, valueBytes);
    AccountingConcat(before, replacement, size, valueBytes);
  }

  // ----- cardinalities -----

  /** The prefix-sum measure: the cardinalities of the block aggregates. */
  function BlockCards<V>(blocks: seq<Block<V>>): nat {
    if blocks == [] then 0 else |blocks[0].bits| + BlockCards(blocks[1..])
  }

  lemma {:induction false} BlockCardsConcat<V>(a: seq<Block<V>>, b: seq<Block<V>>)
    ensures BlockCards(a + b) == BlockCards(a) + BlockCards(b)
  {
    if a == [] {
      assert a + b == b;
    } else {
      assert (a + b)[1..] == a[1..] + b;
      BlockCardsConcat(a[1..], b);
    }
  }

  /** No ID is in two postings. */
  ghost predicate Disjoint<V>(items: seq<Item<V>>) {
    items == [] || (items[0].bits !! Postings(items[1..]) && Disjoint(items[1..]))
  }

  lemma {:induction false} DisjointConcat<V>(a: seq<Item<V>>, b: seq<Item<V>>)
    ensures Disjoint(a + b) <==> Disjoint(a) && Disjoint(b) && Postings(a) !! Postings(b)
  {
    if a == [] {
      assert a + b == b;
    } else {
      assert (a + b)[1..] == a[1..] + b;
      DisjointConcat(a[1..], b);
      PostingsConcat(a[1..], b);
    }
  }

  lemma {:induction false} BlockCardsBound<V>(blocks: seq<Block<V>>)
    requires Aggregated(blocks)
    ensures |Postings(Flat(blocks))| <= BlockCards(blocks)
    ensures Disjoint(Flat(blocks)) ==> |Postings(Flat(blocks))| == BlockCards(blocks)
    ensures Postings(Flat(blocks)) == {} <==> BlockCards(blocks) == 0
  {
    if blocks != [] {
      BlockCardsBound(blocks[1..]);
      DisjointConcat(blocks[0].items, Flat(blocks[1..]));
      PostingsConcat(blocks[0].items, Flat(blocks[1..]));
      UnionCardinality(Postings(blocks[0].items), Postings(Flat(blocks[1..])));
    }
  }

  function ItemCards<V>(items: seq<Item<V>>): nat {
    if items == [] then 0 else |items[0].bits| + ItemCards(items[1..])
  }

  lemma {:induction false} ItemCardsBound<V>(items: seq<Item<V>>)
    ensures |Postings(items)| <= ItemCards(items)
    ensures Disjoint(items) ==> |Postings(items)| == ItemCards(items)
    ensures Postings(items) == {} <==> ItemCards(items) == 0
  {
    if items != [] {
      ItemCardsBound(items[1..]);
      UnionCardinality(items[0].bits, Postings(items[1..]));
    }
  }

  // ----- scans -----

  /** A scan of one block is a suffix or a prefix of it. */
  lemma {:induction false} BlockSide<V>(compare: (V, V) -> int, items: seq<Item<V>>, position: nat, query: V,
                                        ascending: bool, inclusive: bool)
    requires position <= |items|
    requires forall k :: 0 <= k < |items| ==>
               (Keeps(compare(items[k].value, query), ascending, inclusive) <==> (ascending <==> k >= position))
    ensures Select(compare, items, query, ascending, inclusive)
              == Postings(if ascending then items[position..] else items[..position])
  {
    assert items == items[..position] + items[position..];
    SelectConcat(compare, items[..position], items[position..], query, ascending, inclusive);
    if ascending {
      SelectNone(compare, items[..position], query, ascending, inclusive);
      SelectAll(compare, items[position..], query, ascending, inclusive);
    } else {
      SelectAll(compare, items[..position], query, ascending, inclusive);
      SelectNone(compare, items[position..], query, ascending, inclusive);
    }
  }

  /** A scan of the whole list needs only the located block and all blocks on the requested side of it. */
  lemma {:induction false} LocatedScan<V(!new)>(compare: (V, V) -> int, blocks: seq<Block<V>>, query: V, r: nat,
                                                ascending: bool, inclusive: bool)
    requires TotalPreorder(compare) && Sized(blocks) && Sorted(compare, Flat(blocks))
    requires IsBlockFor(compare, blocks, query, r)
    ensures Select(compare, Flat(blocks), query, ascending, inclusive) ==
            Select(compare, blocks[r].items, query, ascending, inclusive)
              + Postings(Flat(if ascending then blocks[r + 1..] else blocks[..r]))
  {
    var below, here, above := Flat(blocks[..r]), blocks[r].items, Flat(blocks[r + 1..]);
    Located(compare, blocks, query, r);
    SelectConcat(compare, below + here, above, query, ascending, inclusive);
    SelectConcat(compare, below, here, query, ascending, inclusive);
    if ascending {
      SelectNone(compare, below, query, ascending, inclusive);
      SelectAll(compare, above, query, ascending, inclusive);
    } else {
      SelectAll(compare, below, query, ascending, inclusive);
      SelectNone(compare, above, query, ascending, inclusive);
    }
  }

  lemma {:induction false} PostingsStep<V>(items: seq<Item<V>>, first: nat, last: nat)
    requires first <= last < |items|
    ensures Postings(items[first..last + 1]) == Postings(items[first..last]) + items[last].bits
  {
    assert items[first..last + 1] == items[first..last] + [items[last]];
    PostingsConcat(items[first..last], [items[last]]);
    assert [items[last]][1..] == [];
  }

  lemma {:induction false} PostingsFlatStep<V>(blocks: seq<Block<V>>, first: nat, middle: nat, last: nat)
    requires first <= middle <= last <= |blocks|
    ensures Postings(Flat(blocks[first..last]))
              == Postings(Flat(blocks[first..middle])) + Postings(Flat(blocks[middle..last]))
  {
    FlatSlice(blocks, first, middle, last);
    PostingsConcat(Flat(blocks[first..middle]), Flat(blocks[middle..last]));
  }

  lemma {:induction false} PostingsBlock<V>(blocks: seq<Block<V>>, b: nat)
    requires b < |blocks|
    ensures Postings(Flat(blocks[b..b + 1])) == Postings(blocks[b].items)
  {
    assert blocks[b..b + 1] == [blocks[b]];
    FlatOne(blocks[b]);
  }

  // ----- insertion -----

  function WithItem<V>(items: seq<Item<V>>, position: nat, item: Item<V>): seq<Item<V>>
    requires position <= |items|
  {
    items[..position] + [item] + items[position..]
  }

  /** A new item goes into the located block. */
  lemma {:induction false} InsertedLocated<V(!new)>(compare: (V, V) -> int, blocks: seq<Block<V>>, r: nat,
                                                    position: nat, item: Item<V>)
    requires TotalPreorder(compare) && Sized(blocks) && Sorted(compare, Flat(blocks))
    requires IsBlockFor(compare, blocks, item.value, r) && position <= |blocks[r].items|
    requires AllBelow(compare, blocks[r].items[..position], item.value)
    requires position < |blocks[r].items| ==> compare(blocks[r].items[position].value, item.value) > 0
    ensures Inserted(compare, Flat(blocks), item.value, item.bits)
         == Flat(blocks[..r]) + WithItem(blocks[r].items, position, item) + Flat(blocks[r + 1..])
  {
    Located(compare, blocks, item.value, r);
    InsertedWithin(compare, Flat(blocks[..r]), blocks[r].items, Flat(blocks[r + 1..]), position, item);
  }

  lemma {:induction false} InsertedWithin<V>(compare: (V, V) -> int, below: seq<Item<V>>, here: seq<Item<V>>,
                                             above: seq<Item<V>>, position: nat, item: Item<V>)
    requires position <= |here|
    requires AllBelow(compare, below, item.value) && AllBelow(compare, here[..position], item.value)
             && AllAbove(compare, above, item.value)
    requires position < |here| ==> compare(here[position].value, item.value) > 0
    ensures Inserted(compare, below + here + above, item.value, item.bits)
              == below + WithItem(here, position, item) + above
  {
    var rest := here[position..] + above;
    assert below + here + above == (below + here[..position]) + rest;
    BelowConcat(compare, below, here[..position], item.value);
    InsertedAfter(compare, below + here[..position], rest, item.value, item.bits);
    InsertedBefore(compare, rest, item);
    assert (below + here[..position]) + ([item] + rest) == below + WithItem(here, position, item) + above;
  }

  lemma {:induction false} InsertedBefore<V>(compare: (V, V) -> int, rest: seq<Item<V>>, item: Item<V>)
    requires rest != [] ==> compare(rest[0].value, item.value) > 0
    ensures Inserted(compare, rest, item.value, item.bits) == [item] + rest
  {
  }

  lemma {:induction false} PostingsWith<V>(items: seq<Item<V>>, position: nat, item: Item<V>)
    requires position <= |items|
    ensures Postings(WithItem(items, position, item)) == Postings(items) + item.bits
  {
    assert items == items[..position] + items[position..];
    PostingsConcat(items[..position], items[position..]);
    PostingsConcat(items[..position] + [item], items[position..]);
    PostingsConcat(items[..position], [item]);
    assert [item][1..] == [];
  }

  /** After the item joined a block that did not split, the block is still the one for its value. */
  lemma {:induction false} JoinedBlock<V(!new)>(compare: (V, V) -> int, blocks: seq<Block<V>>, r: nat, position: nat,
                                                item: Item<V>)
    requires TotalPreorder(compare) && Sized(blocks)
    requires IsBlockFor(compare, blocks, item.value, r) && position <= |blocks[r].items|
    requires |blocks[r].items| < 2 * BLOCK_SIZE
    ensures var grown := blocks[r := Block(WithItem(blocks[r].items, position, item), blocks[r].bits)];
            Sized(grown) && IsBlockFor(compare, grown, item.value, r)
  {
    var grown := blocks[r := Block(WithItem(blocks[r].items, position, item), blocks[r].bits)];
    assert Last(grown[r]) == if position == |blocks[r].items| then item.value else Last(blocks[r]);
    assert compare(item.value, item.value) == 0;
  }

  /** Extending the posting of a present value is the reference insertion. */
  lemma {:induction false} ExtendedLocated<V(!new)>(compare: (V, V) -> int, blocks: seq<Block<V>>, r: nat,
                                                    position: nat, value: V, extra: set<nat>)
    requires TotalPreorder(compare) && Sized(blocks) && Sorted(compare, Flat(blocks))
    requires IsBlockFor(compare, blocks, value, r) && position < |blocks[r].items|
    requires compare(blocks[r].items[position].value, value) == 0
    ensures Inserted(compare, Flat(blocks), value, extra)
         == Flat(blocks[..r])
            + blocks[r].items[position := Item(blocks[r].items[position].value, blocks[r].items[position].bits + extra)]
            + Flat(blocks[r + 1..])
  {
    Located(compare, blocks, value, r);
    CutAt(compare, blocks[r].items, value);
    ExtendedWithin(compare, Flat(blocks[..r]), blocks[r].items, Flat(blocks[r + 1..]), position, value, extra);
  }

  lemma {:induction false} ExtendedWithin<V>(compare: (V, V) -> int, below: seq<Item<V>>, here: seq<Item<V>>,
                                             above: seq<Item<V>>, position: nat, value: V, extra: set<nat>)
    requires position < |here| && compare(here[position].value, value) == 0
    requires AllBelow(compare, below, value) && AllBelow(compare, here[..position], value)
    ensures Inserted(compare, below + here + above, value, extra)
         == below + here[position := Item(here[position].value, here[position].bits + extra)] + above
  {
    var rest := here[position..] + above;
    assert below + here + above == (below + here[..position]) + rest;
    BelowConcat(compare, below, here[..position], value);
    InsertedAfter(compare, below + here[..position], rest, value, extra);
    var item := Item(here[position].value, here[position].bits + extra);
    assert rest[0] == here[position] && rest[1..] == here[position + 1..] + above;
    assert (below + here[..position]) + ([item] + (here[position + 1..] + above))
             == below + here[position := item] + above;
  }

  lemma {:induction false} PostingsExtended<V>(items: seq<Item<V>>, position: nat, extra: set<nat>)
    requires position < |items|
    ensures Postings(items[position := Item(items[position].value, items[position].bits + extra)])
              == Postings(items) + extra
  {
    if position == 0 {
      assert items[0 := Item(items[0].value, items[0].bits + extra)][1..] == items[1..];
    } else {
      PostingsExtended(items[1..], position - 1, extra);
      assert items[position := Item(items[position].value, items[position].bits + extra)][1..]
          == items[1..][position - 1 := Item(items[position].value, items[position].bits + extra)];
    }
  }

  lemma {:induction false} ReplaceBlock<V>(blocks: seq<Block<V>>, b: nat, block: Block<V>)
    requires b < |blocks|
    ensures Flat(blocks[b := block]) == Flat(blocks[..b]) + block.items + Flat(blocks[b + 1..])
  {
    assert blocks[b := block] == blocks[..b] + [block] + blocks[b + 1..];
    FlatReplace(blocks, b, 1, [block]);
    FlatOne(block);
  }

  lemma {:induction false} SplitBlock<V>(blocks: seq<Block<V>>, b: nat, items: seq<Item<V>>, left: Block<V>,
                                         right: Block<V>)
    requires b < |blocks| && items == left.items + right.items
    ensures Flat(blocks[..b] + [left, right] + blocks[b + 1..]) == Flat(blocks[..b]) + items + Flat(blocks[b + 1..])
  {
    FlatReplace(blocks, b, 1, [left, right]);
    assert [left, right] == [left] + [right];
    FlatConcat([left], [right]);
    FlatOne(left);
    FlatOne(right);
  }

  /** Every aggregate is exact, except that the block holding a just inserted item may still lack its IDs. */
  ghost predicate AggregatedExcept<V>(compare: (V, V) -> int, blocks: seq<Block<V>>, item: Item<V>)
    requires Sized(blocks)
  {
    forall b :: 0 <= b < |blocks| ==>
      Postings(blocks[b].items) == blocks[b].bits + if IsBlockFor(compare, blocks, item.value, b) then item.bits else {}
  }

  function Joined<V>(blocks: seq<Block<V>>, r: nat, position: nat, item: Item<V>): seq<Block<V>>
    requires r < |blocks| && position <= |blocks[r].items|
  {
    blocks[r := Block(WithItem(blocks[r].items, position, item), blocks[r].bits)]
  }

  lemma {:induction false} JoinedExcept<V(!new)>(compare: (V, V) -> int, blocks: seq<Block<V>>, r: nat, position: nat,
                                                 item: Item<V>)
    requires TotalPreorder(compare) && Sized(blocks) && Aggregated(blocks)
    requires IsBlockFor(compare, blocks, item.value, r) && position <= |blocks[r].items|
    requires |blocks[r].items| < 2 * BLOCK_SIZE
    ensures var grown := Joined(blocks, r, position, item);
            && Sized(grown) && AggregatedExcept(compare, grown, item)
            && Flat(grown) == Flat(blocks[..r]) + WithItem(blocks[r].items, position, item) + Flat(blocks[r + 1..])
  {
    var grown := Joined(blocks, r, position, item);
    JoinedBlock(compare, blocks, r, position, item);
    PostingsWith(blocks[r].items, position, item);
    ReplaceBlock(blocks, r, grown[r]);
    forall b | 0 <= b < |grown|
      ensures Postings(grown[b].items) == grown[b].bits + if IsBlockFor(compare, grown, item.value, b) then item.bits
                else {}
    {
      if b != r && IsBlockFor(compare, grown, item.value, b) {
        BlockForUnique(compare, grown, item.value, b, r);
      }
    }
  }

  function Split<V>(blocks: seq<Block<V>>, r: nat, left: Block<V>, right: Block<V>): seq<Block<V>>
    requires r < |blocks|
  {
    blocks[..r] + [left, right] + blocks[r + 1..]
  }

  lemma {:induction false} PostingsMember<V>(items: seq<Item<V>>, k: nat)
    requires k < |items|
    ensures items[k].bits <= Postings(items)
  {
    if k > 0 { PostingsMember(items[1..], k - 1); }
  }

  lemma {:induction false} InTheMiddle<V>(compare: (V, V) -> int, below: seq<Item<V>>, here: seq<Item<V>>,
                                          above: seq<Item<V>>, k: nat, value: V)
    requires AllBelow(compare, below, value) && AllAbove(compare, above, value)
    requires k < |below + here + above| && compare((below + here + above)[k].value, value) == 0
    ensures |below| <= k < |below| + |here|
  {
  }

  /** An item is found in the block located for its value. */
  lemma {:induction false} HomeHolds<V(!new)>(compare: (V, V) -> int, blocks: seq<Block<V>>, k: nat, b: nat)
    requires TotalPreorder(compare) && Sized(blocks) && Sorted(compare, Flat(blocks)) && k < |Flat(blocks)|
    requires IsBlockFor(compare, blocks, Flat(blocks)[k].value, b)
    ensures Flat(blocks)[k].bits <= Postings(blocks[b].items)
  {
    var item := Flat(blocks)[k];
    Located(compare, blocks, item.value, b);
    var below, here, above := Flat(blocks[..b]), blocks[b].items, Flat(blocks[b + 1..]);
    assert compare(item.value, item.value) == 0;
    InTheMiddle(compare, below, here, above, k, item.value);
    PostingsMember(here, k - |below|);
  }

  lemma {:induction false} SplitExcept<V(!new)>(compare: (V, V) -> int, blocks: seq<Block<V>>, r: nat, position: nat,
                                                item: Item<V>, left: Block<V>, right: Block<V>)
    requires TotalPreorder(compare) && Sized(blocks) && Aggregated(blocks) && r < |blocks|
             && position <= |blocks[r].items|
    requires Sorted(compare, Flat(blocks[..r]) + WithItem(blocks[r].items, position, item) + Flat(blocks[r + 1..]))
    requires WithItem(blocks[r].items, position, item) == left.items + right.items
    requires 1 <= |left.items| <= 2 * BLOCK_SIZE && left.bits == Postings(left.items)
    requires 1 <= |right.items| <= 2 * BLOCK_SIZE && right.bits == Postings(right.items)
    ensures var grown := Split(blocks, r, left, right);
            && Sized(grown) && AggregatedExcept(compare, grown, item)
            && Flat(grown) == Flat(blocks[..r]) + WithItem(blocks[r].items, position, item) + Flat(blocks[r + 1..])
  {
    var grown := Split(blocks, r, left, right);
    SplitBlock(blocks, r, left.items + right.items, left, right);
    SplitSized(blocks, r, left, right);
    forall b | 0 <= b < |grown|
      ensures Postings(grown[b].items) == grown[b].bits + if IsBlockFor(compare, grown, item.value, b) then item.bits
                else {}
    {
      if IsBlockFor(compare, grown, item.value, b) {
        assert Flat(grown)[|Flat(blocks[..r])| + position] == item;
        HomeHolds(compare, grown, |Flat(blocks[..r])| + position, b);
      }
    }
  }

  lemma {:induction false} SplitSized<V>(blocks: seq<Block<V>>, r: nat, left: Block<V>, right: Block<V>)
    requires Sized(blocks) && Aggregated(blocks) && r < |blocks|
    requires 1 <= |left.items| <= 2 * BLOCK_SIZE && left.bits == Postings(left.items)
    requires 1 <= |right.items| <= 2 * BLOCK_SIZE && right.bits == Postings(right.items)
    ensures Sized(Split(blocks, r, left, right)) && Aggregated(Split(blocks, r, left, right))
  {
    var grown := Split(blocks, r, left, right);
    assert forall b :: 0 <= b < |grown| && b != r && b != r + 1 ==> grown[b] == blocks[if b < r then b else b - 1];
    assert grown[r] == left && grown[r + 1] == right;
  }

  /** The position found inside the located block, as a rank in the flat list. */
  lemma {:induction false} AtRank<V(!new)>(compare: (V, V) -> int, blocks: seq<Block<V>>, value: V, b: nat,
                                           position: nat)
    requires TotalPreorder(compare) && Sized(blocks) && Sorted(compare, Flat(blocks))
    requires IsBlockFor(compare, blocks, value, b) && position <= |blocks[b].items|
    requires AllBelow(compare, blocks[b].items[..position], value)
    requires position < |blocks[b].items| ==> compare(blocks[b].items[position].value, value) >= 0
    ensures IsRank(compare, Flat(blocks), value, |Flat(blocks[..b])| + position)
    ensures position == |blocks[b].items| ==> b + 1 == |blocks|
  {
    var below, here, above := Flat(blocks[..b]), blocks[b].items, Flat(blocks[b + 1..]);
    assert position == |here| ==> b + 1 == |blocks| && above == [] by {
      EndOfBlock(compare, blocks, value, b, position);
    }
    Located(compare, blocks, value, b);
    RankWithin(compare, below, here, above, position, value);
  }

  lemma {:induction false} EndOfBlock<V>(compare: (V, V) -> int, blocks: seq<Block<V>>, value: V, b: nat, position: nat)
    requires Sized(blocks) && IsBlockFor(compare, blocks, value, b)
    requires position <= |blocks[b].items| && AllBelow(compare, blocks[b].items[..position], value)
    ensures position == |blocks[b].items| ==> b + 1 == |blocks| && Flat(blocks[b + 1..]) == []
  {
    if position == |blocks[b].items| {
      assert Last(blocks[b]) == blocks[b].items[..position][position - 1].value;
      assert blocks[b + 1..] == [];
    }
  }

  lemma {:induction false} RankWithin<V>(compare: (V, V) -> int, below: seq<Item<V>>, here: seq<Item<V>>,
                                         above: seq<Item<V>>, position: nat, value: V)
    requires position <= |here| && AllBelow(compare, below, value) && AllBelow(compare, here[..position], value)
    requires position < |here| ==> compare(here[position].value, value) >= 0
    requires position == |here| ==> above == []
    ensures IsRank(compare, below + here + above, value, |below| + position)
  {
    BelowConcat(compare, below, here[..position], value);
    assert (below + here + above)[..|below| + position] == below + here[..position];
  }
}
