/** The ordered block index: lookup, insertion with block splits, and the aggregates prepared for search. */
module OrderedIndexes {
  import opened Bitmaps
  import opened OrderedItems
  import opened OrderedBlocks
  import opened OrderedRounding
  import opened Powers

  const UINT64: nat := 0x1_0000_0000_0000_0000

  /** Unsigned 64-bit routing keys. */
  type Key = k: nat | k < UINT64

  /** Equal-width intervals of the routing-key domain, each naming the block where its first key lands. */
  datatype Routing = Routing(min: nat, width: nat, blocks: seq<nat>)

  const NO_ROUTING := Routing(0, 0, [])

  ghost predicate InRange(routing: Routing, count: nat) {
    routing.blocks != [] ==>
      routing.width > 0 && forall slot :: 0 <= slot < |routing.blocks| ==> routing.blocks[slot] < count
  }

  ghost predicate IsPrefix<V>(prefix: seq<nat>, blocks: seq<Block<V>>) {
    |prefix| == |blocks| + 1 && forall b :: 0 <= b < |prefix| ==> prefix[b] == BlockCards(blocks[..b])
  }

  ghost predicate IsRangeBlock<V>(range: RangeBlock, j: nat, blocks: seq<Block<V>>) {
    && range.first == j * RANGE_BLOCK_SIZE
    && range.first + RANGE_BLOCK_SIZE <= |blocks|
    && range.bits == Postings(Flat(blocks[range.first..range.first + RANGE_BLOCK_SIZE]))
  }

  ghost predicate NoEmptyPosting<V>(items: seq<Item<V>>) {
    forall k :: 0 <= k < |items| ==> items[k].bits != {}
  }

  /**
   `compare` orders stored values; `routingKey` is an arbitrary 64-bit key of some values and need not agree
   with it; `size` and `valueBytes` are the accounted sizes of a posting and of a value.
   */
  class OrderedIndex<V(!new)> {
    const compare: (V, V) -> int
    const routingKey: V -> Option<Key>
    const size: set<nat> -> nat
    const valueBytes: V -> nat
    var blocks: seq<Block<V>>
    var blockPrefix: seq<nat>
    var rangeBlocks: seq<RangeBlock>
    var routing: Routing
    var buildAccounting: Accounting
    var accountingValid: bool

    function Items(): seq<Item<V>>
      reads this`blocks
    {
      Flat(blocks)
    }

    /** Blocks are non-empty, bounded and globally sorted; a routing table only names existing blocks. */
    ghost predicate Ordered()
      reads this`blocks, this`routing
    {
      TotalPreorder(compare) && Sized(blocks) && Sorted(compare, Flat(blocks)) && InRange(routing, |blocks|)
    }

    ghost predicate Valid()
      reads this
    {
      && Ordered()
      && Aggregated(blocks)
      && NoEmptyPosting(Flat(blocks))
      && (blockPrefix != [] ==> IsPrefix(blockPrefix, blocks))
      && Ranged()
      && (accountingValid ==> buildAccounting == BlocksAccounting(blocks, size, valueBytes))
    }

    ghost predicate Ranged()
      reads this`blocks, this`rangeBlocks
    {
      forall j :: 0 <= j < |rangeBlocks| ==> IsRangeBlock(rangeBlocks[j], j, blocks)
    }

    /** Values are still being inserted: nothing derived for searching has been published. */
    ghost predicate Building()
      reads this`blockPrefix, this`rangeBlocks
    {
      blockPrefix == [] && rangeBlocks == []
    }

    constructor (compare: (V, V) -> int, routingKey: V -> Option<Key>, size: set<nat> -> nat, valueBytes: V -> nat)
      requires TotalPreorder(compare)
      ensures Valid() && Building() && Items() == []
      ensures this.compare == compare && this.routingKey == routingKey && this.size == size
              && this.valueBytes == valueBytes
    {
      this.compare, this.routingKey, this.size, this.valueBytes := compare, routingKey, size, valueBytes;
      blocks, blockPrefix, rangeBlocks, routing := [], [], [], NO_ROUTING;
      buildAccounting, accountingValid := NOTHING, false;
    }

    /** Adopts a block list whose accounting was carried over incrementally. */
    constructor Adopt(source: OrderedIndex<V>, blocks: seq<Block<V>>, accounting: Accounting)
      requires TotalPreorder(source.compare) && Sized(blocks) && Sorted(source.compare, Flat(blocks))
               && Aggregated(blocks)
      requires NoEmptyPosting(Flat(blocks))
      requires accounting == BlocksAccounting(blocks, source.size, source.valueBytes)
      ensures Valid() && Building() && accountingValid && routing == NO_ROUTING && this.blocks == blocks
      ensures compare == source.compare && routingKey == source.routingKey && size == source.size
              && valueBytes == source.valueBytes
    {
      compare, routingKey, size, valueBytes := source.compare, source.routingKey, source.size, source.valueBytes;
      this.blocks, blockPrefix, rangeBlocks, routing := blocks, [], [], NO_ROUTING;
      buildAccounting, accountingValid := accounting, true;
    }

    // ----- locating a value -----

    method SearchBlock(block: Block<V>, value: V) returns (position: nat)
      requires TotalPreorder(compare) && Sorted(compare, block.items)
      ensures position <= |block.items|
      ensures AllBelow(compare, block.items[..position], value)
      ensures position < |block.items| ==> compare(block.items[position].value, value) >= 0
    {
      CutAt(compare, block.items, value);
      var lo, hi := 0, |block.items|;
      while lo < hi
        invariant 0 <= lo <= hi <= |block.items|
        invariant forall k :: 0 <= k < lo ==> compare(block.items[k].value, value) < 0
        invariant forall k :: hi <= k < |block.items| ==> compare(block.items[k].value, value) >= 0
      {
        var mid := (lo + hi) / 2;
        if compare(block.items[mid].value, value) < 0 {
          lo := mid + 1;
        } else {
          hi := mid;
        }
      }
      position := lo;
    }

    /** The cut of one block into the items on the requested side of the query and the others. */
    method SideBoundary(block: Block<V>, value: V, ascending: bool, inclusive: bool) returns (position: nat)
      requires TotalPreorder(compare) && Sorted(compare, block.items)
      ensures position <= |block.items|
      ensures forall k :: 0 <= k < |block.items| ==>
                (Keeps(compare(block.items[k].value, value), ascending, inclusive) <==> (ascending <==> k >= position))
    {
      CutAt(compare, block.items, value);
      var lo, hi := 0, |block.items|;
      while lo < hi
        invariant 0 <= lo <= hi <= |block.items|
        invariant forall k :: 0 <= k < lo ==>
                    (Keeps(compare(block.items[k].value, value), ascending, inclusive) <==> !ascending)
        invariant forall k :: hi <= k < |block.items| ==>
                    (Keeps(compare(block.items[k].value, value), ascending, inclusive) <==> ascending)
      {
        var mid := (lo + hi) / 2;
        var cmp := compare(block.items[mid].value, value);
        if cmp < 0 || ((if ascending then !inclusive else inclusive) && cmp == 0) {
          lo := mid + 1;
        } else {
          hi := mid;
        }
      }
      position := lo;
    }

    method BlockFor(value: V) returns (block: nat)
      requires Ordered() && |blocks| > 0
      ensures IsBlockFor(compare, blocks, value, block)
    {
      if |routing.blocks| != 0 {
        match routingKey(value) {
          case Some(key) => block := RoutedBlockFor(value, key);
          case None => block := SearchedBlockFor(value);
        }
      } else {
        block := SearchedBlockFor(value);
      }
    }

    method SearchedBlockFor(value: V) returns (block: nat)
      requires Ordered() && |blocks| > 0
      ensures IsBlockFor(compare, blocks, value, block)
    {
      var lo, hi := 0, |blocks|;
      while lo < hi
        invariant 0 <= lo <= hi <= |blocks|
        invariant forall b :: 0 <= b < lo ==> compare(Last(blocks[b]), value) < 0
        invariant hi < |blocks| ==> compare(Last(blocks[hi]), value) >= 0
      {
        var mid := (lo + hi) / 2;
        if compare(Last(blocks[mid]), value) < 0 {
          forall b | lo <= b < mid
            ensures compare(Last(blocks[b]), value) < 0
          {
            LastCut(compare, blocks, value, b, mid);
          }
          lo := mid + 1;
        } else {
          hi := mid;
        }
      }
      block := if lo == |blocks| then |blocks| - 1 else lo;
    }

    /** The table is only a hint: comparing neighbours corrects any in-range route. */
    method RoutedBlockFor(value: V, key: Key) returns (block: nat)
      requires Ordered() && |blocks| > 0 && routing.blocks != []
      ensures IsBlockFor(compare, blocks, value, block)
    {
      block := 0;
      if key > routing.min {
        var slot := (key - routing.min) / routing.width;
        block := if slot >= |routing.blocks| then |blocks| - 1 else routing.blocks[slot];
      }
      while block > 0 && compare(Last(blocks[block - 1]), value) >= 0
        invariant 0 <= block < |blocks|
      {
        block := block - 1;
      }
      forall b | 0 <= b < block
        ensures compare(Last(blocks[b]), value) < 0
      {
        if b < block - 1 { LastCut(compare, blocks, value, b, block - 1); }
      }
      while block < |blocks| - 1 && compare(Last(blocks[block]), value) < 0
        invariant 0 <= block < |blocks|
        invariant forall b :: 0 <= b < block ==> compare(Last(blocks[b]), value) < 0
      {
        block := block + 1;
      }
    }

    // ----- searching -----

    /** The posting stored under a value that compares equal. */
    method Exact(value: V) returns (posting: Option<set<nat>>)
      requires Ordered()
      ensures posting == EqualTo(compare, Items(), value)
    {
      if |blocks| == 0 {
        return None;
      }
      var b := BlockFor(value);
      assert Sorted(compare, blocks[b].items) by { Located(compare, blocks, value, b); }
      var position := SearchBlock(blocks[b], value);
      RankInBlock(value, b, position);
      if position == |blocks[b].items| || compare(blocks[b].items[position].value, value) != 0 {
        return None;
      }
      return Some(blocks[b].items[position].bits);
    }

    /** The posting of the first boundary not below the value; quantized equality reads it. */
    method Ceiling(value: V) returns (posting: Option<set<nat>>)
      requires Ordered()
      ensures posting == AtOrAbove(compare, Items(), value)
    {
      if |blocks| == 0 {
        return None;
      }
      var b := BlockFor(value);
      assert Sorted(compare, blocks[b].items) by { Located(compare, blocks, value, b); }
      var position := SearchBlock(blocks[b], value);
      RankInBlock(value, b, position);
      if position == |blocks[b].items| {
        return None;
      }
      return Some(blocks[b].items[position].bits);
    }

    lemma {:induction false} RankInBlock(value: V, b: nat, position: nat)
      requires Ordered() && IsBlockFor(compare, blocks, value, b)
      requires position <= |blocks[b].items| && AllBelow(compare, blocks[b].items[..position], value)
      requires position < |blocks[b].items| ==> compare(blocks[b].items[position].value, value) >= 0
      ensures var here := blocks[b].items;
              && AtOrAbove(compare, Items(), value) == (if position < |here| then Some(here[position].bits) else None)
              && EqualTo(compare, Items(), value)
                 == (if position < |here| && compare(here[position].value, value) == 0 then Some(here[position].bits)
                     else None)
    {
      var p := |Flat(blocks[..b])| + position;
      AtRank(compare, blocks, value, b, position);
      LookupAtRank(compare, Items(), value, p);
      FlatAt(blocks, b);
      assert position < |blocks[b].items| ==> Items()[p] == blocks[b].items[position];
      assert position == |blocks[b].items| ==> blocks[b + 1..] == [];
    }

    lemma {:induction false} AbsentValue(value: V, b: nat, position: nat)
      requires Ordered() && IsBlockFor(compare, blocks, value, b)
      requires position <= |blocks[b].items| && AllBelow(compare, blocks[b].items[..position], value)
      requires position < |blocks[b].items| ==> compare(blocks[b].items[position].value, value) > 0
      ensures forall k :: 0 <= k < |Items()| ==> compare(Items()[k].value, value) != 0
    {
      Located(compare, blocks, value, b);
      var below, here := Flat(blocks[..b]), blocks[b].items;
      CutAt(compare, here, value);
      forall k | 0 <= k < |Items()|
        ensures compare(Items()[k].value, value) != 0
      {
        if k < |below| {
          assert Items()[k] == below[k];
        } else if k < |below| + |here| {
          assert Items()[k] == here[k - |below|];
          if k - |below| < position { assert here[k - |below|] == here[..position][k - |below|]; }
        } else {
          assert Items()[k] == Flat(blocks[b + 1..])[k - |below| - |here|];
        }
      }
    }

    /** Every visited bitmap of a walk; together they hold exactly what a scan would find. */
    method Walk(value: V, ascending: bool, inclusive: bool) returns (visited: seq<set<nat>>)
      requires Ordered() && Aggregated(blocks) && Ranged()
      ensures Union(visited) == Select(compare, Items(), value, ascending, inclusive)
      ensures forall id: nat :: id in Union(visited) <==> HeldOnSide(compare, Items(), value, ascending, inclusive, id)
    {
      forall id: nat {
        SelectMember(compare, Items(), value, ascending, inclusive, id);
      }
      if |blocks| == 0 {
        return [];
      }
      var b := BlockFor(value);
      var here := WalkLocated(b, value, ascending, inclusive);
      var first, last := if ascending then b + 1 else 0, if ascending then |blocks| else b;
      var rest := WalkBlockRange(first, last);
      LocatedScan(compare, blocks, value, b, ascending, inclusive);
      assert blocks[first..last] == if ascending then blocks[b + 1..] else blocks[..b];
      UnionConcat(here, rest);
      visited := here + rest;
    }

    method WalkLocated(b: nat, value: V, ascending: bool, inclusive: bool) returns (visited: seq<set<nat>>)
      requires Ordered() && Aggregated(blocks) && IsBlockFor(compare, blocks, value, b)
      ensures Union(visited) == Select(compare, blocks[b].items, value, ascending, inclusive)
    {
      Located(compare, blocks, value, b);
      visited := WalkBlock(blocks[b], value, ascending, inclusive);
    }

    /** The boundary block: its aggregate when every item qualifies, single items otherwise. */
    method WalkBlock(block: Block<V>, value: V, ascending: bool, inclusive: bool) returns (visited: seq<set<nat>>)
      requires TotalPreorder(compare) && Sorted(compare, block.items) && block.bits == Postings(block.items)
      ensures Union(visited) == Select(compare, block.items, value, ascending, inclusive)
    {
      var items := block.items;
      var lo := SideBoundary(block, value, ascending, inclusive);
      BlockSide(compare, items, lo, value, ascending, inclusive);
      if lo == (if ascending then 0 else |items|) {
        visited := [block.bits];
        assert items[lo..] == items || items[..lo] == items;
        assert [block.bits][1..] == [];
        return;
      }
      if ascending {
        visited := VisitUp(items, lo);
      } else {
        visited := VisitDown(items, lo);
      }
    }

    method VisitUp(items: seq<Item<V>>, lo: nat) returns (visited: seq<set<nat>>)
      requires lo <= |items|
      ensures Union(visited) == Postings(items[lo..])
    {
      visited := [];
      var pos := lo;
      while pos < |items|
        invariant lo <= pos <= |items|
        invariant Union(visited) == Postings(items[lo..pos])
      {
        UnionAppend(visited, items[pos].bits);
        PostingsStep(items, lo, pos);
        visited := visited + [items[pos].bits];
        pos := pos + 1;
      }
      assert items[lo..pos] == items[lo..];
    }

    method VisitDown(items: seq<Item<V>>, lo: nat) returns (visited: seq<set<nat>>)
      requires lo <= |items|
      ensures Union(visited) == Postings(items[..lo])
    {
      visited := [];
      var pos := lo;
      while pos > 0
        invariant 0 <= pos <= lo
        invariant Union(visited) == Postings(items[pos..lo])
      {
        pos := pos - 1;
        UnionAppend(visited, items[pos].bits);
        assert items[pos..lo][1..] == items[pos + 1..lo];
        visited := visited + [items[pos].bits];
      }
      assert items[0..lo] == items[..lo];
    }

    /** Visits whole blocks, taking one aggregate per eight blocks where one starts. */
    method WalkBlockRange(from: nat, to: nat) returns (visited: seq<set<nat>>)
      requires Aggregated(blocks) && Ranged() && from <= to <= |blocks|
      ensures Union(visited) == Postings(Flat(blocks[from..to]))
    {
      assert Union([]) == Postings(Flat(blocks[from..from]));
      hide Ranged, Aggregated, Flat, Postings, Union;
      visited := [];
      var first := from;
      while first < to && first % RANGE_BLOCK_SIZE != 0
        invariant from <= first <= to
        invariant Union(visited) == Postings(Flat(blocks[from..first]))
      {
        visited, first := VisitBlock(from, first, visited);
      }
      visited, first := WalkRanges(from, first, to, visited);
      while first < to
        invariant from <= first <= to
        invariant Union(visited) == Postings(Flat(blocks[from..first]))
      {
        visited, first := VisitBlock(from, first, visited);
      }
    }

    /** One aggregate per eight blocks while the aligned ones reach. */
    method WalkRanges(ghost from: nat, start: nat, to: nat, before: seq<set<nat>>)
      returns (visited: seq<set<nat>>, first: nat)
      requires Aggregated(blocks) && Ranged() && from <= start <= to <= |blocks|
      requires Union(before) == Postings(Flat(blocks[from..start]))
      ensures start <= first <= to && Union(visited) == Postings(Flat(blocks[from..first]))
    {
      visited, first := before, start;
      while first + RANGE_BLOCK_SIZE <= to
        invariant start <= first <= to
        invariant Union(visited) == Postings(Flat(blocks[from..first]))
      {
        var range := first / RANGE_BLOCK_SIZE;
        if range >= |rangeBlocks| || rangeBlocks[range].first != first {
          break;
        }
        visited, first := VisitRange(from, first, range, visited);
      }
    }

    method VisitRange(ghost from: nat, first: nat, range: nat, visited: seq<set<nat>>)
      returns (more: seq<set<nat>>, next: nat)
      requires Aggregated(blocks) && Ranged() && from <= first && first + RANGE_BLOCK_SIZE <= |blocks|
      requires range < |rangeBlocks| && rangeBlocks[range].first == first
      requires Union(visited) == Postings(Flat(blocks[from..first]))
      ensures next == first + RANGE_BLOCK_SIZE && Union(more) == Postings(Flat(blocks[from..next]))
    {
      assert IsRangeBlock(rangeBlocks[range], range, blocks);
      PostingsFlatStep(blocks, from, first, first + RANGE_BLOCK_SIZE);
      UnionAppend(visited, rangeBlocks[range].bits);
      more, next := visited + [rangeBlocks[range].bits], first + RANGE_BLOCK_SIZE;
    }

    method VisitBlock(ghost from: nat, first: nat, visited: seq<set<nat>>) returns (more: seq<set<nat>>, next: nat)
      requires Aggregated(blocks) && from <= first < |blocks|
      requires Union(visited) == Postings(Flat(blocks[from..first]))
      ensures next == first + 1 && Union(more) == Postings(Flat(blocks[from..next]))
    {
      PostingsFlatStep(blocks, from, first, first + 1);
      PostingsBlock(blocks, first);
      UnionAppend(visited, blocks[first].bits);
      more, next := visited + [blocks[first].bits], first + 1;
    }

    /** Membership in the scan, deciding without materializing it. */
    method Matches(value: V, ascending: bool, inclusive: bool, id: nat) returns (found: bool)
      requires Ordered() && Aggregated(blocks) && Ranged()
      ensures found <==> id in Select(compare, Items(), value, ascending, inclusive)
    {
      hide TotalPreorder, Ranged;
      if |blocks| == 0 {
        return false;
      }
      var b := BlockFor(value);
      Located(compare, blocks, value, b);
      LocatedScan(compare, blocks, value, b, ascending, inclusive);
      found := MatchesBlock(blocks[b], value, ascending, inclusive, id);
      if found {
        return;
      }
      if ascending {
        found := BlockRangeContains(b + 1, |blocks|, id);
        assert blocks[b + 1..|blocks|] == blocks[b + 1..];
      } else {
        found := BlockRangeContains(0, b, id);
        assert blocks[0..b] == blocks[..b];
      }
    }

    method MatchesBlock(block: Block<V>, value: V, ascending: bool, inclusive: bool, id: nat) returns (found: bool)
      requires TotalPreorder(compare) && Sorted(compare, block.items) && block.bits == Postings(block.items)
      ensures found <==> id in Select(compare, block.items, value, ascending, inclusive)
    {
      var items := block.items;
      var lo := SideBoundary(block, value, ascending, inclusive);
      BlockSide(compare, items, lo, value, ascending, inclusive);
      if lo == (if ascending then 0 else |items|) {
        assert items[lo..] == items || items[..lo] == items;
        return id in block.bits;
      }
      if ascending {
        found := ScanUp(items, lo, id);
      } else {
        found := ScanDown(items, lo, id);
      }
    }

    method ScanUp(items: seq<Item<V>>, lo: nat, id: nat) returns (found: bool)
      requires lo <= |items|
      ensures found <==> id in Postings(items[lo..])
    {
      var pos := lo;
      while pos < |items|
        invariant lo <= pos <= |items|
        invariant id in Postings(items[lo..]) <==> id in Postings(items[pos..])
      {
        assert items[pos..][1..] == items[pos + 1..];
        if id in items[pos].bits {
          return true;
        }
        pos := pos + 1;
      }
      return false;
    }

    method ScanDown(items: seq<Item<V>>, lo: nat, id: nat) returns (found: bool)
      requires lo <= |items|
      ensures found <==> id in Postings(items[..lo])
    {
      var pos := lo;
      assert items[0..lo] == items[..lo];
      while pos > 0
        invariant 0 <= pos <= lo
        invariant id in Postings(items[0..lo]) <==> id in Postings(items[0..pos])
      {
        pos := pos - 1;
        PostingsStep(items, 0, pos);
        if id in items[pos].bits {
          return true;
        }
      }
      return false;
    }

    method BlockRangeContains(from: nat, to: nat, id: nat) returns (found: bool)
      requires Aggregated(blocks) && Ranged() && from <= to <= |blocks|
      ensures found <==> id in Postings(Flat(blocks[from..to]))
    {
      found := false;
      var first := from;
      while first < to && first % RANGE_BLOCK_SIZE != 0 && !found
        invariant from <= first <= to
        invariant found <==> id in Postings(Flat(blocks[from..first]))
      {
        found, first := BlockContains(from, first, to, id);
      }
      if !found {
        found, first := RangesContain(from, first, to, id);
      }
      while first < to && !found
        invariant from <= first <= to
        invariant found <==> id in Postings(Flat(blocks[from..first]))
      {
        found, first := BlockContains(from, first, to, id);
      }
      CutRange(from, first, to, to);
    }

    method RangesContain(ghost from: nat, start: nat, to: nat, id: nat) returns (found: bool, first: nat)
      requires Aggregated(blocks) && Ranged() && from <= start <= to <= |blocks|
      requires id !in Postings(Flat(blocks[from..start]))
      ensures from <= first <= to && (found <==> id in Postings(Flat(blocks[from..first])))
    {
      found, first := false, start;
      while first + RANGE_BLOCK_SIZE <= to && !found
        invariant from <= first <= to
        invariant found <==> id in Postings(Flat(blocks[from..first]))
      {
        var range := first / RANGE_BLOCK_SIZE;
        if range >= |rangeBlocks| || rangeBlocks[range].first != first {
          break;
        }
        assert IsRangeBlock(rangeBlocks[range], range, blocks);
        PostingsFlatStep(blocks, from, first, first + RANGE_BLOCK_SIZE);
        found := id in rangeBlocks[range].bits;
        first := first + RANGE_BLOCK_SIZE;
      }
    }

    method BlockContains(ghost from: nat, first: nat, ghost to: nat, id: nat) returns (found: bool, next: nat)
      requires Aggregated(blocks) && from <= first < to <= |blocks|
      requires id !in Postings(Flat(blocks[from..first]))
      ensures next == first + 1 && (found <==> id in Postings(Flat(blocks[from..next])))
    {
      PostingsFlatStep(blocks, from, first, first + 1);
      PostingsBlock(blocks, first);
      found, next := id in blocks[first].bits, first + 1;
    }

    lemma {:induction false} CutRange(from: nat, first: nat, next: nat, to: nat)
      requires from <= first <= next <= to <= |blocks|
      ensures Postings(Flat(blocks[from..next]))
                == Postings(Flat(blocks[from..first])) + Postings(Flat(blocks[first..next]))
      ensures Postings(Flat(blocks[from..to])) == Postings(Flat(blocks[from..next])) + Postings(Flat(blocks[next..to]))
    {
      PostingsFlatStep(blocks, from, first, next);
      PostingsFlatStep(blocks, from, next, to);
    }

    /**
     The planning estimate. Postings of one index may overlap when external IDs repeat, so it is an upper
     bound; it is exact when they do not, and zero exactly when nothing qualifies.
     */
    method EstimateCardinality(value: V, ascending: bool, inclusive: bool) returns (n: nat)
      requires Valid()
      ensures n >= |Select(compare, Items(), value, ascending, inclusive)|
      ensures n == 0 <==> Select(compare, Items(), value, ascending, inclusive) == {}
      ensures Disjoint(Items()) ==> n == |Select(compare, Items(), value, ascending, inclusive)|
    {
      if |blocks| == 0 {
        return 0;
      }
      var b := BlockFor(value);
      Located(compare, blocks, value, b);
      LocatedScan(compare, blocks, value, b, ascending, inclusive);
      var items := blocks[b].items;
      var lo := SideBoundary(blocks[b], value, ascending, inclusive);
      BlockSide(compare, items, lo, value, ascending, inclusive);
      n := CountSide(b, lo, ascending);
    }

    method CountSide(b: nat, lo: nat, ascending: bool) returns (n: nat)
      requires Valid() && b < |blocks| && lo <= |blocks[b].items|
      ensures var found := Postings(if ascending then blocks[b].items[lo..] else blocks[b].items[..lo])
                           + Postings(Flat(if ascending then blocks[b + 1..] else blocks[..b]));
              n >= |found| && (n == 0 <==> found == {}) && (Disjoint(Items()) ==> n == |found|)
    {
      if ascending {
        n := CountAbove(b, lo);
      } else {
        n := CountBelow(b, lo);
      }
      SideCounts(blocks, b, lo, ascending);
    }

    method CountAbove(b: nat, lo: nat) returns (n: nat)
      requires Valid() && b < |blocks| && lo <= |blocks[b].items|
      ensures n == ItemCards(blocks[b].items[lo..]) + BlockCards(blocks[b + 1..])
    {
      hide OrderedIndex.Valid, BlockCards, ItemCards;
      var here := CountItems(blocks[b].items, lo, |blocks[b].items|);
      var rest := CountBlocks(b + 1, |blocks|);
      assert blocks[b].items[lo..|blocks[b].items|] == blocks[b].items[lo..];
      assert blocks[b + 1..|blocks|] == blocks[b + 1..];
      n := here + rest;
    }

    method CountBelow(b: nat, lo: nat) returns (n: nat)
      requires Valid() && b < |blocks| && lo <= |blocks[b].items|
      ensures n == ItemCards(blocks[b].items[..lo]) + BlockCards(blocks[..b])
    {
      hide OrderedIndex.Valid, BlockCards, ItemCards;
      var here := CountItems(blocks[b].items, 0, lo);
      var rest := CountBlocks(0, b);
      assert blocks[b].items[0..lo] == blocks[b].items[..lo] && blocks[0..b] == blocks[..b];
      n := here + rest;
    }

    method CountItems(items: seq<Item<V>>, first: nat, last: nat) returns (n: nat)
      requires first <= last <= |items|
      ensures n == ItemCards(items[first..last])
    {
      n := 0;
      var pos := last;
      while pos > first
        invariant first <= pos <= last
        invariant n == ItemCards(items[pos..last])
      {
        pos := pos - 1;
        assert items[pos..last][1..] == items[pos + 1..last];
        n := n + |items[pos].bits|;
      }
    }

    /** Block cardinalities between two blocks: from the prefix sums once they are prepared. */
    method CountBlocks(first: nat, last: nat) returns (n: nat)
      requires Valid() && first <= last <= |blocks|
      ensures n == BlockCards(blocks[first..last])
    {
      if |blockPrefix| == |blocks| + 1 {
        assert blocks[..last] == blocks[..first] + blocks[first..last];
        BlockCardsConcat(blocks[..first], blocks[first..last]);
        return blockPrefix[last] - blockPrefix[first];
      }
      n := 0;
      var pos := last;
      while pos > first
        invariant first <= pos <= last
        invariant n == BlockCards(blocks[pos..last])
      {
        pos := pos - 1;
        assert blocks[pos..last][1..] == blocks[pos + 1..last];
        n := n + |blocks[pos].bits|;
      }
    }

    // ----- preparing for search -----

    method PrepareSearch()
      requires Valid()
      modifies this`routing, this`blockPrefix
      ensures Valid() && IsPrefix(blockPrefix, blocks)
      ensures Routable() && |blocks| < UINT64 ==> Routes(routing)
      ensures !Routable() ==> routing == old(routing)
    {
      PrepareRouting();
      blockPrefix := PrefixSums();
    }

    method PrefixSums() returns (prefix: seq<nat>)
      ensures IsPrefix(prefix, blocks)
    {
      prefix := [0];
      var b := 0;
      while b < |blocks|
        invariant 0 <= b <= |blocks| && |prefix| == b + 1
        invariant forall c :: 0 <= c <= b ==> prefix[c] == BlockCards(blocks[..c])
      {
        assert blocks[..b + 1] == blocks[..b] + [blocks[b]];
        BlockCardsConcat(blocks[..b], [blocks[b]]);
        assert [blocks[b]][1..] == [];
        prefix := prefix + [prefix[b] + |blocks[b].bits|];
        b := b + 1;
      }
    }

    /** The first and the last stored value have keys, in this order, and they lie in different blocks. */
    ghost predicate Routable()
      requires Sized(blocks)
      reads this`blocks
    {
      && 2 <= |blocks|
      && routingKey(blocks[0].items[0].value).Some? && routingKey(Last(blocks[|blocks| - 1])).Some?
      && routingKey(blocks[0].items[0].value).value < routingKey(Last(blocks[|blocks| - 1])).value
    }

    /** Every block before the route of a slot ends below the slot's lower key, and the routed block does not. */
    ghost predicate Routes(table: Routing)
      requires Sized(blocks)
      reads this`blocks
    {
      && 2 <= |table.blocks| <= |blocks| && InRange(table, |blocks|)
      && forall slot: nat :: slot < |table.blocks| ==>
           SlotKey(table.min, table.width, slot) < UINT64
             && IsRoute(table.blocks[slot], SlotKey(table.min, table.width, slot))
    }

    ghost predicate EndsBelow(block: nat, key: nat)
      requires Sized(blocks) && block < |blocks|
      reads this`blocks
    {
      routingKey(Last(blocks[block])).Some? && routingKey(Last(blocks[block])).value < key
    }

    ghost predicate IsRoute(block: nat, key: nat)
      requires Sized(blocks)
      reads this`blocks
    {
      && block < |blocks| && (forall b: nat :: b < block ==> EndsBelow(b, key))
      && (block < |blocks| - 1 ==> !EndsBelow(block, key))
    }

    method PrepareRouting()
      requires Valid()
      modifies this`routing
      ensures Valid()
      ensures Routable() && |blocks| < UINT64 ==> Routes(routing)
      ensures !Routable() ==> routing == old(routing)
    {
      var table := RoutingTable();
      if table.Some? {
        routing := table.value;
      }
    }

    /**
     The routing table, exactly if the keys of the outermost values support one. No slot's lower key leaves 64 bits,
     and each slot is routed to the first block that may reach its lower key.
     */
    method RoutingTable() returns (table: Option<Routing>)
      requires Valid()
      ensures table.Some? ==> Routable() && Routes(table.value)
      ensures Routable() && |blocks| < UINT64 ==> table.Some?
    {
      var plan := PlanSlots();
      if plan.None? {
        return None;
      }
      var routes := FillRoutes(plan.value.min, plan.value.width, plan.value.used);
      table := Some(Routing(plan.value.min, plan.value.width, routes));
    }

    /** The lowest key, the width and the number of the slots. */
    method PlanSlots() returns (plan: Option<SlotPlan>)
      requires Valid()
      ensures plan.Some? ==> Routable() && plan.value.width > 0 && 2 <= plan.value.used <= |blocks| && Fits(plan.value)
      ensures Routable() && |blocks| < UINT64 ==> plan.Some?
    {
      plan := None;
      if |blocks| == 0 {
        return;
      }
      var firstKey := routingKey(blocks[0].items[0].value);
      var lastKey := routingKey(Last(blocks[|blocks| - 1]));
      if firstKey.None? || lastKey.None? || lastKey.value < firstKey.value {
        return;
      }
      plan := SpreadSlots(firstKey.value, lastKey.value, |blocks|);
    }

    /** Routes one slot after the other; each search goes on where the previous one stopped. */
    method FillRoutes(min: nat, width: nat, used: nat) returns (routes: seq<nat>)
      requires Valid() && 0 < used <= |blocks|
      requires forall slot: nat :: slot < used ==> SlotKey(min, width, slot) < UINT64
      ensures |routes| == used
      ensures forall slot: nat :: slot < used ==> IsRoute(routes[slot], SlotKey(min, width, slot))
    {
      routes := [];
      var block := 0;
      ghost var reached := min;
      while |routes| < used
        invariant |routes| <= used && 0 <= block < |blocks| && reached == SlotKey(min, width, |routes|)
        invariant forall b: nat :: b < block ==> EndsBelow(b, reached)
        invariant forall slot: nat :: slot < |routes| ==> IsRoute(routes[slot], SlotKey(min, width, slot))
      {
        var lower := (min + |routes| * width) % UINT64;
        assert lower == reached;
        block := FirstBlockFrom(block, lower);
        routes := routes + [block];
        reached := SlotKey(min, width, |routes|);
        NextSlot(|routes| - 1, width);
        forall b: nat | b < block
          ensures EndsBelow(b, reached)
        {
          assert EndsBelow(b, lower);
        }
      }
    }

    /** Advances past the blocks whose last key is below `lower`. */
    method FirstBlockFrom(from: nat, lower: nat) returns (block: nat)
      requires Valid() && from < |blocks| && forall b: nat :: b < from ==> EndsBelow(b, lower)
      ensures from <= block && IsRoute(block, lower)
    {
      block := from;
      while block < |blocks| - 1
        invariant from <= block < |blocks| && forall b: nat :: b < block ==> EndsBelow(b, lower)
      {
        var key := routingKey(Last(blocks[block]));
        if key.None? || key.value >= lower {
          break;
        }
        block := block + 1;
      }
    }

    /** The second-level aggregates, only when at least two of them fit. */
    method PrepareRangeSearch()
      requires Valid()
      modifies this`rangeBlocks, this`accountingValid
      ensures Valid()
      ensures |blocks| >= 2 * RANGE_BLOCK_SIZE ==> |rangeBlocks| == |blocks| / RANGE_BLOCK_SIZE
    {
      if |blocks| < RANGE_BLOCK_SIZE * 2 {
        return;
      }
      accountingValid := false;
      rangeBlocks := RangeAggregates();
    }

    method RangeAggregates() returns (ranges: seq<RangeBlock>)
      requires Aggregated(blocks)
      ensures |ranges| == |blocks| / RANGE_BLOCK_SIZE
      ensures forall j :: 0 <= j < |ranges| ==> IsRangeBlock(ranges[j], j, blocks)
    {
      ranges := [];
      var first := 0;
      while first + RANGE_BLOCK_SIZE <= |blocks|
        invariant first == |ranges| * RANGE_BLOCK_SIZE && first <= |blocks|
        invariant forall j :: 0 <= j < |ranges| ==> IsRangeBlock(ranges[j], j, blocks)
      {
        var bits := RangeUnion(first);
        ranges := ranges + [RangeBlock(first, bits)];
        first := first + RANGE_BLOCK_SIZE;
      }
    }

    /** The union of eight blocks. */
    method RangeUnion(first: nat) returns (bits: set<nat>)
      requires Aggregated(blocks) && first + RANGE_BLOCK_SIZE <= |blocks|
      ensures bits == Postings(Flat(blocks[first..first + RANGE_BLOCK_SIZE]))
    {
      bits := {};
      var block := first;
      while block < first + RANGE_BLOCK_SIZE
        invariant first <= block <= first + RANGE_BLOCK_SIZE
        invariant bits == Postings(Flat(blocks[first..block]))
      {
        PostingsFlatStep(blocks, first, block, block + 1);
        PostingsBlock(blocks, block);
        bits := bits + blocks[block].bits;
        block := block + 1;
      }
    }

    // ----- building -----

    method Insert(value: V, id: nat)
      requires Valid() && Building()
      modifies this`blocks, this`accountingValid
      ensures Valid() && Building()
      ensures Items() == Inserted(compare, old(Items()), value, {id})
    {
      hide Sorted, Inserted;
      accountingValid := false;
      InsertedNoEmpty(compare, Items(), value, {id});
      if |blocks| != 0 {
        var b, position, found := Find(value);
        if found {
          Extend(b, position, value, {id});
          return;
        }
      }
      InsertItem(Item(value, {}));
      assert Aggregated(blocks);
      ExtendInserted(old(Items()), value, {id});
    }

    /** Adds IDs to the posting of an item that has just been inserted empty. */
    method ExtendInserted(ghost items: seq<Item<V>>, value: V, extra: set<nat>)
      requires Ordered() && |blocks| > 0 && Aggregated(blocks)
      requires Items() == Inserted(compare, items, value, {})
      modifies this`blocks
      ensures Ordered() && Aggregated(blocks)
      ensures Items() == Inserted(compare, items, value, extra)
    {
      assert compare(value, value) == 0;
      ghost var k := InsertedHasValue(compare, items, value, {});
      InsertedTwice(compare, items, value, extra);
      var b, position, found := Find(value);
      assert found by { assert compare(Items()[k].value, value) == 0; }
      Extend(b, position, value, extra);
    }

    method Find(value: V) returns (b: nat, position: nat, found: bool)
      requires Ordered() && |blocks| > 0
      ensures IsBlockFor(compare, blocks, value, b) && position <= |blocks[b].items|
      ensures AllBelow(compare, blocks[b].items[..position], value)
      ensures position < |blocks[b].items| ==> compare(blocks[b].items[position].value, value) >= 0
      ensures found <==> position < |blocks[b].items| && compare(blocks[b].items[position].value, value) == 0
      ensures found ==> exists k :: 0 <= k < |Items()| && compare(Items()[k].value, value) == 0
      ensures !found ==> forall k :: 0 <= k < |Items()| ==> compare(Items()[k].value, value) != 0
    {
      b := BlockFor(value);
      Located(compare, blocks, value, b);
      position := SearchBlock(blocks[b], value);
      found := position < |blocks[b].items| && compare(blocks[b].items[position].value, value) == 0;
      if found {
        assert Items()[|Flat(blocks[..b])| + position] == blocks[b].items[position];
      } else {
        AbsentValue(value, b, position);
      }
    }

    /** Adds IDs to the posting of a value that is already present. */
    method Extend(b: nat, position: nat, value: V, extra: set<nat>)
      requires Ordered() && Aggregated(blocks)
      requires IsBlockFor(compare, blocks, value, b) && position < |blocks[b].items|
      requires compare(blocks[b].items[position].value, value) == 0
      modifies this`blocks
      ensures Ordered() && Aggregated(blocks)
      ensures Items() == Inserted(compare, old(Items()), value, extra)
    {
      var items := blocks[b].items;
      var extended := items[position := Item(items[position].value, items[position].bits + extra)];
      ExtendedLocated(compare, blocks, b, position, value, extra);
      PostingsExtended(items, position, extra);
      InsertedSorted(compare, Flat(blocks), value, extra);
      var block := Block(extended, blocks[b].bits + extra);
      ReplaceBlock(blocks, b, block);
      blocks := blocks[b := block];
    }

    /** Puts a new item into its block and splits a block that has grown past twice the block size. */
    method InsertItem(item: Item<V>)
      requires Ordered() && Aggregated(blocks)
      requires forall k :: 0 <= k < |Items()| ==> compare(Items()[k].value, item.value) != 0
      modifies this`blocks
      ensures Ordered() && |blocks| > 0
      ensures Items() == Inserted(compare, old(Items()), item.value, item.bits)
      ensures AggregatedExcept(compare, blocks, item)
    {
      if |blocks| == 0 {
        blocks := [Block([item], {})];
        assert Flat(blocks) == [item] by { FlatOne(blocks[0]); }
        assert [item][1..] == [];
        return;
      }
      var b, position, found := Find(item.value);
      assert !found;
      PlaceItem(b, position, item);
    }

    method PlaceItem(b: nat, position: nat, item: Item<V>)
      requires Ordered() && Aggregated(blocks)
      requires IsBlockFor(compare, blocks, item.value, b) && position <= |blocks[b].items|
      requires AllBelow(compare, blocks[b].items[..position], item.value)
      requires position < |blocks[b].items| ==> compare(blocks[b].items[position].value, item.value) > 0
      modifies this`blocks
      ensures Ordered() && |blocks| > 0
      ensures Items() == Inserted(compare, old(Items()), item.value, item.bits)
      ensures AggregatedExcept(compare, blocks, item)
    {
      var items := WithItem(blocks[b].items, position, item);
      InsertedLocated(compare, blocks, b, position, item);
      InsertedSorted(compare, Flat(blocks), item.value, item.bits);
      if |items| <= 2 * BLOCK_SIZE {
        JoinedExcept(compare, blocks, b, position, item);
        blocks := Joined(blocks, b, position, item);
      } else {
        var leftBits := AggregateItems(items[..BLOCK_SIZE]);
        var rightBits := AggregateItems(items[BLOCK_SIZE..]);
        var left, right := Block(items[..BLOCK_SIZE], leftBits), Block(items[BLOCK_SIZE..], rightBits);
        SplitExcept(compare, blocks, b, position, item, left, right);
        blocks := Split(blocks, b, left, right);
      }
    }

    /** Installs an already merged posting under a boundary. */
    method InsertPosting(value: V, bits: set<nat>)
      requires Valid() && Building() && bits != {}
      modifies this`blocks, this`accountingValid
      ensures Valid() && Building()
      ensures Items() == Inserted(compare, old(Items()), value, bits)
    {
      accountingValid := false;
      InsertedNoEmpty(compare, Items(), value, bits);
      if |blocks| == 0 {
        blocks := [Block([Item(value, bits)], bits)];
        FlatOne(blocks[0]);
        assert [Item(value, bits)][1..] == [];
        return;
      }
      var b, position, found := Find(value);
      if found {
        Extend(b, position, value, bits);
        return;
      }
      InsertItem(Item(value, bits));
      CompleteAggregate(Item(value, bits));
    }

    method CompleteAggregate(item: Item<V>)
      requires Ordered() && |blocks| > 0 && AggregatedExcept(compare, blocks, item)
      modifies this`blocks
      ensures Ordered() && Aggregated(blocks) && Items() == old(Items())
    {
      var b := BlockFor(item.value);
      forall c | 0 <= c < |blocks| && IsBlockFor(compare, blocks, item.value, c)
        ensures c == b
      {
        BlockForUnique(compare, blocks, item.value, b, c);
      }
      var block := Block(blocks[b].items, blocks[b].bits + item.bits);
      ReplaceBlock(blocks, b, block);
      FlatAt(blocks, b);
      blocks := blocks[b := block];
    }

    /** An independent copy of the items, with a block layout of its own. */
    method CloneBuild() returns (clone: OrderedIndex<V>)
      requires Valid()
      ensures fresh(clone) && clone.Valid() && clone.Building()
      ensures clone.compare == compare && clone.routingKey == routingKey && clone.size == size
              && clone.valueBytes == valueBytes
      ensures clone.Items() == Items()
    {
      clone := new OrderedIndex(compare, routingKey, size, valueBytes);
      var b := 0;
      while b < |blocks|
        invariant 0 <= b <= |blocks| && fresh(clone) && clone.Valid() && clone.Building()
        invariant clone.Items() == Flat(blocks[..b])
      {
        CloneBlock(clone, b);
        b := b + 1;
      }
      assert blocks[..b] == blocks;
    }

    method CloneBlock(clone: OrderedIndex<V>, b: nat)
      requires Ordered() && NoEmptyPosting(Items()) && b < |blocks| && clone != this
      requires clone.Valid() && clone.Building() && clone.compare == compare && clone.Items() == Flat(blocks[..b])
      modifies clone`blocks, clone`accountingValid
      ensures clone.Valid() && clone.Building() && clone.Items() == Flat(blocks[..b + 1])
    {
      var items := blocks[b].items;
      FlatAt(blocks, b);
      var k := 0;
      assert Flat(blocks[..b]) + items[..0] == Flat(blocks[..b]);
      while k < |items|
        invariant 0 <= k <= |items| && clone.Valid() && clone.Building()
        invariant clone.Items() == Flat(blocks[..b]) + items[..k]
      {
        CloneStep(b, k);
        clone.InsertPosting(items[k].value, items[k].bits);
        k := k + 1;
      }
      assert items[..k] == items;
    }

    /** The accounting of the build state, recomputed only when it is not known to be current. */
    method Account() returns (accounting: Accounting)
      requires Valid()
      modifies this`buildAccounting, this`accountingValid
      ensures Valid() && accountingValid
      ensures accounting == buildAccounting == BlocksAccounting(blocks, size, valueBytes)
    {
      if !accountingValid {
        var total := NOTHING;
        var b := |blocks|;
        while b > 0
          modifies {}
          invariant 0 <= b <= |blocks| && total == BlocksAccounting(blocks[b..], size, valueBytes)
        {
          b := b - 1;
          assert blocks[b..] == [blocks[b]] + blocks[b + 1..];
          AccountingConcat([blocks[b]], blocks[b + 1..], size, valueBytes);
          total := Plus(BlocksAccounting([blocks[b]], size, valueBytes), total);
        }
        assert blocks[0..] == blocks;
        buildAccounting, accountingValid := total, true;
      }
      accounting := buildAccounting;
    }

    lemma {:induction false} CloneStep(b: nat, k: nat)
      requires Ordered() && NoEmptyPosting(Items()) && b < |blocks| && k < |blocks[b].items|
      ensures blocks[b].items[k].bits != {}
      ensures Inserted(compare, Flat(blocks[..b]) + blocks[b].items[..k],
                       blocks[b].items[k].value, blocks[b].items[k].bits)
           == Flat(blocks[..b]) + blocks[b].items[..k + 1]
    {
      var items := blocks[b].items;
      var below, rest := Flat(blocks[..b]) + items[..k], items[k + 1..] + Flat(blocks[b + 1..]);
      FlatAt(blocks, b);
      assert Items() == below + [items[k]] + rest;
      assert Items()[|below|] == items[k];
      InsertedLast(compare, below, items[k], rest);
      assert below + [items[k]] == Flat(blocks[..b]) + items[..k + 1];
    }

    method AggregateItems(items: seq<Item<V>>) returns (bits: set<nat>)
      ensures bits == Postings(items)
    {
      bits := {};
      var k := 0;
      while k < |items|
        invariant 0 <= k <= |items|
        invariant bits == Postings(items[0..k])
      {
        PostingsStep(items, 0, k);
        bits := bits + items[k].bits;
        k := k + 1;
      }
      assert items[0..k] == items;
    }
  }

  /** The lowest key routed by a slot. */
  ghost function SlotKey(min: nat, width: nat, slot: nat): nat {
    min + slot * width
  }

  datatype SlotPlan = SlotPlan(min: nat, width: nat, used: nat)

  /** No slot in use has a lower key beyond 64 bits. */
  ghost predicate Fits(plan: SlotPlan) {
    forall slot: nat :: slot < plan.used ==> SlotKey(plan.min, plan.width, slot) < UINT64
  }

  /** Divides the keys among at most as many slots as there are blocks, in 64-bit arithmetic. */
  method SpreadSlots(firstKey: nat, lastKey: nat, count: nat) returns (plan: Option<SlotPlan>)
    requires firstKey <= lastKey < UINT64 && count > 0
    ensures plan.Some? ==>
              firstKey < lastKey && plan.value.width > 0 && 2 <= plan.value.used <= count && Fits(plan.value)
    ensures 2 <= count < UINT64 && firstKey < lastKey ==> plan.Some?
  {
    var span := lastKey - firstKey;
    var width := (span / count + 1) % UINT64;
    if 2 <= count < UINT64 && span > 0 {
      TwoSlots(span, count);
    }
    if width == 0 {
      return None;
    }
    var slots := (span / width + 1) % UINT64;
    var used := if slots < count then slots else count;
    if used < 2 {
      return None;
    }
    SlotsSpread(span, width);
    plan := Some(SlotPlan(firstKey, width, used));
    forall slot: nat | slot < used
      ensures SlotKey(firstKey, width, slot) < UINT64
    {
      SlotWithin(slot, width, span, lastKey);
    }
  }

  lemma {:induction false} SlotWithin(slot: nat, width: nat, span: nat, last: nat)
    requires width > 0 && slot < (span / width + 1) % UINT64 && span <= last < UINT64
    ensures last - span + slot * width < UINT64
  {
    WrapShrinks(span / width + 1, UINT64);
    WholeSteps(slot, width, span);
  }

  lemma {:induction false} NextSlot(slot: nat, width: nat)
    ensures slot * width <= (slot + 1) * width
  {
  }

  /** Two slots or more need a span that is not empty. */
  lemma {:induction false} SlotsSpread(span: nat, width: nat)
    requires width > 0 && (span / width + 1) % UINT64 >= 2
    ensures span > 0
  {
    if span == 0 {
      QuotientUnique(span, width, 0, 0);
      QuotientUnique(1, UINT64, 0, 1);
    }
  }

  /** Two blocks and a span that is not empty always give two slots; nothing wraps on the way. */
  lemma {:induction false} TwoSlots(span: nat, count: nat)
    requires 2 <= count < UINT64 && 0 < span < UINT64
    ensures var width := (span / count + 1) % UINT64; width > 0 && (span / width + 1) % UINT64 >= 2
  {
    QuotientFits(span, count);
    var width := span / count + 1;
    QuotientUnique(width, UINT64, 0, width);
    QuotientFits(span, width);
    if width == 1 {
      QuotientUnique(span, 1, span, 0);
      SmallQuotient(span, count);
    }
    assert 1 <= span / width < UINT64 - 1 by { AtLeastOne(span, width); }
    QuotientUnique(span / width + 1, UINT64, 0, span / width + 1);
  }

  /** Dividing by two or more at least halves. */
  lemma {:induction false} QuotientFits(n: nat, d: nat)
    requires d > 0
    ensures d >= 2 ==> 2 * (n / d) <= n
  {
    assert n == (n / d) * d + n % d;
    assert d >= 2 ==> (n / d) * d >= (n / d) * 2;
  }

  lemma {:induction false} SmallQuotient(n: nat, d: nat)
    requires d > 0 && n / d == 0
    ensures n < d
  {
    assert n == (n / d) * d + n % d;
  }

  lemma {:induction false} AtLeastOne(n: nat, d: nat)
    requires 0 < d <= n
    ensures n / d >= 1
  {
    if n / d == 0 {
      SmallQuotient(n, d);
    }
  }

  lemma {:induction false} WrapShrinks(n: nat, limit: nat)
    requires limit > 0
    ensures n % limit <= n
  {
    if n < limit {
      QuotientUnique(n, limit, 0, n);
    }
  }

  /** As many steps as fit into a span do not leave it. */
  lemma {:induction false} WholeSteps(steps: nat, width: nat, span: nat)
    requires width > 0 && steps <= span / width
    ensures steps * width <= span
  {
    assert span == (span / width) * width + span % width;
    assert (span / width - steps) * width >= 0;
    assert (span / width) * width == steps * width + (span / width - steps) * width;
  }

  /** The counts of one side of a position. */
  lemma {:induction false} SideCounts<V>(blocks: seq<Block<V>>, b: nat, lo: nat, ascending: bool)
    requires Aggregated(blocks) && b < |blocks| && lo <= |blocks[b].items|
    ensures var items := if ascending then blocks[b].items[lo..] else blocks[b].items[..lo];
            var rest := if ascending then blocks[b + 1..] else blocks[..b];
            var found, n := Postings(items) + Postings(Flat(rest)), ItemCards(items) + BlockCards(rest);
            n >= |found| && (n == 0 <==> found == {}) && (Disjoint(Flat(blocks)) ==> n == |found|)
  {
    CountsBound(blocks[b].items[lo..], blocks[b + 1..]);
    CountsBound(blocks[b].items[..lo], blocks[..b]);
    if Disjoint(Flat(blocks)) {
      SidesDisjoint(blocks, b, lo);
    }
  }

  lemma {:induction false} SidesDisjoint<V>(blocks: seq<Block<V>>, b: nat, lo: nat)
    requires b < |blocks| && lo <= |blocks[b].items| && Disjoint(Flat(blocks))
    ensures Disjoint(blocks[b].items[lo..]) && Disjoint(Flat(blocks[b + 1..]))
    ensures Disjoint(blocks[b].items[..lo]) && Disjoint(Flat(blocks[..b]))
    ensures Postings(blocks[b].items[lo..]) !! Postings(Flat(blocks[b + 1..]))
    ensures Postings(blocks[b].items[..lo]) !! Postings(Flat(blocks[..b]))
  {
    var below, items, above := Flat(blocks[..b]), blocks[b].items, Flat(blocks[b + 1..]);
    FlatAt(blocks, b);
    assert below + items + above == below + (items + above);
    assert items == items[..lo] + items[lo..];
    DisjointConcat(below, items + above);
    DisjointConcat(items, above);
    DisjointConcat(items[..lo], items[lo..]);
    PostingsConcat(items, above);
    PostingsConcat(items[..lo], items[lo..]);
  }

  lemma {:induction false} CountsBound<V>(items: seq<Item<V>>, blocks: seq<Block<V>>)
    requires Aggregated(blocks)
    ensures ItemCards(items) + BlockCards(blocks) >= |Postings(items) + Postings(Flat(blocks))|
    ensures ItemCards(items) + BlockCards(blocks) == 0 <==> Postings(items) + Postings(Flat(blocks)) == {}
    ensures Disjoint(items) && Disjoint(Flat(blocks)) && Postings(items) !! Postings(Flat(blocks)) ==>
              ItemCards(items) + BlockCards(blocks) == |Postings(items) + Postings(Flat(blocks))|
  {
    ItemCardsBound(items);
    BlockCardsBound(blocks);
    UnionCardinality(Postings(items), Postings(Flat(blocks)));
  }
}
