/** The rules built on ordered indexes: the four one-sided comparisons, Between and CompareBy. */
module OrderedRules {
  import opened Bitmaps
  import opened OrderedItems
  import opened OrderedBlocks
  import opened OrderedRounding
  import opened OrderedIndexes
  import opened OrderedRebuild

  /** Merging at `p` comes before merging at `j`: a smaller union, then a larger footprint, then the first position. */
  ghost predicate Ahead<V>(items: seq<Item<V>>, size: set<nat> -> nat, p: nat, j: nat)
    requires p + 1 < |items| && j + 1 < |items|
  {
    var union, other := |items[p].bits + items[p + 1].bits|, |items[j].bits + items[j + 1].bits|;
    var released, otherReleased := size(items[p].bits) + size(items[p + 1].bits),
                                   size(items[j].bits) + size(items[j + 1].bits);
    || union < other
    || (union == other && released > otherReleased)
    || (union == other && released == otherReleased && p < j)
  }

  /** Prefers the smaller union, then the larger footprint; a missing candidate loses. */
  predicate BetterMerge(candidate: Option<MergeCandidate>, current: Option<MergeCandidate>) {
    candidate.Some? &&
    (current.None?
     || candidate.value.cardinality < current.value.cardinality
     || (candidate.value.cardinality == current.value.cardinality
         && candidate.value.footprint > current.value.footprint))
  }

  /** A smaller union, or the same and a larger footprint; equal merges are decided by `first`. */
  ghost predicate Outranks(best: MergeCandidate, rival: MergeCandidate, first: bool) {
    || best.cardinality < rival.cardinality
    || (best.cardinality == rival.cardinality && best.footprint > rival.footprint)
    || (best.cardinality == rival.cardinality && best.footprint == rival.footprint && first)
  }

  /** What a merge would cost and release. */
  ghost function MergeAt<V(!new)>(part: OrderedPart<V>, position: nat): MergeCandidate
    requires position + 1 < |part.index.Items()|
    reads part, part.index
  {
    var items := part.index.Items();
    MergeCandidate(position, MergeCardinality(items, position), MergeFootprint(items, part.index.size, position))
  }

  /** An ordered index under construction, with the rounding direction of its lossy form. */
  class OrderedPart<V(!new)> {
    const upward: bool
    var index: OrderedIndex<V>
    var quantized: bool
    ghost var stored: iset<(V, nat)>

    ghost predicate Valid()
      reads this, index
    {
      && index.Valid()
      && Tracks(index.compare, index.Items(), stored, upward)
      && (!quantized ==>
          TracksEqual(index.compare, index.Items(), stored) && Unmerged(index.compare, index.Items(), stored))
    }

    constructor (upward: bool, index: OrderedIndex<V>)
      requires index.Valid() && index.Items() == []
      ensures Valid() && !quantized && stored == iset{} && this.upward == upward && this.index == index
    {
      this.upward, this.index, quantized, stored := upward, index, false, iset{};
    }

    method Insert(value: V, id: nat)
      requires Valid() && index.Building()
      modifies this`stored, index
      ensures Valid() && index.Building() && index.compare == old(index.compare)
      ensures stored == old(stored) + iset{(value, id)}
    {
      ghost var compare, items := index.compare, index.Items();
      if quantized {
        InsertOrdered(index, value, id, upward, true);
        ghost var key :| index.Items() == Inserted(compare, items, key, {id})
                           && IsRounded(compare, items, value, upward, key);
        InsertTracks(compare, items, stored, value, id, key, upward);
      } else {
        InsertOrdered(index, value, id, upward, false);
        InsertUnmerged(compare, items, stored, value, id);
        UnmergedTracksEqual(compare, index.Items(), stored + iset{(value, id)}, upward);
      }
      stored := stored + iset{(value, id)};
    }

    /** Replaces the index by one with the chosen neighbours merged; nothing stored is forgotten. */
    method Merge(position: nat)
      requires Valid() && position + 1 < |index.Items()|
      modifies this`index, this`quantized, index`buildAccounting, index`accountingValid
      ensures Valid() && index.Building() && fresh(index) && quantized && stored == old(stored)
      ensures index.compare == old(index.compare)
      ensures index.Items() == Merged(old(index.Items()), position, upward)
    {
      hide Tracks, TracksEqual, Unmerged;
      ghost var compare, items := index.compare, index.Items();
      var next := RebuildSelected(index, upward, position);
      index, quantized := next, true;
      MergeTracksAs(compare, items, index.Items(), stored, position, upward);
    }

    /** The best merge of neighbours. */
    ghost predicate Best(position: nat)
      reads this, index
    {
      var items := index.Items();
      position + 1 < |items|
      && forall j: nat :: j + 1 < |items| && j != position ==> Ahead(items, index.size, position, j)
    }

    lemma {:induction false} BestIs(best: Option<MergeCandidate>)
      requires IsBestMerge(index.Items(), index.size, |index.Items()|, best)
      ensures best.Some? <==> |index.Items()| > 1
      ensures best.Some? ==> Best(best.value.position) && best.value == MergeAt(this, best.value.position)
      ensures forall j: nat :: j + 1 < |index.Items()| ==> !BetterMerge(Some(MergeAt(this, j)), best)
    {
      if best.Some? {
        var items, position := index.Items(), best.value.position;
        forall j: nat | j + 1 < |items|
          ensures !BetterMerge(Some(MergeAt(this, j)), best)
        {
          assert !Cheaper(items, index.size, j, position);
        }
        forall j: nat | j + 1 < |items| && j != position
          ensures Ahead(items, index.size, position, j)
        {
          assert !Cheaper(items, index.size, j, position) && (j < position ==> Cheaper(items, index.size, position, j));
        }
      }
    }

    /** What a walk returns; rounding happens outward, so the walk direction equals the rounding direction. */
    ghost function Found(query: V, inclusive: bool): set<nat>
      reads this, index
    {
      Select(index.compare, index.Items(), query, upward, inclusive)
    }

    /** No stored value on the requested side of the query is ever lost, and before any merge nothing is added. */
    lemma {:induction false} FoundMatches(query: V, inclusive: bool, id: nat)
      requires Valid()
      ensures Qualifies(index.compare, stored, query, upward, inclusive, id) ==> id in Found(query, inclusive)
      ensures !quantized ==>
                (id in Found(query, inclusive) <==> Qualifies(index.compare, stored, query, upward, inclusive, id))
    {
      if Qualifies(index.compare, stored, query, upward, inclusive, id) {
        SelectKeepsMatches(index.compare, index.Items(), stored, query, upward, inclusive, id);
      }
      if !quantized {
        SelectExact(index.compare, index.Items(), stored, query, upward, inclusive, id);
      }
    }
  }

  /** What a part holds: its boundaries, their comparator, and whether boundaries have been merged. */
  datatype Held<!V> = Held(items: seq<Item<V>>, compare: (V, V) -> int, quantized: bool)

  ghost function HeldBy<V(!new)>(part: OrderedPart<V>): Held<V>
    reads part, part.index
  {
    Held(part.index.Items(), part.index.compare, part.quantized)
  }

  /** The neighbours at a position are merged outward. */
  ghost function AfterMerge<V>(held: Held<V>, position: nat, upward: bool): Held<V>
    requires position + 1 < |held.items|
  {
    Held(Merged(held.items, position, upward), held.compare, true)
  }

  /** Greater, GreaterOrEqual, Less and LessOrEqual; `part.upward` is the less-than direction. */
  class OrderedRule<V(!new)> {
    const inclusive: bool
    const part: OrderedPart<V>
    var wildcard: set<nat>

    ghost predicate Valid()
      reads this, part, part.index
    {
      part.Valid()
    }

    constructor (part: OrderedPart<V>, inclusive: bool)
      requires part.Valid() && part.stored == iset{}
      ensures Valid() && wildcard == {} && this.part == part && this.inclusive == inclusive
    {
      this.part, this.inclusive, wildcard := part, inclusive, {};
    }

    /** A missing stored value is a wildcard. */
    method Insert(value: Option<V>, id: nat)
      requires Valid() && part.index.Building()
      modifies this`wildcard, part`stored, part.index
      ensures Valid() && part.index.Building() && part.index.compare == old(part.index.compare)
      ensures wildcard == old(wildcard) + if value.None? then {id} else {}
      ensures part.stored == old(part.stored) + if value.Some? then iset{(value.value, id)} else iset{}
    {
      match value {
        case None => wildcard := wildcard + {id};
        case Some(v) => part.Insert(v, id);
      }
    }

    /** One lossy step: merges the best pair of neighbours. */
    method Downgrade() returns (stepped: bool, ghost position: nat)
      requires Valid()
      modifies part`index, part`quantized, part.index`buildAccounting, part.index`accountingValid
      ensures Valid() && part.stored == old(part.stored) && part.index.compare == old(part.index.compare)
      ensures stepped <==> |old(part.index.Items())| > 1
      ensures stepped ==> old(part.Best(position)) && part.quantized && part.index.Building()
      ensures part.index.Items()
              == if stepped then Merged(old(part.index.Items()), position, part.upward) else old(part.index.Items())
    {
      hide Tracks, TracksEqual, Unmerged;
      var best := BestMerge(part.index);
      part.BestIs(best);
      stepped, position := best.Some?, 0;
      if stepped {
        position := best.value.position;
        part.Merge(best.value.position);
      }
    }

    /** What a search returns. */
    ghost function Result(query: Option<V>): set<nat>
      reads this, part, part.index
    {
      wildcard + if query.Some? then part.Found(query.value, inclusive) else {}
    }

    /** The plain meaning: stored wildcards, and stored values on the requested side of a present query. */
    ghost predicate Matching(query: Option<V>, id: nat)
      reads this, part, part.index
    {
      id in wildcard
        || (query.Some? && Qualifies(part.index.compare, part.stored, query.value, part.upward, inclusive, id))
    }

    lemma {:induction false} ResultMatches(query: Option<V>, id: nat)
      requires Valid()
      ensures Matching(query, id) ==> id in Result(query)
      ensures !part.quantized ==> (id in Result(query) <==> Matching(query, id))
    {
      if query.Some? {
        part.FoundMatches(query.value, inclusive, id);
      }
    }

    /** Some value stored with this ID compares to the query as the relation asks. */
    ghost predicate StoredWith(query: V, id: nat, relation: int -> bool)
      reads this, part, part.index
    {
      exists p :: p in part.stored && p.1 == id && relation(part.index.compare(p.0, query))
    }

    /** The four relations: query > stored, query >= stored, query < stored and query <= stored. */
    lemma {:induction false} FourRelations(query: V, id: nat)
      requires Valid() && !part.quantized
      ensures !part.upward && !inclusive ==>
                (id in Result(Some(query)) <==> id in wildcard || StoredWith(query, id, c => c < 0))
      ensures !part.upward && inclusive ==>
                (id in Result(Some(query)) <==> id in wildcard || StoredWith(query, id, c => c <= 0))
      ensures part.upward && !inclusive ==>
                (id in Result(Some(query)) <==> id in wildcard || StoredWith(query, id, c => c > 0))
      ensures part.upward && inclusive ==>
                (id in Result(Some(query)) <==> id in wildcard || StoredWith(query, id, c => c >= 0))
    {
      ResultMatches(Some(query), id);
    }

    method Postings(query: Option<V>) returns (postings: seq<set<nat>>)
      requires Valid()
      ensures Union(postings) == Result(query)
    {
      postings := if wildcard != {} then [wildcard] else [];
      assert Union(postings) == wildcard by { assert [wildcard][1..] == []; }
      if query.Some? {
        var visited := part.index.Walk(query.value, part.upward, inclusive);
        UnionConcat(postings, visited);
        postings := postings + visited;
      }
    }

    method AddMatches(query: Option<V>, dst: Bitmap)
      requires Valid()
      modifies dst
      ensures dst.ids == old(dst.ids) + Result(query)
    {
      hide Tracks, TracksEqual, Unmerged, HeldOnSide;
      dst.Or(wildcard);
      if query.Some? {
        var visited := part.index.Walk(query.value, part.upward, inclusive);
        dst.Or(Union(visited));
      }
    }

    /** An uncached search adds every match, and nothing else while the rule is exact. */
    method Search(query: Option<V>, dst: Bitmap)
      requires Valid()
      modifies dst
      ensures dst.ids == old(dst.ids) + Result(query)
      ensures forall id: nat :: Matching(query, id) ==> id in dst.ids
      ensures !part.quantized ==> forall id: nat :: id in dst.ids <==> id in old(dst.ids) || Matching(query, id)
    {
      hide OrderedPart.Valid, OrderedPart.Found, OrderedRule.Result, Qualifies;
      AddMatches(query, dst);
      forall id: nat {
        ResultMatches(query, id);
      }
    }

    method FilterCandidates(query: Option<V>, dst: Bitmap)
      requires Valid()
      modifies dst
      ensures dst.ids == old(dst.ids) * Result(query)
    {
      var postings := Postings(query);
      if |postings| == 0 {
        dst.Clear();
      } else {
        dst.AndAny(postings);
      }
    }

    method MatchesID(query: Option<V>, id: nat) returns (found: bool)
      requires Valid()
      ensures found <==> id in Result(query)
    {
      if id in wildcard {
        return true;
      }
      if query.None? {
        return false;
      }
      found := part.index.Matches(query.value, part.upward, inclusive, id);
    }

    /** No ID is stored twice among those that a query meets. */
    ghost predicate StoredOnce(query: Option<V>)
      reads this, part, part.index
    {
      Disjoint(part.index.Items()) && (query.Some? ==> wildcard !! part.Found(query.value, inclusive))
    }

    method EstimateCardinality(query: Option<V>) returns (n: nat)
      requires Valid()
      ensures n >= |Result(query)| && (n == 0 <==> Result(query) == {})
      ensures StoredOnce(query) ==> n == |Result(query)|
    {
      n := |wildcard|;
      if query.Some? {
        var m := part.index.EstimateCardinality(query.value, part.upward, inclusive);
        UnionCardinality(wildcard, part.Found(query.value, inclusive));
        n := n + m;
      }
    }
  }

  /** Stored intervals that cover the query interval: stored.from <= from and until <= stored.until. */
  class BetweenRule<V(!new)> {
    const from: OrderedRule<V>
    const until: OrderedRule<V>

    ghost predicate Valid()
      reads this, from, from.part, from.part.index, until, until.part, until.part.index
    {
      && from.Valid() && until.Valid()
      && from != until && from.part != until.part && from.part.index != until.part.index
      && from.inclusive && until.inclusive && !from.part.upward && until.part.upward
    }

    constructor (from: OrderedRule<V>, until: OrderedRule<V>)
      requires from.Valid() && until.Valid()
      requires from != until && from.part != until.part && from.part.index != until.part.index
      requires from.inclusive && until.inclusive && !from.part.upward && until.part.upward
      ensures Valid() && this.from == from && this.until == until
    {
      this.from, this.until := from, until;
    }

    method Insert(low: Option<V>, high: Option<V>, id: nat)
      requires Valid() && from.part.index.Building() && until.part.index.Building()
      modifies from`wildcard, from.part`stored, from.part.index, until`wildcard, until.part`stored, until.part.index
      ensures Valid() && from.part.index.Building() && until.part.index.Building()
      ensures from.wildcard == old(from.wildcard) + if low.None? then {id} else {}
      ensures from.part.stored == old(from.part.stored) + if low.Some? then iset{(low.value, id)} else iset{}
      ensures until.wildcard == old(until.wildcard) + if high.None? then {id} else {}
      ensures until.part.stored == old(until.part.stored) + if high.Some? then iset{(high.value, id)} else iset{}
    {
      from.Insert(low, id);
      until.Insert(high, id);
    }

    /**
     The best merge of the chosen side, better than every merge of the other side; the upper side is chosen if both are
     equally good.
     */
    ghost predicate BestSide(lower: bool, position: nat)
      reads this, from, from.part, from.part.index, until, until.part, until.part.index
    {
      var chosen, other := if lower then from.part else until.part, if lower then until.part else from.part;
      && chosen.Best(position)
      && forall j: nat :: j + 1 < |other.index.Items()| ==>
           Outranks(MergeAt(chosen, position), MergeAt(other, j), !lower)
    }

    /** One lossy step, on the side whose best merge is better. */
    method Downgrade() returns (stepped: bool, ghost lower: bool, ghost position: nat)
      requires Valid()
      modifies from.part`index, from.part`quantized, from.part.index`buildAccounting, from.part.index`accountingValid
      modifies until.part`index, until.part`quantized
      modifies until.part.index`buildAccounting, until.part.index`accountingValid
      ensures Valid() && from.part.stored == old(from.part.stored) && until.part.stored == old(until.part.stored)
      ensures stepped <==> old(|from.part.index.Items()| > 1 || |until.part.index.Items()| > 1)
      ensures stepped ==> old(BestSide(lower, position))
      ensures HeldBy(from.part)
              == if stepped && lower then AfterMerge(old(HeldBy(from.part)), position, false)
                 else old(HeldBy(from.part))
      ensures HeldBy(until.part)
              == if stepped && !lower then AfterMerge(old(HeldBy(until.part)), position, true)
                 else old(HeldBy(until.part))
    {
      hide OrderedPart.Valid;
      var low, high := SelectSide();
      stepped, lower, position := low.Some? || high.Some?, low.Some?, 0;
      if low.Some? {
        position := low.value;
        MergeFrom(low.value);
      } else if high.Some? {
        position := high.value;
        MergeUntil(high.value);
      }
    }

    /** At most one merge position: on the lower side if its best merge is better, otherwise on the upper side. */
    method SelectSide() returns (low: Option<nat>, high: Option<nat>)
      requires Valid()
      ensures low.Some? ==> BestSide(true, low.value)
      ensures high.Some? ==> BestSide(false, high.value)
      ensures low.None? || high.None?
      ensures low.Some? || high.Some? <==> |from.part.index.Items()| > 1 || |until.part.index.Items()| > 1
    {
      hide Tracks, TracksEqual, Unmerged;
      var lowBest := BestMerge(from.part.index);
      var highBest := BestMerge(until.part.index);
      from.part.BestIs(lowBest);
      until.part.BestIs(highBest);
      low, high := None, None;
      if BetterMerge(lowBest, highBest) {
        RankAll(until.part, lowBest, highBest, false);
        low := Some(lowBest.value.position);
      } else if highBest.Some? {
        RankAll(from.part, highBest, lowBest, true);
        high := Some(highBest.value.position);
      }
    }

    /** A merge that outranks the best one of a part outranks all of them. */
    lemma {:induction false} RankAll(other: OrderedPart<V>, best: Option<MergeCandidate>, rival: Option<MergeCandidate>,
                                     first: bool)
      requires forall j: nat :: j + 1 < |other.index.Items()| ==> !BetterMerge(Some(MergeAt(other, j)), rival)
      requires best.Some? && (if first then !BetterMerge(rival, best) else BetterMerge(best, rival))
      ensures forall j: nat :: j + 1 < |other.index.Items()| ==> Outranks(best.value, MergeAt(other, j), first)
    {
      forall j: nat | j + 1 < |other.index.Items()|
        ensures Outranks(best.value, MergeAt(other, j), first)
      {
        assert !BetterMerge(Some(MergeAt(other, j)), rival);
      }
    }

    method MergeFrom(position: nat)
      requires Valid() && position + 1 < |from.part.index.Items()|
      modifies from.part`index, from.part`quantized, from.part.index`buildAccounting, from.part.index`accountingValid
      ensures Valid() && from.part.stored == old(from.part.stored)
      ensures HeldBy(from.part) == AfterMerge(old(HeldBy(from.part)), position, false)
      ensures HeldBy(until.part) == old(HeldBy(until.part))
    {
      hide OrderedPart.Valid;
      from.part.Merge(position);
    }

    method MergeUntil(position: nat)
      requires Valid() && position + 1 < |until.part.index.Items()|
      modifies until.part`index, until.part`quantized
      modifies until.part.index`buildAccounting, until.part.index`accountingValid
      ensures Valid() && until.part.stored == old(until.part.stored)
      ensures HeldBy(until.part) == AfterMerge(old(HeldBy(until.part)), position, true)
      ensures HeldBy(from.part) == old(HeldBy(from.part))
    {
      hide OrderedPart.Valid;
      until.part.Merge(position);
    }

    ghost function Result(low: Option<V>, high: Option<V>): set<nat>
      reads this, from, from.part, from.part.index, until, until.part, until.part.index
    {
      from.Result(low) * until.Result(high)
    }

    /** Both bounds match: never lost, and exact until a side is merged. */
    lemma {:induction false} ResultMatches(low: Option<V>, high: Option<V>, id: nat)
      requires Valid()
      ensures from.Matching(low, id) && until.Matching(high, id) ==> id in Result(low, high)
      ensures !from.part.quantized && !until.part.quantized ==>
                (id in Result(low, high) <==> from.Matching(low, id) && until.Matching(high, id))
    {
      from.ResultMatches(low, id);
      until.ResultMatches(high, id);
    }

    /** The documented meaning: stored.from <= low and stored.until >= high, a missing bound being a wildcard. */
    lemma {:induction false} Covers(low: V, high: V, id: nat)
      requires Valid() && !from.part.quantized && !until.part.quantized
      ensures id in Result(Some(low), Some(high)) <==>
                && (id in from.wildcard || from.StoredWith(low, id, c => c <= 0))
                && (id in until.wildcard || until.StoredWith(high, id, c => c >= 0))
    {
      from.FourRelations(low, id);
      until.FourRelations(high, id);
    }

    /** The side estimated smaller is materialized; a few candidates are checked one by one. */
    method Search(low: Option<V>, high: Option<V>, dst: Bitmap)
      requires Valid()
      modifies dst
      ensures dst.ids == old(dst.ids) + Result(low, high)
      ensures forall id: nat :: from.Matching(low, id) && until.Matching(high, id) ==> id in dst.ids
      ensures !from.part.quantized && !until.part.quantized ==>
                forall id: nat :: id in dst.ids <==>
                  id in old(dst.ids) || (from.Matching(low, id) && until.Matching(high, id))
    {
      hide OrderedRule.Valid, OrderedRule.Result, OrderedRule.Matching;
      var found := SearchBitmaps(low, high);
      dst.Or(found);
      forall id: nat {
        ResultMatches(low, high, id);
      }
    }

    method SearchBitmaps(low: Option<V>, high: Option<V>) returns (found: set<nat>)
      requires Valid()
      ensures found == Result(low, high)
    {
      hide OrderedPart.Valid, OrderedPart.Found, OrderedRule.Result;
      var lowEstimate := from.EstimateCardinality(low);
      var highEstimate := until.EstimateCardinality(high);
      if highEstimate < lowEstimate {
        found := Narrow(until, high, from, low);
      } else {
        found := Narrow(from, low, until, high);
      }
    }

    method Narrow(base: OrderedRule<V>, baseQuery: Option<V>, other: OrderedRule<V>, otherQuery: Option<V>)
      returns (found: set<nat>)
      requires base.Valid() && other.Valid()
      ensures found == base.Result(baseQuery) * other.Result(otherQuery)
    {
      var postings := base.Postings(baseQuery);
      var candidates := Union(postings);
      if |candidates| <= CANDIDATE_SCAN_LIMIT {
        found := ScanCandidates(candidates, other, otherQuery);
      } else {
        postings := other.Postings(otherQuery);
        found := candidates * Union(postings);
      }
    }

    method ScanCandidates(candidates: set<nat>, other: OrderedRule<V>, query: Option<V>) returns (found: set<nat>)
      requires other.Valid()
      ensures found == candidates * other.Result(query)
    {
      hide OrderedRule.Valid, OrderedRule.Result;
      found := {};
      var rest := candidates;
      while rest != {}
        invariant rest <= candidates
        invariant found == (candidates - rest) * other.Result(query)
        decreases rest
      {
        var id :| id in rest;
        var accepted := other.MatchesID(query, id);
        if accepted {
          found := found + {id};
        }
        rest := rest - {id};
      }
    }

    /** Narrows candidates in place, first by the side estimated smaller. */
    method FilterCandidates(low: Option<V>, high: Option<V>, dst: Bitmap)
      requires Valid()
      modifies dst
      ensures dst.ids == old(dst.ids) * Result(low, high)
    {
      var first, second := SidePostings(low, high);
      dst.AndAny(first);
      if dst.ids != {} {
        dst.AndAny(second);
      }
    }

    method SidePostings(low: Option<V>, high: Option<V>) returns (first: seq<set<nat>>, second: seq<set<nat>>)
      requires Valid()
      ensures Union(first) * Union(second) == Result(low, high)
    {
      hide OrderedPart.Valid, OrderedPart.Found, OrderedRule.Result;
      var lowEstimate := from.EstimateCardinality(low);
      var highEstimate := until.EstimateCardinality(high);
      first := from.Postings(low);
      second := until.Postings(high);
      if highEstimate < lowEstimate {
        first, second := second, first;
      }
    }

    method MatchesID(low: Option<V>, high: Option<V>, id: nat) returns (found: bool)
      requires Valid()
      ensures found <==> id in Result(low, high)
    {
      found := from.MatchesID(low, id);
      if found {
        found := until.MatchesID(high, id);
      }
    }

    method EstimateCardinality(low: Option<V>, high: Option<V>) returns (n: nat)
      requires Valid()
      ensures n >= |Result(low, high)| && (n == 0 ==> Result(low, high) == {})
      ensures from.StoredOnce(low) && until.StoredOnce(high) ==>
                (n == |from.Result(low)| || n == |until.Result(high)|)
                && n <= |from.Result(low)| && n <= |until.Result(high)|
    {
      var lowEstimate := from.EstimateCardinality(low);
      var highEstimate := until.EstimateCardinality(high);
      n := if lowEstimate < highEstimate then lowEstimate else highEstimate;
      SubsetCardinality(Result(low, high), from.Result(low));
      SubsetCardinality(Result(low, high), until.Result(high));
    }
  }
}
