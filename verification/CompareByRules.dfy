/** CompareBy: the comparison operator is stored with each value, so five ordered indexes answer a query together. */
module CompareByRules {
  import opened Bitmaps
  import opened OrderedItems
  import opened OrderedBlocks
  import opened OrderedRounding
  import opened OrderedIndexes
  import opened OrderedRebuild
  import opened OrderedRules

  // Stored operator codes, written from the query's side.
  const EQ: nat := 0
  const LT: nat := 1
  const LTE: nat := 2
  const GT: nat := 3
  const GTE: nat := 4

  predicate RoundsUp(operator: nat) {
    operator != GT && operator != GTE
  }

  /** What a stored operator code asks: query == stored, then query <, <=, > and >= stored. */
  predicate Accepts<V>(compare: (V, V) -> int, operator: nat, stored: V, query: V) {
    var c := compare(stored, query);
    match operator
    case 0 => c == 0
    case 1 => c > 0
    case 2 => c >= 0
    case 3 => c < 0
    case 4 => c <= 0
    case _ => false
  }

  class CompareByRule<V(!new)> {
    const parts: seq<OrderedPart<V>>
    var wildcard: set<nat>
    var ceilingLookup: bool

    ghost predicate Valid()
      reads this, parts, set p | p in parts :: p.index
    {
      |parts| == 5 && PartsValid() && (ceilingLookup <==> parts[EQ].quantized)
    }

    ghost predicate PartsValid()
      reads parts, set p | p in parts :: p.index
    {
      && |parts| == 5
      && (forall i :: 0 <= i < 5 ==> parts[i].Valid() && parts[i].upward == RoundsUp(i))
      && (forall i, j :: 0 <= i < j < 5 ==> parts[i] != parts[j] && parts[i].index != parts[j].index)
    }

    ghost predicate Building()
      requires |parts| == 5
      reads this, parts, set p | p in parts :: p.index
    {
      forall i :: 0 <= i < 5 ==> parts[i].index.Building()
    }

    constructor (parts: seq<OrderedPart<V>>)
      requires |parts| == 5
      requires forall i :: 0 <= i < 5 ==> parts[i].Valid() && parts[i].upward == RoundsUp(i) && !parts[i].quantized
      requires forall i, j :: 0 <= i < j < 5 ==> parts[i] != parts[j] && parts[i].index != parts[j].index
      ensures Valid() && wildcard == {} && this.parts == parts
    {
      this.parts, wildcard, ceilingLookup := parts, {}, false;
    }

    /** A missing value is a wildcard and its operator is ignored; a present one needs a supported operator. */
    static predicate Acceptable(value: Option<V>, operator: Option<nat>) {
      value.None? || (operator.Some? && operator.value <= GTE)
    }

    method Insert(value: Option<V>, operator: Option<nat>, id: nat)
      requires Valid() && Building() && Acceptable(value, operator)
      modifies this`wildcard, parts, set p | p in parts :: p.index
      ensures Valid() && Building()
      ensures wildcard == old(wildcard) + if value.None? then {id} else {}
      ensures forall i :: 0 <= i < 5 ==>
                parts[i].stored
                == old(parts[i].stored) + if value.Some? && operator.value == i then iset{(value.value, id)} else iset{}
      ensures forall i :: 0 <= i < 5 ==> parts[i].index.compare == old(parts[i].index.compare)
    {
      hide OrderedPart.Valid;
      match value {
        case None => wildcard := wildcard + {id};
        case Some(v) => InsertUnder(operator.value, parts[operator.value], v, id);
      }
    }

    method InsertUnder(operator: nat, part: OrderedPart<V>, value: V, id: nat)
      requires Valid() && Building() && operator < 5 && part == parts[operator]
      modifies part`stored, part.index
      ensures Valid() && Building()
      ensures forall i :: 0 <= i < 5 ==>
                parts[i].stored == old(parts[i].stored) + if operator == i then iset{(value, id)} else iset{}
      ensures forall i :: 0 <= i < 5 ==> parts[i].index.compare == old(parts[i].index.compare)
    {
      hide OrderedPart.Valid;
      InsertPart(operator, part, value, id);
    }

    /** Stores under one operator; the other four are not touched. */
    method InsertPart(operator: nat, part: OrderedPart<V>, value: V, id: nat)
      requires Valid() && Building() && operator < 5 && part == parts[operator]
      modifies part`stored, part.index
      ensures part.Valid() && part.index.Building() && part.stored == old(part.stored) + iset{(value, id)}
      ensures part.index.compare == old(part.index.compare)
      ensures forall i :: 0 <= i < 5 && i != operator ==>
                && parts[i].Valid() && parts[i].index.Building() && parts[i].stored == old(parts[i].stored)
                && parts[i].index.compare == old(parts[i].index.compare)
    {
      hide OrderedPart.Valid;
      part.Insert(value, id);
      forall i | 0 <= i < 5 && i != operator
        ensures parts[i].Valid() && parts[i].index.Building() && parts[i].stored == old(parts[i].stored)
        ensures parts[i].index.compare == old(parts[i].index.compare)
      {
        assert parts[i] != parts[operator] && parts[i].index != parts[operator].index;
      }
    }

    /** Some operator still has neighbours to merge. */
    ghost predicate CanStep()
      requires |parts| == 5
      reads this, parts, set p | p in parts :: p.index
    {
      exists i :: 0 <= i < 5 && |parts[i].index.Items()| > 1
    }

    /** The best merge of one operator, which outranks every merge of the others; the first of equal ones. */
    ghost predicate Best(operator: nat, position: nat)
      requires |parts| == 5
      reads this, parts, set p | p in parts :: p.index
    {
      operator < 5 && parts[operator].Best(position)
        && forall i: nat, j: nat :: i < 5 && i != operator && j + 1 < |parts[i].index.Items()| ==>
             Outranks(MergeAt(parts[operator], position), MergeAt(parts[i], j), operator < i)
    }

    /** Every merge under the first `n` operators is strictly worse. */
    ghost predicate AllWorse(best: MergeCandidate, n: nat)
      requires n <= |parts|
      reads this, parts, set p | p in parts :: p.index
    {
      forall i: nat, j: nat :: i < n && j + 1 < |parts[i].index.Items()| ==> Outranks(best, MergeAt(parts[i], j), false)
    }

    /** No merge under the first `n` operators is better than the given one. */
    ghost predicate NoneBetter(best: Option<MergeCandidate>, n: nat)
      requires n <= |parts|
      reads this, parts, set p | p in parts :: p.index
    {
      forall i: nat, j: nat :: i < n && j + 1 < |parts[i].index.Items()| ==>
        !BetterMerge(Some(MergeAt(parts[i], j)), best)
    }

    /**
     One lossy step: merges the best pair of neighbours, under whichever operator it lies. The other operators keep
     what they hold, and equality switches to ceiling lookup once it is merged.
     */
    method Downgrade() returns (stepped: bool, ghost operator: nat, ghost position: nat)
      requires Valid()
      modifies this`ceilingLookup, parts, set p | p in parts :: p.index
      ensures Valid() && wildcard == old(wildcard)
      ensures forall i :: 0 <= i < 5 ==> parts[i].stored == old(parts[i].stored)
      ensures stepped <==> old(CanStep())
      ensures stepped ==> old(Best(operator, position))
      ensures stepped ==>
                HeldBy(parts[operator]) == AfterMerge(old(HeldBy(parts[operator])), position, RoundsUp(operator))
      ensures forall i :: 0 <= i < 5 && !(stepped && i == operator) ==> HeldBy(parts[i]) == old(HeldBy(parts[i]))
    {
      hide OrderedPart.Valid;
      var selected, at := SelectIndex();
      stepped, operator, position := selected.Some?, 0, at;
      if stepped {
        operator := selected.value;
        MergeUnder(selected.value, parts[selected.value], at);
      }
    }

    method MergeUnder(operator: nat, part: OrderedPart<V>, position: nat)
      requires Valid() && operator < 5 && part == parts[operator] && position + 1 < |part.index.Items()|
      modifies this`ceilingLookup, part`index, part`quantized, part.index`buildAccounting, part.index`accountingValid
      ensures Valid() && part.stored == old(part.stored)
      ensures HeldBy(part) == AfterMerge(old(HeldBy(part)), position, RoundsUp(operator))
      ensures forall i :: 0 <= i < 5 && i != operator ==>
                parts[i].stored == old(parts[i].stored) && HeldBy(parts[i]) == old(HeldBy(parts[i]))
    {
      hide OrderedPart.Valid;
      if operator == EQ {
        ceilingLookup := true;
      }
      MergePart(operator, part, position);
      Reassembled(operator);
    }

    /** Merges under one operator; the other four are not touched. */
    method MergePart(operator: nat, part: OrderedPart<V>, position: nat)
      requires PartsValid() && operator < 5 && part == parts[operator] && position + 1 < |part.index.Items()|
      modifies part`index, part`quantized, part.index`buildAccounting, part.index`accountingValid
      ensures part.Valid() && fresh(part.index) && part.stored == old(part.stored)
      ensures HeldBy(part) == AfterMerge(old(HeldBy(part)), position, RoundsUp(operator))
      ensures forall i :: 0 <= i < 5 && i != operator ==>
                && parts[i].Valid() && parts[i].index == old(parts[i].index)
                && parts[i].stored == old(parts[i].stored) && HeldBy(parts[i]) == old(HeldBy(parts[i]))
    {
      hide OrderedPart.Valid;
      ghost var merged := part.index;
      part.Merge(position);
      forall i | 0 <= i < 5 && i != operator
        ensures parts[i].Valid() && parts[i].index == old(parts[i].index)
        ensures parts[i].stored == old(parts[i].stored) && HeldBy(parts[i]) == old(HeldBy(parts[i]))
      {
        assert parts[i] != part && parts[i].index != merged;
      }
    }

    /** The parts are valid again once the changed one is, and its index is no other part's. */
    lemma {:induction false} Reassembled(operator: nat)
      requires |parts| == 5 && operator < 5
      requires forall i :: 0 <= i < 5 ==> parts[i].Valid() && parts[i].upward == RoundsUp(i)
      requires forall i, j :: 0 <= i < j < 5 ==> parts[i] != parts[j]
      requires forall i, j :: 0 <= i < j < 5 && i != operator && j != operator ==> parts[i].index != parts[j].index
      requires forall i :: 0 <= i < 5 && i != operator ==> parts[i].index != parts[operator].index
      ensures PartsValid()
    {
    }

    /** The operator with the best merge, and its position. */
    method SelectIndex() returns (selected: Option<nat>, position: nat)
      requires Valid()
      ensures selected.Some? <==> CanStep()
      ensures selected.Some? ==> Best(selected.value, position)
    {
      hide Tracks, TracksEqual, Unmerged, IsBestMerge, CompareByRule.Leading;
      selected, position := None, 0;
      var best: Option<MergeCandidate> := None;
      NoneLeading();
      var operator := 0;
      while operator < 5
        invariant 0 <= operator <= 5 && Leading(best, selected, operator)
        invariant best.Some? ==> position == best.value.position
      {
        var candidate := BestMerge(parts[operator].index);
        NextLeading(operator, candidate, best, selected);
        if BetterMerge(candidate, best) {
          best, selected, position := candidate, Some(operator), candidate.value.position;
        }
        operator := operator + 1;
      }
      LeadingIsBest(best, selected);
    }

    /** The best merge under the first `n` operators, if there is one. */
    ghost predicate Leading(best: Option<MergeCandidate>, selected: Option<nat>, n: nat)
      requires n <= |parts|
      reads this, parts, set p | p in parts :: p.index
    {
      && NoneBetter(best, n) && (best.Some? <==> selected.Some?)
      && (selected.None? ==> forall i :: 0 <= i < n ==> |parts[i].index.Items()| <= 1)
      && (selected.Some? ==>
            && selected.value < n && parts[selected.value].Best(best.value.position)
            && best.value == MergeAt(parts[selected.value], best.value.position)
            && AllWorse(best.value, selected.value))
    }

    lemma {:induction false} NoneLeading()
      ensures Leading(None, None, 0)
    {
    }

    lemma {:induction false} NextLeading(operator: nat, candidate: Option<MergeCandidate>,
                                         best: Option<MergeCandidate>, selected: Option<nat>)
      requires operator < |parts| && Leading(best, selected, operator)
      requires IsBestMerge(parts[operator].index.Items(), parts[operator].index.size,
                           |parts[operator].index.Items()|, candidate)
      ensures if BetterMerge(candidate, best) then Leading(candidate, Some(operator), operator + 1)
              else Leading(best, selected, operator + 1)
    {
      hide IsBestMerge;
      parts[operator].BestIs(candidate);
      NoneBetterNext(operator, candidate, best);
    }

    lemma {:induction false} LeadingIsBest(best: Option<MergeCandidate>, selected: Option<nat>)
      requires |parts| == 5 && Leading(best, selected, 5)
      ensures (best.Some? <==> selected.Some?) && (selected.Some? <==> CanStep())
      ensures selected.Some? ==> Best(selected.value, best.value.position)
    {
      if selected.Some? {
        forall i: nat, j: nat | i < 5 && i != selected.value && j + 1 < |parts[i].index.Items()|
          ensures Outranks(best.value, MergeAt(parts[i], j), selected.value < i)
        {
          assert !BetterMerge(Some(MergeAt(parts[i], j)), best);
        }
      }
    }

    lemma {:induction false} NoneBetterNext(operator: nat, candidate: Option<MergeCandidate>,
                                            best: Option<MergeCandidate>)
      requires operator < |parts| && NoneBetter(best, operator)
      requires forall j: nat :: j + 1 < |parts[operator].index.Items()| ==>
                 !BetterMerge(Some(MergeAt(parts[operator], j)), candidate)
      ensures NoneBetter(if BetterMerge(candidate, best) then candidate else best, operator + 1)
      ensures BetterMerge(candidate, best) ==> AllWorse(candidate.value, operator)
    {
      forall i: nat, j: nat | BetterMerge(candidate, best) && i < operator && j + 1 < |parts[i].index.Items()|
        ensures Outranks(candidate.value, MergeAt(parts[i], j), false)
      {
        assert !BetterMerge(Some(MergeAt(parts[i], j)), best);
      }
      var next := if BetterMerge(candidate, best) then candidate else best;
      forall i: nat, j: nat | i < operator + 1 && j + 1 < |parts[i].index.Items()|
        ensures !BetterMerge(Some(MergeAt(parts[i], j)), next)
      {
        if i < operator {
          assert !BetterMerge(Some(MergeAt(parts[i], j)), best);
        } else {
          assert !BetterMerge(Some(MergeAt(parts[operator], j)), candidate);
        }
      }
    }

    // ----- searching -----

    ghost function EqualPosting(query: V): set<nat>
      requires |parts| == 5
      reads this, parts, set p | p in parts :: p.index
    {
      var index := parts[EQ].index;
      var posting := if ceilingLookup then AtOrAbove(index.compare, index.Items(), query)
                       else EqualTo(index.compare, index.Items(), query);
      if posting.Some? then posting.value else {}
    }

    ghost function OperatorResult(operator: nat, query: V): set<nat>
      requires |parts| == 5 && operator < 5
      reads this, parts, set p | p in parts :: p.index
    {
      if operator == EQ then EqualPosting(query)
      else parts[operator].Found(query, operator == LTE || operator == GTE)
    }

    ghost function Result(query: Option<V>): set<nat>
      requires |parts| == 5
      reads this, parts, set p | p in parts :: p.index
    {
      wildcard + if query.None? then {} else Operators(query.value, 5)
    }

    /** The results of the first `n` operators together. */
    ghost function Operators(query: V, n: nat): set<nat>
      requires |parts| == 5 && n <= 5
      reads this, parts, set p | p in parts :: p.index
    {
      if n == 0 then {} else Operators(query, n - 1) + OperatorResult(n - 1, query)
    }

    ghost predicate OperatorMatching(operator: nat, query: V, id: nat)
      requires |parts| == 5 && operator < 5
      reads this, parts, set p | p in parts :: p.index
    {
      exists p :: p in parts[operator].stored && p.1 == id
        && Accepts(parts[operator].index.compare, operator, p.0, query)
    }

    /** Each stored pair is evaluated by its own operator; no match is lost, and nothing is added before a merge. */
    lemma {:induction false} OperatorMatches(operator: nat, query: V, id: nat)
      requires Valid() && operator < 5
      ensures OperatorMatching(operator, query, id) ==> id in OperatorResult(operator, query)
      ensures !parts[operator].quantized ==>
                (id in OperatorResult(operator, query) <==> OperatorMatching(operator, query, id))
    {
      var part := parts[operator];
      var compare, items := part.index.compare, part.index.Items();
      if operator == EQ {
        if p :| p in part.stored && p.1 == id && compare(p.0, query) == 0 {
          if ceilingLookup {
            CeilingKeepsMatches(compare, items, part.stored, query, p);
          }
        }
        if !ceilingLookup {
          EqualToTracks(compare, items, part.stored, query, id);
        }
      } else {
        part.FoundMatches(query, operator == LTE || operator == GTE, id);
      }
    }

    /** Some operator's stored pairs match. */
    ghost predicate Matching(query: V, n: nat, id: nat)
      requires |parts| == 5 && n <= 5
      reads this, parts, set p | p in parts :: p.index
    {
      exists operator: nat :: operator < n && OperatorMatching(operator, query, id)
    }

    lemma {:induction false} MatchingStep(query: V, n: nat, id: nat)
      requires |parts| == 5 && n < 5
      ensures Matching(query, n + 1, id) <==> Matching(query, n, id) || OperatorMatching(n, query, id)
    {
    }

    lemma {:induction false} OperatorsMatch(query: V, n: nat, id: nat)
      requires Valid() && n <= 5
      ensures Matching(query, n, id) ==> id in Operators(query, n)
      ensures (forall i :: 0 <= i < n ==> !parts[i].quantized) ==>
                (id in Operators(query, n) <==> Matching(query, n, id))
    {
      if n > 0 {
        OperatorsMatch(query, n - 1, id);
        OperatorMatches(n - 1, query, id);
        MatchingStep(query, n - 1, id);
      }
    }

    /** The whole rule: stored wildcards, and stored pairs whose own operator accepts a present query. */
    ghost predicate Accepting(query: Option<V>, id: nat)
      requires |parts| == 5
      reads this, parts, set p | p in parts :: p.index
    {
      id in wildcard || (query.Some? && Matching(query.value, 5, id))
    }

    lemma {:induction false} ResultMatches(query: Option<V>, id: nat)
      requires Valid()
      ensures Accepting(query, id) ==> id in Result(query)
      ensures (forall i :: 0 <= i < 5 ==> !parts[i].quantized) ==> (id in Result(query) <==> Accepting(query, id))
    {
      if query.Some? {
        OperatorsMatch(query.value, 5, id);
      }
    }

    /** While nothing is merged, the stored operator codes 0 to 4 ask query ==, <, <=, > and >= stored. */
    lemma {:induction false} FiveOperators(query: V, id: nat)
      requires Valid() && forall i :: 0 <= i < 5 ==> !parts[i].quantized
      ensures id in Result(Some(query)) <==>
                || id in wildcard
                || (exists p :: p in parts[0].stored && p.1 == id && parts[0].index.compare(p.0, query) == 0)
                || (exists p :: p in parts[1].stored && p.1 == id && parts[1].index.compare(p.0, query) > 0)
                || (exists p :: p in parts[2].stored && p.1 == id && parts[2].index.compare(p.0, query) >= 0)
                || (exists p :: p in parts[3].stored && p.1 == id && parts[3].index.compare(p.0, query) < 0)
                || (exists p :: p in parts[4].stored && p.1 == id && parts[4].index.compare(p.0, query) <= 0)
    {
      hide CompareByRule.PartsValid, CompareByRule.Result, CompareByRule.Matching;
      ResultMatches(Some(query), id);
      MatchingParts(query, id);
    }

    lemma {:induction false} MatchingParts(query: V, id: nat)
      requires |parts| == 5
      ensures Matching(query, 5, id) <==>
                || OperatorMatching(0, query, id) || OperatorMatching(1, query, id) || OperatorMatching(2, query, id)
                || OperatorMatching(3, query, id) || OperatorMatching(4, query, id)
    {
      hide CompareByRule.OperatorMatching;
    }

    method Each(query: Option<V>) returns (visited: seq<set<nat>>)
      requires Valid()
      ensures Union(visited) == Result(query)
    {
      visited := [wildcard];
      assert [wildcard][1..] == [];
      if query.Some? {
        var rest := EachOperator(query.value);
        UnionConcat(visited, rest);
        visited := visited + rest;
      }
    }

    method EachOperator(query: V) returns (visited: seq<set<nat>>)
      requires Valid()
      ensures Union(visited) == Operators(query, 5)
    {
      hide OrderedPart.Valid;
      visited := VisitEquality(query);
      var operator := LT;
      while operator < 5
        invariant LT <= operator <= 5 && Union(visited) == Operators(query, operator)
      {
        visited := VisitOperator(operator, query, visited);
        operator := operator + 1;
      }
    }

    method VisitEquality(query: V) returns (visited: seq<set<nat>>)
      requires Valid()
      ensures Union(visited) == Operators(query, 1)
    {
      var equal := EqualityBits(query);
      assert Operators(query, 1) == OperatorResult(EQ, query);
      UnionAppend([], equal);
      visited := [] + [equal];
    }

    method VisitOperator(operator: nat, query: V, visited: seq<set<nat>>) returns (more: seq<set<nat>>)
      requires Valid() && 0 < operator < 5 && Union(visited) == Operators(query, operator)
      ensures Union(more) == Operators(query, operator + 1)
    {
      hide Tracks, TracksEqual, Unmerged;
      var index := parts[operator].index;
      var walked := index.Walk(query, RoundsUp(operator), operator == LTE || operator == GTE);
      UnionConcat(visited, walked);
      more := visited + walked;
    }

    method EqualityBits(query: V) returns (bits: set<nat>)
      requires Valid()
      ensures bits == OperatorResult(EQ, query)
    {
      var posting;
      if ceilingLookup {
        posting := parts[EQ].index.Ceiling(query);
      } else {
        posting := parts[EQ].index.Exact(query);
      }
      bits := if posting.Some? then posting.value else {};
    }

    method Search(query: Option<V>, dst: Bitmap)
      requires Valid()
      modifies dst
      ensures dst.ids == old(dst.ids) + Result(query)
      ensures forall id: nat :: Accepting(query, id) ==> id in dst.ids
      ensures (forall i :: 0 <= i < 5 ==> !parts[i].quantized) ==>
                forall id: nat :: id in dst.ids <==> id in old(dst.ids) || Accepting(query, id)
    {
      hide CompareByRule.PartsValid, CompareByRule.Result, CompareByRule.Accepting;
      var visited := Each(query);
      dst.Or(Union(visited));
      forall id: nat {
        ResultMatches(query, id);
      }
    }

    method FilterCandidates(query: Option<V>, dst: Bitmap)
      requires Valid()
      modifies dst
      ensures dst.ids == old(dst.ids) * Result(query)
    {
      var postings := Each(query);
      dst.AndAny(postings);
    }

    method MatchesID(query: Option<V>, id: nat) returns (found: bool)
      requires Valid()
      ensures found <==> id in Result(query)
    {
      var visited := Each(query);
      found := InAny(visited, id);
    }

    /** No ID is stored twice among those that a query meets under the first `n` operators. */
    ghost predicate StoredOnce(query: V, n: nat)
      requires |parts| == 5 && n <= 5
      reads this, parts, set p | p in parts :: p.index
    {
      n > 0 ==>
        && StoredOnce(query, n - 1) && Operators(query, n - 1) !! OperatorResult(n - 1, query)
        && (n - 1 == EQ || Disjoint(parts[n - 1].index.Items()))
    }

    /** An upper bound, zero exactly for an empty result: one operator's estimate is added after the other. */
    method EstimateCardinality(query: Option<V>) returns (n: nat)
      requires Valid()
      ensures n >= |Result(query)| && (n == 0 <==> Result(query) == {})
      ensures query.Some? && StoredOnce(query.value, 5) && wildcard !! Operators(query.value, 5) ==>
                n == |Result(query)|
    {
      n := |wildcard|;
      if query.Some? {
        var m := EstimateOperators(query.value);
        UnionCardinality(wildcard, Operators(query.value, 5));
        n := n + m;
      }
    }

    method EstimateOperators(query: V) returns (n: nat)
      requires Valid()
      ensures n >= |Operators(query, 5)| && (n == 0 <==> Operators(query, 5) == {})
      ensures StoredOnce(query, 5) ==> n == |Operators(query, 5)|
    {
      hide CompareByRule.PartsValid, CompareByRule.Operators, CompareByRule.StoredOnce, CompareByRule.OperatorResult;
      var equal := EqualityBits(query);
      n := |equal|;
      EqualityFirst(query);
      var operator := LT;
      while operator < 5
        invariant LT <= operator <= 5
        invariant n >= |Operators(query, operator)| && (n == 0 <==> Operators(query, operator) == {})
        invariant StoredOnce(query, operator) ==> n == |Operators(query, operator)|
      {
        var m := EstimateOperator(operator, query);
        OperatorCounted(operator, query, n, m);
        n := n + m;
        operator := operator + 1;
      }
    }

    lemma {:induction false} EqualityFirst(query: V)
      requires |parts| == 5
      ensures Operators(query, 1) == OperatorResult(EQ, query)
    {
    }

    lemma {:induction false} OperatorCounted(operator: nat, query: V, n: nat, m: nat)
      requires |parts| == 5 && 0 < operator < 5
      requires var found := Operators(query, operator);
               n >= |found| && (n == 0 <==> found == {}) && (StoredOnce(query, operator) ==> n == |found|)
      requires var found := OperatorResult(operator, query);
               && m >= |found| && (m == 0 <==> found == {})
               && (Disjoint(parts[operator].index.Items()) ==> m == |found|)
      ensures var found := Operators(query, operator + 1);
              && n + m >= |found| && (n + m == 0 <==> found == {})
              && (StoredOnce(query, operator + 1) ==> n + m == |found|)
    {
      UnionCardinality(Operators(query, operator), OperatorResult(operator, query));
    }

    method EstimateOperator(operator: nat, query: V) returns (n: nat)
      requires Valid() && 0 < operator < 5
      ensures n >= |OperatorResult(operator, query)| && (n == 0 <==> OperatorResult(operator, query) == {})
      ensures Disjoint(parts[operator].index.Items()) ==> n == |OperatorResult(operator, query)|
    {
      hide Tracks, TracksEqual, Unmerged;
      n := parts[operator].index.EstimateCardinality(query, RoundsUp(operator), operator == LTE || operator == GTE);
    }
  }
}
