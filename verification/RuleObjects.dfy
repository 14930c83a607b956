/**
 The ordered rules as leaves of a rule tree. What a rule object answers by searching, filtering, checking one ID and
 estimating belongs to one result; the leaf carries this result, so an All over such leaves finds what all rules find.
 */
module RuleObjects {
  import opened Bitmaps
  import opened OrderedRules
  import opened CompareByRules
  import Plans

  /** A sound leaf with this result, which an All may search, filter by, check and estimate. */
  ghost predicate Presents(leaf: Plans.Rule, wildcard: set<nat>, found: set<nat>, total: nat) {
    leaf.Leaf? && leaf.wildcard == wildcard && leaf.result == found && Plans.Sound(leaf, total, map[])
  }

  function MeasuredLeaf(wildcard: set<nat>, found: set<nat>, bitmaps: seq<set<nat>>, estimate: nat): Plans.Rule {
    Plans.Leaf(None, wildcard, found, Plans.OtherForm(bitmaps, true, Some(estimate)))
  }

  lemma {:induction false} MeasuredPresents(wildcard: set<nat>, found: set<nat>, bitmaps: seq<set<nat>>, estimate: nat,
                                            total: nat)
    requires wildcard <= found && (forall id :: id in found ==> id < total) && |found| <= estimate
    ensures Presents(MeasuredLeaf(wildcard, found, bitmaps, estimate), wildcard, found, total)
  {
  }

  method OrderedLeaf<V(!new)>(rule: OrderedRule<V>, query: Option<V>, bitmaps: seq<set<nat>>, total: nat)
    returns (leaf: Plans.Rule)
    requires rule.Valid() && forall id :: id in rule.Result(query) ==> id < total
    ensures Presents(leaf, rule.wildcard, rule.Result(query), total)
  {
    hide OrderedPart.Valid, OrderedPart.Found, Presents;
    var estimate := rule.EstimateCardinality(query);
    var found := new Bitmap();
    rule.Search(query, found);
    leaf := MeasuredLeaf(rule.wildcard, found.ids, bitmaps, estimate);
    MeasuredPresents(rule.wildcard, found.ids, bitmaps, estimate, total);
  }

  /** The leaf accepts every ID with a missing or qualifying stored value, and only those while the rule is exact. */
  lemma {:induction false} OrderedLeafAccepts<V(!new)>(rule: OrderedRule<V>, query: Option<V>, leaf: Plans.Rule,
                                                       total: nat, id: nat)
    requires rule.Valid() && Presents(leaf, rule.wildcard, rule.Result(query), total)
    ensures rule.Matching(query, id) ==> Plans.Accepts(leaf, id)
    ensures !rule.part.quantized ==> (Plans.Accepts(leaf, id) <==> rule.Matching(query, id))
  {
    rule.ResultMatches(query, id);
  }

  /** An interval rule as a whole has no missing values. */
  method BetweenLeaf<V(!new)>(rule: BetweenRule<V>, low: Option<V>, high: Option<V>, bitmaps: seq<set<nat>>, total: nat)
    returns (leaf: Plans.Rule)
    requires rule.Valid() && forall id :: id in rule.Result(low, high) ==> id < total
    ensures Presents(leaf, {}, rule.Result(low, high), total)
  {
    hide OrderedPart.Valid, OrderedPart.Found, OrderedRule.Result, Presents;
    var estimate := rule.EstimateCardinality(low, high);
    var found := new Bitmap();
    rule.Search(low, high, found);
    leaf := MeasuredLeaf({}, found.ids, bitmaps, estimate);
    MeasuredPresents({}, found.ids, bitmaps, estimate, total);
  }

  lemma {:induction false} BetweenLeafAccepts<V(!new)>(rule: BetweenRule<V>, low: Option<V>, high: Option<V>,
                                                       leaf: Plans.Rule, total: nat, id: nat)
    requires rule.Valid() && Presents(leaf, {}, rule.Result(low, high), total)
    ensures rule.from.Matching(low, id) && rule.until.Matching(high, id) ==> Plans.Accepts(leaf, id)
    ensures !rule.from.part.quantized && !rule.until.part.quantized ==>
              (Plans.Accepts(leaf, id) <==> rule.from.Matching(low, id) && rule.until.Matching(high, id))
  {
    rule.ResultMatches(low, high, id);
  }

  method CompareByLeaf<V(!new)>(rule: CompareByRule<V>, query: Option<V>, bitmaps: seq<set<nat>>, total: nat)
    returns (leaf: Plans.Rule)
    requires rule.Valid() && forall id :: id in rule.Result(query) ==> id < total
    ensures Presents(leaf, rule.wildcard, rule.Result(query), total)
  {
    hide OrderedPart.Valid, OrderedPart.Found, CompareByRule.Operators, Presents;
    var estimate := rule.EstimateCardinality(query);
    var found := new Bitmap();
    rule.Search(query, found);
    leaf := MeasuredLeaf(rule.wildcard, found.ids, bitmaps, estimate);
    MeasuredPresents(rule.wildcard, found.ids, bitmaps, estimate, total);
  }

  /** The leaf accepts what any of the five operators accepts, and only that while all five are exact. */
  lemma {:induction false} CompareByLeafAccepts<V(!new)>(rule: CompareByRule<V>, query: Option<V>, leaf: Plans.Rule,
                                                         total: nat, id: nat)
    requires rule.Valid() && Presents(leaf, rule.wildcard, rule.Result(query), total)
    ensures rule.Accepting(query, id) ==> Plans.Accepts(leaf, id)
    ensures (forall i :: 0 <= i < 5 ==> !rule.parts[i].quantized) ==>
              (Plans.Accepts(leaf, id) <==> rule.Accepting(query, id))
  {
    rule.ResultMatches(query, id);
  }
}
