/**
 What the executor may ask of a rule without searching it: a direct check of one ID, and an estimate of how many IDs
 match. A rule tree may nest All rules and may still hold an exclusion that stores no value.
 */
module RuleTrees {
  import opened Bitmaps
  import opened Plans
  import AllExecution
  import AllSearch

  /** Every All has children; simplification leaves no other. */
  ghost predicate Inhabited(rule: Rule) {
    rule.All? ==> rule.children != [] && forall k :: 0 <= k < |rule.children| ==> Inhabited(rule.children[k])
  }

  /** What a search of the rule finds. */
  function FoundBy(rule: Rule, total: nat): set<nat> {
    set id: nat | id < total && Searched(rule, id)
  }

  // ----- direct ID checks -----

  /** Whether single IDs can be checked: a left-over exclusion has no check, and neither has an All above one. */
  predicate Direct(rule: Rule) {
    match rule
    case Exclude(_, _) => false
    case All(children) => forall k :: 0 <= k < |children| ==> Direct(children[k])
    case _ => true
  }

  /** The check of one ID; a child without one rejects every ID. */
  predicate MatchesID(rule: Rule, id: nat) {
    match rule
    case Leaf(_, _, result, _) => id in result
    case Exclude(_, _) => false
    case MatchAll(bits) => id in bits
    case All(children) => forall k :: 0 <= k < |children| ==> Direct(children[k]) && MatchesID(children[k], id)
  }

  /** Checking an ID agrees with searching, and a rule that cannot be checked finds nothing anyway. */
  lemma {:induction false} DirectAnswers(rule: Rule, id: nat)
    requires Inhabited(rule)
    ensures MatchesID(rule, id) <==> Searched(rule, id)
    ensures !Direct(rule) ==> !Searched(rule, id)
  {
    if rule.All? {
      forall k | 0 <= k < |rule.children|
        ensures MatchesID(rule.children[k], id) <==> Searched(rule.children[k], id)
        ensures !Direct(rule.children[k]) ==> !Searched(rule.children[k], id)
      {
        DirectAnswers(rule.children[k], id);
      }
    }
  }

  // ----- estimates -----

  function Posted(form: Form): set<nat>
    requires form.EqualityForm? && (form.posting.Some? ==> form.posting.value < |form.stored.bits|)
  {
    if form.posting.Some? then form.stored.bits[form.posting.value] else {}
  }

  function Smaller(a: Option<nat>, b: Option<nat>): Option<nat> {
    if a.None? then b else if b.None? || a.value < b.value then a else b
  }

  /** The estimate of a rule, if it has one: the smallest one of its children in the case of an All. */
  function Estimate(rule: Rule, cheap: bool): Option<nat>
    requires Postable(rule)
    decreases rule, 1
  {
    match rule
    case Leaf(_, wildcard, _, form) =>
      (match form
       case EqualityForm(_, _) => Some(|wildcard| + |Posted(form)|)
       case OtherForm(_, _, estimate) => if cheap then None else estimate)
    case Exclude(_, _) => None
    case MatchAll(bits) => Some(|bits|)
    case All(children) => EstimateUpTo(rule, |children|, cheap)
  }

  function EstimateUpTo(rule: Rule, n: nat, cheap: bool): Option<nat>
    requires Postable(rule) && rule.All? && n <= |rule.children|
    decreases rule, 0, n
  {
    if n == 0 then None else Smaller(EstimateUpTo(rule, n - 1, cheap), Estimate(rule.children[n - 1], cheap))
  }

  /** Equality leaves find postings that they have. */
  predicate Postable(rule: Rule) {
    match rule
    case Leaf(_, _, _, form) => form.EqualityForm? && form.posting.Some? ==> form.posting.value < |form.stored.bits|
    case All(children) => forall k :: 0 <= k < |children| ==> Postable(children[k])
    case _ => true
  }

  lemma {:induction false} ProperPostable(rule: Rule, total: nat)
    requires Proper(rule, total)
    ensures Postable(rule)
  {
    if rule.All? {
      forall k | 0 <= k < |rule.children|
        ensures Postable(rule.children[k])
      {
        ProperPostable(rule.children[k], total);
      }
    }
  }

  /** No estimate is below the number of IDs that a search finds, so an estimate of zero proves an empty result. */
  lemma {:induction false} EstimateBounds(rule: Rule, total: nat, cheap: bool)
    requires Proper(rule, total) && Inhabited(rule) && Postable(rule)
    ensures Estimate(rule, cheap).Some? ==> |FoundBy(rule, total)| <= Estimate(rule, cheap).value
    decreases rule, 1
  {
    match rule
    case Leaf(_, wildcard, result, form) =>
      SubsetCardinality(FoundBy(rule, total), result);
      if form.EqualityForm? {
        UnionCardinality(wildcard, Posted(form));
        assert result == wildcard + Posted(form);
      }
    case Exclude(_, _) =>
    case MatchAll(bits) => SubsetCardinality(FoundBy(rule, total), bits);
    case All(children) => EstimateUpToBounds(rule, |children|, total, cheap);
  }

  lemma {:induction false} EstimateUpToBounds(rule: Rule, n: nat, total: nat, cheap: bool)
    requires Proper(rule, total) && Inhabited(rule) && Postable(rule) && rule.All? && n <= |rule.children|
    ensures EstimateUpTo(rule, n, cheap).Some? ==> |FoundBy(rule, total)| <= EstimateUpTo(rule, n, cheap).value
    decreases rule, 0, n
  {
    if n > 0 {
      var child := rule.children[n - 1];
      EstimateUpToBounds(rule, n - 1, total, cheap);
      assert Proper(child, total) && Inhabited(child) && Postable(child);
      EstimateBounds(child, total, cheap);
      SubsetCardinality(FoundBy(rule, total), FoundBy(child, total));
    }
  }

  // ----- a rule as a child of an All -----

  /** How an All sees a child that is not an equality. */
  function PlainChild(rule: Rule, total: nat): AllExecution.Child
    requires Postable(rule)
  {
    var filter := rule.Leaf? && rule.form.OtherForm? && rule.form.filter;
    AllExecution.Child(FoundBy(rule, total), Direct(rule), filter, rule.MatchAll?,
                       Estimate(rule, true), Estimate(rule, false), None, 0, 0)
  }

  /** Every child of a root can be checked or is empty, and none is estimated too low, however deep the tree is. */
  lemma {:induction false} PlainChildren(rules: seq<Rule>, children: seq<AllExecution.Child>, total: nat)
    requires |children| == |rules|
    requires forall k :: 0 <= k < |rules| ==>
               Proper(rules[k], total) && Inhabited(rules[k]) && Postable(rules[k])
                 && children[k] == PlainChild(rules[k], total)
    ensures AllSearch.Checkable(children) && AllSearch.Estimated(children)
    ensures forall id: nat :: id < total ==>
              (AllSearch.Matches(children, id) <==> rules == [] || Searched(All(rules), id))
  {
    forall k | 0 <= k < |rules|
      ensures !children[k].direct ==> children[k].result == {}
      ensures AllSearch.EstimatesBound(children[k])
    {
      PlainChildSound(rules[k], total);
    }
  }

  lemma {:induction false} PlainChildSound(rule: Rule, total: nat)
    requires Proper(rule, total) && Inhabited(rule) && Postable(rule)
    ensures var child := PlainChild(rule, total);
            (!child.direct ==> child.result == {}) && AllSearch.EstimatesBound(child)
  {
    forall id: nat | id in FoundBy(rule, total)
      ensures Direct(rule)
    {
      DirectAnswers(rule, id);
    }
    EstimateBounds(rule, total, true);
    EstimateBounds(rule, total, false);
  }
}
