/**
 Building an index from its schema: dense IDs, the simplification of nested All rules, and the separation of exclusions
 from the positive rule tree. A rule is seen at one query, so a leaf carries its result there.
 */
module Plans {
  import opened Bitmaps
  import EqualityLeaves

  const MAX_RULES: nat := 0x1_0000_0000

  // ----- dense IDs -----

  /** The distinct values in the order of their first occurrence. */
  function FirstOccurrences<ID(==)>(entries: seq<ID>): (values: seq<ID>) {
    if entries == [] then []
    else
      var before := FirstOccurrences(entries[..|entries| - 1]);
      var last := entries[|entries| - 1];
      if last in before then before else before + [last]
  }

  lemma {:induction false} FirstOccurrencesDistinct<ID>(entries: seq<ID>)
    ensures forall i, j :: 0 <= i < j < |FirstOccurrences(entries)| ==>
              FirstOccurrences(entries)[i] != FirstOccurrences(entries)[j]
    ensures forall id :: id in FirstOccurrences(entries) <==> id in entries
  {
    if entries != [] {
      var n := |entries| - 1;
      FirstOccurrencesDistinct(entries[..n]);
      assert entries == entries[..n] + [entries[n]];
    }
  }

  /** Each entry gets the dense ID of its external ID; an entry after 2^32 known IDs is refused. */
  method AssignDenseIDs<ID(==)>(entries: seq<ID>) returns (values: seq<ID>, internal: Option<seq<nat>>)
    ensures internal.Some? ==> values == FirstOccurrences(entries) && |internal.value| == |entries|
    ensures internal.Some? ==>
              forall k :: 0 <= k < |entries| ==> internal.value[k] < |values| && values[internal.value[k]] == entries[k]
    ensures internal.None? <==> exists k :: 0 <= k < |entries| && |FirstOccurrences(entries[..k])| >= MAX_RULES
  {
    values := [];
    var ids: seq<nat> := [];
    var known: map<ID, nat> := map[];
    var k := 0;
    while k < |entries|
      invariant 0 <= k <= |entries| && |ids| == k && values == FirstOccurrences(entries[..k])
      invariant forall id :: id in known <==> id in values
      invariant forall id :: id in known ==> known[id] < |values| && values[known[id]] == id
      invariant forall j :: 0 <= j < k ==> ids[j] < |values| && values[ids[j]] == entries[j]
      invariant forall j :: 0 <= j < k ==> |FirstOccurrences(entries[..j])| < MAX_RULES
    {
      if |values| >= MAX_RULES {
        return values, None;
      }
      assert entries[..k + 1][..k] == entries[..k];
      if entries[k] !in known {
        known := known[entries[k] := |values|];
        values := values + [entries[k]];
      }
      ids := ids + [known[entries[k]]];
      k := k + 1;
    }
    assert entries[..k] == entries;
    internal := Some(ids);
  }

  // ----- rules -----

  /**
   What else is known of a leaf at one query: an equality has its postings and the one that the query finds, if any;
   every other leaf has the bitmaps it stores, perhaps a filter, and perhaps an estimate.
   */
  datatype Form =
    | EqualityForm(stored: EqualityLeaves.Stored, posting: Option<nat>)
    | OtherForm(bitmaps: seq<set<nat>>, filter: bool, estimate: Option<nat>)

  /**
   A leaf may carry a descriptor that identifies its schema rule. An exclusion knows which IDs the query's value
   forbids, and whether it stores any value at all.
   */
  datatype Rule =
    | Leaf(descriptor: Option<nat>, wildcard: set<nat>, result: set<nat>, form: Form)
    | Exclude(stores: bool, forbidden: set<nat>)
    | MatchAll(bits: set<nat>)
    | All(children: seq<Rule>)

  function Universe(total: nat): (ids: set<nat>)
    ensures |ids| == total && forall id: nat :: id in ids <==> id < total
  {
    if total == 0 then {} else Universe(total - 1) + {total - 1}
  }

  /** What is asked about a rule; a rule answers yes when all of its parts do. */
  datatype Question = Includes(id: nat) | Spares(id: nat) | Finds(id: nat) | HasNoExclusion | HasNoStoringExclusion

  /**
   The answer of a leaf or an exclusion. An exclusion includes every ID and spares those it does not forbid; a search
   that still meets it finds nothing.
   */
  predicate Part(question: Question, part: Rule) {
    match question
    case Includes(id) => part.Leaf? ==> id in part.result
    case Spares(id) => part.Exclude? ==> id !in part.forbidden
    case Finds(id) => part.Leaf? && id in part.result
    case HasNoExclusion => !part.Exclude?
    case HasNoStoringExclusion => part.Exclude? ==> !part.stores
  }

  ghost predicate Answers(question: Question, rule: Rule) {
    match rule
    case All(children) => forall k :: 0 <= k < |children| ==> Answers(question, children[k])
    case MatchAll(_) => true
    case _ => Part(question, rule)
  }

  /** The documented meaning: every include matches and no exclusion forbids. */
  ghost predicate Accepts(rule: Rule, id: nat) {
    Answers(Includes(id), rule) && Answers(Spares(id), rule)
  }

  /** What a search of the tree finds; an All without children finds nothing. */
  predicate Searched(rule: Rule, id: nat) {
    match rule
    case Leaf(_, _, result, _) => id in result
    case Exclude(_, _) => false
    case MatchAll(bits) => id in bits
    case All(children) => children != [] && forall k :: 0 <= k < |children| ==> Searched(children[k], id)
  }

  /** An equality finds its wildcard and at most one posting, and knows every ID; an estimate is an upper bound. */
  ghost predicate Fits(wildcard: set<nat>, result: set<nat>, form: Form, total: nat) {
    match form
    case EqualityForm(stored, posting) =>
      && stored.wildcard == wildcard && |stored.bits| == |stored.compact|
      && (forall k :: 0 <= k < |stored.bits| ==> stored.bits[k] != {})
      && (posting.Some? ==> posting.value < |stored.bits|)
      && result == wildcard + (if posting.Some? then stored.bits[posting.value] else {})
      && wildcard + Union(stored.bits) == Universe(total)
    case OtherForm(_, _, estimate) => estimate.Some? ==> |result| <= estimate.value
  }

  /** All IDs are dense, an exclusion without values forbids nothing, and a match-all rule holds every ID. */
  ghost predicate Proper(rule: Rule, total: nat) {
    match rule
    case Leaf(_, wildcard, result, form) => wildcard <= result <= Universe(total) && Fits(wildcard, result, form, total)
    case Exclude(stores, forbidden) => !stores ==> forbidden == {}
    case MatchAll(bits) => bits == Universe(total)
    case All(children) => forall k :: 0 <= k < |children| ==> Proper(children[k], total)
  }

  /** Leaves with one descriptor are one rule. */
  ghost predicate Canonical(rule: Rule, known: map<nat, set<nat>>) {
    match rule
    case Leaf(descriptor, _, result, _) =>
      descriptor.Some? ==> descriptor.value in known && known[descriptor.value] == result
    case Exclude(_, _) => true
    case MatchAll(_) => true
    case All(children) => forall k :: 0 <= k < |children| ==> Canonical(children[k], known)
  }

  ghost predicate Sound(rule: Rule, total: nat, known: map<nat, set<nat>>) {
    Proper(rule, total) && Canonical(rule, known)
  }

  /** A simplified rule: one part, everything, or at least two parts side by side. */
  ghost predicate Flat(rule: Rule) {
    rule.All? ==>
      |rule.children| >= 2
      && forall k :: 0 <= k < |rule.children| ==> !rule.children[k].All? && !rule.children[k].MatchAll?
  }

  // ----- simplification -----

  /** The children kept so far, the descriptors seen, and a match-all child that was dropped. */
  datatype Kept = Kept(children: seq<Rule>, seen: set<nat>, universal: Option<set<nat>>)

  function AppendChild(kept: Kept, child: Rule): Kept {
    if child.Leaf? && child.descriptor.Some? then
      if child.descriptor.value in kept.seen then kept
      else kept.(children := kept.children + [child], seen := kept.seen + {child.descriptor.value})
    else kept.(children := kept.children + [child])
  }

  function AppendAll(kept: Kept, nested: seq<Rule>): Kept {
    if nested == [] then kept else AppendChild(AppendAll(kept, nested[..|nested| - 1]), nested[|nested| - 1])
  }

  /** A match-all child is dropped, a nested All is flattened, and anything else is kept unless it is a repetition. */
  function AppendOptimized(kept: Kept, child: Rule): Kept {
    match child
    case MatchAll(bits) => kept.(universal := Some(bits))
    case All(nested) => AppendAll(kept, nested)
    case _ => AppendChild(kept, child)
  }

  function Optimize(rule: Rule, total: nat): Rule
    decreases rule, 1
  {
    match rule
    case Leaf(_, wildcard, _, _) => if |wildcard| == total then MatchAll(wildcard) else rule
    case Exclude(_, _) => rule
    case MatchAll(_) => rule
    case All(children) =>
      if children == [] then MatchAll(Universe(total))
      else Finish(OptimizeEach(rule, children, total))
  }

  /** Everything, a single rule, or what is left side by side. */
  function Finish(kept: Kept): Rule {
    if kept.children == [] then
      MatchAll(if kept.universal.Some? then kept.universal.value else {})
    else if |kept.children| == 1 then kept.children[0]
    else All(kept.children)
  }

  function OptimizeEach(rule: Rule, children: seq<Rule>, total: nat): Kept
    requires rule.All? && |children| <= |rule.children| && children == rule.children[..|children|]
    decreases rule, 0, |children|
  {
    if children == [] then Kept([], {}, None)
    else
      var n := |children| - 1;
      AppendOptimized(OptimizeEach(rule, children[..n], total), Optimize(rule.children[n], total))
  }

  /** A question about dense IDs. */
  ghost predicate Asks(question: Question, total: nat) {
    match question
    case Includes(id) => id < total
    case Spares(id) => id < total
    case Finds(id) => id < total
    case _ => true
  }

  /** The kept children answer as the first `n` children do, are simple, and are empty only after a match-all child. */
  ghost predicate Represents(kept: Kept, children: seq<Rule>, question: Question, total: nat,
                             known: map<nat, set<nat>>) {
    && (forall k :: 0 <= k < |kept.children| ==>
          !kept.children[k].All? && !kept.children[k].MatchAll? && Sound(kept.children[k], total, known))
    && (forall d :: d in kept.seen ==> HasDescriptor(kept.children, d))
    && (Answers(question, All(kept.children)) <==> Answers(question, All(children)))
    && (kept.universal.Some? ==> kept.universal.value == Universe(total))
    && (kept.children == [] && children != [] ==> kept.universal.Some?)
  }

  ghost predicate HasDescriptor(children: seq<Rule>, descriptor: nat) {
    exists k :: 0 <= k < |children| && children[k].Leaf? && children[k].descriptor == Some(descriptor)
  }

  lemma {:induction false} AllExtended(question: Question, children: seq<Rule>, last: Rule)
    ensures Answers(question, All(children + [last])) <==> Answers(question, All(children)) && Answers(question, last)
  {
    var all := All(children + [last]);
    if Answers(question, all) {
      assert Answers(question, all.children[|children|]);
      forall k | 0 <= k < |children|
        ensures Answers(question, children[k])
      {
        assert Answers(question, all.children[k]);
      }
    }
  }

  lemma {:induction false} DescriptorsExtended(children: seq<Rule>, last: Rule, descriptor: nat)
    requires HasDescriptor(children, descriptor) || (last.Leaf? && last.descriptor == Some(descriptor))
    ensures HasDescriptor(children + [last], descriptor)
  {
    if HasDescriptor(children, descriptor) {
      var k :| 0 <= k < |children| && children[k].Leaf? && children[k].descriptor == Some(descriptor);
      assert (children + [last])[k] == children[k];
    } else {
      assert (children + [last])[|children|] == last;
    }
  }

  lemma {:induction false} AppendKeeps(kept: Kept, children: seq<Rule>, child: Rule, question: Question, total: nat,
                                       known: map<nat, set<nat>>)
    requires Represents(kept, children, question, total, known) && Sound(child, total, known) && !child.All?
             && !child.MatchAll?
    ensures Represents(AppendChild(kept, child), children + [child], question, total, known)
            && AppendChild(kept, child).children != []
  {
    AllExtended(question, children, child);
    AllExtended(question, kept.children, child);
    var now := AppendChild(kept, child);
    if now == kept {
      var k :| 0 <= k < |kept.children| && kept.children[k].Leaf? && kept.children[k].descriptor == child.descriptor;
      assert Sound(kept.children[k], total, known);
      assert Part(question, kept.children[k]) == Part(question, child);
    } else {
      forall d | d in now.seen
        ensures HasDescriptor(now.children, d)
      {
        DescriptorsExtended(kept.children, child, d);
      }
    }
  }

  lemma {:induction false} AppendAllKeeps(kept: Kept, children: seq<Rule>, nested: seq<Rule>, question: Question,
                                          total: nat, known: map<nat, set<nat>>)
    requires Represents(kept, children, question, total, known)
    requires forall k :: 0 <= k < |nested| ==> Sound(nested[k], total, known) && !nested[k].All? && !nested[k].MatchAll?
    ensures Represents(AppendAll(kept, nested), children + nested, question, total, known)
    ensures nested != [] ==> AppendAll(kept, nested).children != []
  {
    if nested == [] {
      assert children + nested == children;
    } else {
      var n := |nested| - 1;
      AppendAllKeeps(kept, children, nested[..n], question, total, known);
      AppendKeeps(AppendAll(kept, nested[..n]), children + nested[..n], nested[n], question, total, known);
      assert children + nested == children + nested[..n] + [nested[n]];
    }
  }

  lemma {:induction false} AnswersJoined(question: Question, children: seq<Rule>, nested: seq<Rule>)
    ensures Answers(question, All(children + nested)) <==>
              Answers(question, All(children)) && Answers(question, All(nested))
  {
    if nested == [] {
      assert children + nested == children;
    } else {
      var n := |nested| - 1;
      AnswersJoined(question, children, nested[..n]);
      AllExtended(question, children + nested[..n], nested[n]);
      AllExtended(question, nested[..n], nested[n]);
      assert children + nested == children + nested[..n] + [nested[n]];
      assert nested == nested[..n] + [nested[n]];
    }
  }

  /** Adding a simplified child, in whichever way, keeps the representation. */
  lemma {:induction false} AppendOptimizedKeeps(kept: Kept, children: seq<Rule>, child: Rule, optimized: Rule,
                                                question: Question, total: nat, known: map<nat, set<nat>>)
    requires Represents(kept, children, question, total, known) && Sound(optimized, total, known) && Flat(optimized)
    requires Answers(question, optimized) <==> Answers(question, child)
    ensures Represents(AppendOptimized(kept, optimized), children + [child], question, total, known)
  {
    AllExtended(question, children, child);
    match optimized
    case MatchAll(_) =>
    case All(nested) =>
      AppendAllKeeps(kept, children, nested, question, total, known);
      AnswersJoined(question, children, nested);
    case _ =>
      AppendKeeps(kept, children, optimized, question, total, known);
      AllExtended(question, children, optimized);
  }

  /** Simplification answers every question as before: dropping match-all children, flattening and deduplication. */
  lemma {:induction false} OptimizeKeeps(rule: Rule, question: Question, total: nat, known: map<nat, set<nat>>)
    requires Sound(rule, total, known) && Asks(question, total)
    ensures Sound(Optimize(rule, total), total, known) && Flat(Optimize(rule, total))
    ensures Answers(question, Optimize(rule, total)) <==> Answers(question, rule)
    decreases rule, 1
  {
    match rule
    case Leaf(_, wildcard, _, _) =>
      if |wildcard| == total {
        SubsetCardinality(wildcard, Universe(total));
      }
    case Exclude(_, _) =>
    case MatchAll(_) =>
    case All(children) =>
      if children != [] {
        OptimizeEachKeeps(rule, children, question, total, known);
        FinishKeeps(OptimizeEach(rule, children, total), children, question, total, known);
      }
  }

  lemma {:induction false} FinishKeeps(kept: Kept, children: seq<Rule>, question: Question, total: nat,
                                       known: map<nat, set<nat>>)
    requires Represents(kept, children, question, total, known) && children != []
    ensures Sound(Finish(kept), total, known) && Flat(Finish(kept))
    ensures Answers(question, Finish(kept)) <==> Answers(question, All(children))
  {
    if |kept.children| == 1 {
      assert Answers(question, All(kept.children)) <==> Answers(question, kept.children[0]);
    }
  }

  lemma {:induction false} OptimizeEachKeeps(rule: Rule, children: seq<Rule>, question: Question, total: nat,
                                             known: map<nat, set<nat>>)
    requires Sound(rule, total, known) && Asks(question, total)
    requires rule.All? && |children| <= |rule.children| && children == rule.children[..|children|]
    ensures Represents(OptimizeEach(rule, children, total), children, question, total, known)
    decreases rule, 0, |children|
  {
    if children != [] {
      var n := |children| - 1;
      OptimizeEachKeeps(rule, children[..n], question, total, known);
      OptimizeKeeps(rule.children[n], question, total, known);
      AppendOptimizedKeeps(OptimizeEach(rule, children[..n], total), children[..n], rule.children[n],
                           Optimize(rule.children[n], total), question, total, known);
      assert children == children[..n] + [rule.children[n]];
    }
  }

  // ----- what simplification leaves -----

  /** No nested All, nothing that matches everything, and no descriptor twice. */
  ghost predicate Parts(children: seq<Rule>, total: nat) {
    && (forall k :: 0 <= k < |children| ==> !children[k].All? && Reduced(children[k], total))
    && (forall i, j :: 0 <= i < j < |children| && children[i].Leaf? && children[j].Leaf? ==>
          children[i].descriptor.None? || children[i].descriptor != children[j].descriptor)
  }

  ghost predicate Reduced(rule: Rule, total: nat) {
    !rule.MatchAll? && (rule.Leaf? ==> |rule.wildcard| != total)
  }

  /** Simplification leaves everything, one part, or at least two. */
  lemma {:induction false} OptimizeReduces(rule: Rule, total: nat)
    ensures var optimized := Optimize(rule, total);
            || optimized.MatchAll?
            || (!optimized.All? && Reduced(optimized, total))
            || (optimized.All? && |optimized.children| >= 2 && Parts(optimized.children, total))
    decreases rule, 1
  {
    if rule.All? && rule.children != [] {
      OptimizeEachReduces(rule, rule.children, total);
    }
  }

  ghost predicate KeptReduced(kept: Kept, total: nat) {
    && Parts(kept.children, total)
    && forall k :: 0 <= k < |kept.children| && kept.children[k].Leaf? && kept.children[k].descriptor.Some? ==>
         kept.children[k].descriptor.value in kept.seen
  }

  lemma {:induction false} OptimizeEachReduces(rule: Rule, children: seq<Rule>, total: nat)
    requires rule.All? && |children| <= |rule.children| && children == rule.children[..|children|]
    ensures KeptReduced(OptimizeEach(rule, children, total), total)
    decreases rule, 0, |children|
  {
    if children != [] {
      var n := |children| - 1;
      var kept, optimized := OptimizeEach(rule, children[..n], total), Optimize(rule.children[n], total);
      OptimizeEachReduces(rule, children[..n], total);
      OptimizeReduces(rule.children[n], total);
      if optimized.All? {
        AppendAllReduces(kept, optimized.children, total);
      }
    }
  }

  lemma {:induction false} AppendAllReduces(kept: Kept, nested: seq<Rule>, total: nat)
    requires KeptReduced(kept, total)
    requires forall k :: 0 <= k < |nested| ==> !nested[k].All? && Reduced(nested[k], total)
    ensures KeptReduced(AppendAll(kept, nested), total)
  {
    if nested != [] {
      AppendAllReduces(kept, nested[..|nested| - 1], total);
    }
  }

  // ----- exclusions -----

  /** The exclusions of a simplified tree that store values. */
  function CollectExclusions(rule: Rule): seq<set<nat>> {
    match rule
    case Exclude(stores, forbidden) => if stores then [forbidden] else []
    case All(children) => CollectEach(children)
    case _ => []
  }

  function CollectEach(children: seq<Rule>): seq<set<nat>> {
    if children == [] then []
    else
      var last := children[|children| - 1];
      CollectEach(children[..|children| - 1]) + if last.Exclude? && last.stores then [last.forbidden] else []
  }

  lemma {:induction false} CollectedForbid(rule: Rule, total: nat, id: nat)
    requires Flat(rule) && Proper(rule, total)
    ensures id !in Union(CollectExclusions(rule)) <==> Answers(Spares(id), rule)
    ensures CollectExclusions(rule) == [] <==> Answers(HasNoStoringExclusion, rule)
  {
    match rule
    case Exclude(_, forbidden) =>
      assert [forbidden][1..] == [];
    case All(children) => CollectEachForbids(children, total, id);
    case _ =>
  }

  lemma {:induction false} CollectEachForbids(children: seq<Rule>, total: nat, id: nat)
    requires forall k :: 0 <= k < |children| ==>
               !children[k].All? && !children[k].MatchAll? && Proper(children[k], total)
    ensures id !in Union(CollectEach(children)) <==> Answers(Spares(id), All(children))
    ensures CollectEach(children) == [] <==> Answers(HasNoStoringExclusion, All(children))
  {
    if children != [] {
      var n := |children| - 1;
      var last := children[n];
      CollectEachForbids(children[..n], total, id);
      AllExtended(Spares(id), children[..n], last);
      AllExtended(HasNoStoringExclusion, children[..n], last);
      assert children == children[..n] + [last];
      if last.Exclude? && last.stores {
        UnionAppend(CollectEach(children[..n]), last.forbidden);
      } else {
        assert Proper(last, total);
        assert CollectEach(children) == CollectEach(children[..n]);
      }
    }
  }

  /** Replaces the exclusions of a simplified tree by match-all rules and simplifies again. */
  function RemoveExclusions(rule: Rule, total: nat): Rule {
    match rule
    case Exclude(_, _) => MatchAll(Universe(total))
    case All(children) => Optimize(All(Positive(children, total)), total)
    case _ => rule
  }

  function Positive(children: seq<Rule>, total: nat): (positive: seq<Rule>)
    ensures |positive| == |children|
    ensures forall k :: 0 <= k < |children| ==>
              positive[k] == if children[k].Exclude? then MatchAll(Universe(total)) else children[k]
  {
    seq(|children|,
        k requires 0 <= k < |children| => if children[k].Exclude? then MatchAll(Universe(total)) else children[k])
  }

  /** Without its exclusions, a tree finds exactly what it includes. */
  lemma {:induction false} RemovedFinds(rule: Rule, total: nat, known: map<nat, set<nat>>, id: nat)
    requires Flat(rule) && Sound(rule, total, known) && id < total
    ensures Sound(RemoveExclusions(rule, total), total, known) && Flat(RemoveExclusions(rule, total))
    ensures Answers(Finds(id), RemoveExclusions(rule, total)) <==> Answers(Includes(id), rule)
  {
    if rule.All? {
      var positive := Positive(rule.children, total);
      forall k | 0 <= k < |positive|
        ensures Sound(positive[k], total, known)
        ensures Answers(Finds(id), positive[k]) <==> Answers(Includes(id), rule.children[k])
      {
      }
      OptimizeKeeps(All(positive), Finds(id), total, known);
      assert Answers(Finds(id), All(positive)) <==> Answers(Includes(id), rule);
    }
  }

  lemma {:induction false} SearchFindsAnswers(rule: Rule, total: nat, known: map<nat, set<nat>>, id: nat)
    requires Flat(rule) && Sound(rule, total, known) && id < total
    ensures Searched(rule, id) <==> Answers(Finds(id), rule)
  {
    if rule.All? {
      forall k | 0 <= k < |rule.children|
        ensures Searched(rule.children[k], id) <==> Answers(Finds(id), rule.children[k])
      {
      }
    }
  }

  // ----- the pipeline -----

  datatype Index = Index(root: Rule, exclusions: seq<set<nat>>)

  /** Simplification runs twice; exclusions are removed from the tree only if one of them stores a value. */
  function Build(schema: Rule, total: nat): Index {
    var optimized := Optimize(Optimize(schema, total), total);
    var exclusions := CollectExclusions(optimized);
    if exclusions == [] then Index(optimized, [])
    else
      var positive := RemoveExclusions(optimized, total);
      Index(if positive.All? then positive else All([positive]), exclusions)
  }

  ghost predicate Found(index: Index, id: nat) {
    Searched(index.root, id) && id !in Union(index.exclusions)
  }

  /** Some exclusion stores a value, or the schema has no exclusion. */
  ghost predicate ExclusionsSeparated(schema: Rule) {
    Answers(HasNoStoringExclusion, schema) ==> Answers(HasNoExclusion, schema)
  }

  /**
   The built index finds exactly what the schema accepts when some exclusion stores a value or there is none. Otherwise
   an exclusion without values stays in the tree and the index finds nothing at all.
   */
  lemma {:induction false} BuildMeaning(schema: Rule, total: nat, known: map<nat, set<nat>>, id: nat)
    requires Sound(schema, total, known) && id < total
    ensures ExclusionsSeparated(schema) ==> (Found(Build(schema, total), id) <==> Accepts(schema, id))
    ensures !ExclusionsSeparated(schema) ==> !Found(Build(schema, total), id)
  {
    var once := Optimize(schema, total);
    var optimized := Optimize(once, total);
    OptimizedTwice(schema, Includes(id), total, known);
    OptimizedTwice(schema, Spares(id), total, known);
    OptimizedTwice(schema, Finds(id), total, known);
    OptimizedTwice(schema, HasNoExclusion, total, known);
    OptimizedTwice(schema, HasNoStoringExclusion, total, known);
    CollectedForbid(optimized, total, id);
    if CollectExclusions(optimized) == [] {
      SearchFindsAnswers(optimized, total, known, id);
      NoExclusionFinds(optimized, id);
    } else {
      var positive := RemoveExclusions(optimized, total);
      RemovedFinds(optimized, total, known, id);
      SearchFindsAnswers(positive, total, known, id);
      assert Searched(All([positive]), id) <==> Searched(positive, id) by {
        assert All([positive]).children[0] == positive;
      }
    }
  }

  /** The root of an index is a sound simplified tree, or an All above the single rule that is left. */
  lemma {:induction false} BuiltShape(schema: Rule, total: nat, known: map<nat, set<nat>>)
    requires Sound(schema, total, known)
    ensures var root := Build(schema, total).root;
            && Sound(root, total, known)
            && (root.All? ==> root.children != [] && forall k :: 0 <= k < |root.children| ==> !root.children[k].All?)
    ensures Build(schema, total).exclusions != [] ==> Build(schema, total).root.All?
  {
    OptimizedTwice(schema, HasNoExclusion, total, known);
    var optimized := Optimize(Optimize(schema, total), total);
    if CollectExclusions(optimized) != [] && optimized.All? {
      OptimizeKeeps(All(Positive(optimized.children, total)), HasNoExclusion, total, known);
    }
  }

  lemma {:induction false} OptimizedTwice(schema: Rule, question: Question, total: nat, known: map<nat, set<nat>>)
    requires Sound(schema, total, known) && Asks(question, total)
    ensures var optimized := Optimize(Optimize(schema, total), total);
            Sound(optimized, total, known) && Flat(optimized)
              && (Answers(question, optimized) <==> Answers(question, schema))
  {
    OptimizeKeeps(schema, question, total, known);
    OptimizeKeeps(Optimize(schema, total), question, total, known);
  }

  /** A tree without exclusions finds what it includes; a tree with one finds nothing. */
  lemma {:induction false} NoExclusionFinds(rule: Rule, id: nat)
    requires Flat(rule)
    ensures Answers(HasNoExclusion, rule) ==> (Answers(Finds(id), rule) <==> Answers(Includes(id), rule))
    ensures !Answers(HasNoExclusion, rule) ==> !Answers(Finds(id), rule)
    ensures Answers(HasNoExclusion, rule) ==> Answers(Spares(id), rule)
  {
    if rule.All? {
      forall k | 0 <= k < |rule.children|
        ensures Answers(HasNoExclusion, rule.children[k]) ==>
                  (Answers(Finds(id), rule.children[k]) <==> Answers(Includes(id), rule.children[k]))
        ensures !Answers(HasNoExclusion, rule.children[k]) ==> !Answers(Finds(id), rule.children[k])
        ensures Answers(HasNoExclusion, rule.children[k]) ==> Answers(Spares(id), rule.children[k])
      {
      }
    }
  }

  /** A schema with one include and one exclusion whose stored value is missing. */
  function IncludeWithEmptyExclusion(): Rule {
    All([Leaf(None, {}, {0}, OtherForm([{0}], true, Some(1))), Exclude(false, {})])
  }

  lemma {:induction false} EmptyExclusionAccepts()
    ensures Sound(IncludeWithEmptyExclusion(), 1, map[]) && Accepts(IncludeWithEmptyExclusion(), 0)
  {
    assert 0 in Universe(1);
  }

  lemma {:induction false} EmptyExclusionIsLeft()
    ensures !ExclusionsSeparated(IncludeWithEmptyExclusion())
  {
    var schema := IncludeWithEmptyExclusion();
    assert !Answers(HasNoExclusion, schema.children[1]);
    assert Answers(HasNoStoringExclusion, schema.children[0]) && Answers(HasNoStoringExclusion, schema.children[1]);
  }

  /** It accepts rule 0, but its index finds nothing. */
  lemma {:induction false} EmptyExclusionHidesEverything()
    ensures Accepts(IncludeWithEmptyExclusion(), 0) && !Found(Build(IncludeWithEmptyExclusion(), 1), 0)
  {
    EmptyExclusionAccepts();
    EmptyExclusionIsLeft();
    BuildMeaning(IncludeWithEmptyExclusion(), 1, map[], 0);
  }
}
