/**
 Searching a built index: its tree is interned, equality classes and wildcard complements are compiled, wildcards are
 grouped, and then the root search runs on the resulting children.
 */
module BuiltSearch {
  import opened Bitmaps
  import opened EqualityLeaves
  import opened EqualityClasses
  import opened Plans
  import opened RuleTrees
  import AllExecution
  import AllSearch
  import EqualityAntonyms

  predicate IsEquality(rule: Rule) {
    rule.Leaf? && rule.form.EqualityForm?
  }

  /** The children of a root: sound rules, none of which is an All. */
  ghost predicate RootChildren(rules: seq<Rule>, total: nat) {
    forall k :: 0 <= k < |rules| ==> Proper(rules[k], total) && Postable(rules[k]) && !rules[k].All?
  }

  // ----- interning -----

  /** The bitmaps that interning a rule may replace. */
  ghost function RuleBitmaps(rule: Rule): set<set<nat>> {
    match rule
    case Leaf(_, _, _, form) =>
      (match form
       case EqualityForm(stored, _) => if |stored.bits| == |stored.compact| then BitmapsOf(stored) else {}
       case OtherForm(bitmaps, _, _) => set b | b in bitmaps)
    case MatchAll(bits) => {bits}
    case _ => {}
  }

  ghost function AllBitmaps(rules: seq<Rule>): set<set<nat>> {
    set k, b | 0 <= k < |rules| && b in RuleBitmaps(rules[k]) :: b
  }

  ghost predicate Sourced(known: map<nat, set<nat>>, rule: Rule, sourced: Option<SourcedLeaf>) {
    if IsEquality(rule) then sourced.Some? && InternedAs(known, rule.form.stored, sourced.value) else sourced.None?
  }

  method InternChild(interner: BitmapInterner, rule: Rule, total: nat, ghost bitmaps: set<set<nat>>)
    returns (complete: bool, sourced: Option<SourcedLeaf>)
    requires interner.Valid() && Grew(map[], interner.sources, bitmaps)
    requires Proper(rule, total) && !rule.All? && RuleBitmaps(rule) <= bitmaps
    modifies interner
    ensures !complete ==> |bitmaps| >= SOURCE_LIMIT
    ensures complete ==> interner.Valid() && Grew(old(interner.sources), interner.sources, bitmaps)
    ensures complete ==> Sourced(interner.sources, rule, sourced) && Holds(interner.sources, RuleBitmaps(rule))
  {
    hide BitmapInterner.Valid;
    complete, sourced := true, None;
    match rule {
      case Leaf(_, _, _, form) =>
        match form {
          case EqualityForm(stored, _) =>
            sourced := InternLeaf(interner, stored, bitmaps);
            complete := sourced.Some?;
            if complete {
              LeafHolds(interner.sources, stored, sourced.value);
            }
          case OtherForm(others, _, _) =>
            complete := InternOthers(interner, others, bitmaps);
        }
      case MatchAll(bits) =>
        var id := InternOne(interner, bits, bitmaps);
        complete := id.Some?;
      case Exclude(_, _) =>
    }
  }

  /** Interns every child. It fails only if the children have 2^32 different bitmaps. */
  method InternChildren(interner: BitmapInterner, rules: seq<Rule>, total: nat)
    returns (sourced: Option<seq<Option<SourcedLeaf>>>)
    requires interner.Valid() && interner.sources == map[] && RootChildren(rules, total)
    modifies interner
    ensures sourced.None? ==> |AllBitmaps(rules)| >= SOURCE_LIMIT
    ensures sourced.Some? ==> |sourced.value| == |rules| && Holds(interner.sources, AllBitmaps(rules))
    ensures sourced.Some? ==> forall k :: 0 <= k < |rules| ==> Sourced(interner.sources, rules[k], sourced.value[k])
  {
    hide BitmapInterner.Valid;
    ghost var bitmaps := AllBitmaps(rules);
    var all: seq<Option<SourcedLeaf>> := [];
    while |all| < |rules|
      invariant |all| <= |rules| && interner.Valid() && Grew(map[], interner.sources, bitmaps)
      invariant forall k :: 0 <= k < |all| ==>
                  Sourced(interner.sources, rules[k], all[k]) && Holds(interner.sources, RuleBitmaps(rules[k]))
      decreases |rules| - |all|
    {
      ghost var before := interner.sources;
      assert RuleBitmaps(rules[|all|]) <= bitmaps;
      var complete, child := InternChild(interner, rules[|all|], total, bitmaps);
      if !complete {
        return None;
      }
      forall k | 0 <= k < |all|
        ensures Sourced(interner.sources, rules[k], all[k]) && Holds(interner.sources, RuleBitmaps(rules[k]))
      {
        HoldsStays(before, interner.sources, bitmaps, RuleBitmaps(rules[k]));
        if IsEquality(rules[k]) {
          InternedStays(before, interner.sources, bitmaps, rules[k].form.stored, all[k].value);
        }
      }
      all := all + [child];
    }
    sourced := Some(all);
  }

  // ----- the children as nodes -----

  function Numbers(n: nat): (keys: seq<nat>)
    ensures |keys| == n && forall k :: 0 <= k < n ==> keys[k] == k
  {
    seq(n, k => k)
  }

  /** An equality child keeps its postings under their positions. */
  function NodeOf(rule: Rule, sourced: Option<SourcedLeaf>, classes: map<Pair, nat>,
                  total: nat): EqualityAntonyms.Node<nat>
    requires Postable(rule) && (IsEquality(rule) ==> |rule.form.stored.bits| == |rule.form.stored.compact|)
    requires sourced.Some? ==> IsEquality(rule) && |sourced.value.sources| == |rule.form.stored.bits|
  {
    if sourced.Some? then
      var stored, posting := rule.form.stored, rule.form.posting;
      var leaf := EqualityLeaves.Leaf(stored.wildcard, Numbers(|stored.bits|), stored.bits);
      EqualityAntonyms.Equality(EqualityAntonyms.Operand(leaf, posting, sourced.value.wildcardSource,
                                                         posting.Some? && stored.compact[posting.value]),
                                ResultClass(classes, sourced.value, posting))
    else EqualityAntonyms.Other(PlainChild(rule, total))
  }

  /** A node that says what a search of its rule says. */
  lemma {:induction false} NodeFaithful(known: map<nat, set<nat>>, rule: Rule, sourced: Option<SourcedLeaf>,
                                        classes: map<Pair, nat>, total: nat)
    requires Proper(rule, total) && Postable(rule) && !rule.All? && Sourced(known, rule, sourced) && total <= MAX_RULES
    ensures var node := NodeOf(rule, sourced, classes, total);
            && EqualityAntonyms.Sound(node) && (node.Equality? <==> IsEquality(rule)) && !node.Compiled?
            && (node.Equality? ==> EqualityLeaves.Universe(node.operand.leaf) == Plans.Universe(total))
            && (node.Equality? ==> EqualityAntonyms.Concretes(node.operand) == Posted(rule.form))
            && forall id: nat :: id < total ==> (EqualityAntonyms.NodeMatches(node, id) <==> Searched(rule, id))
  {
    if IsEquality(rule) {
      var stored, posting := rule.form.stored, rule.form.posting;
      if posting.Some? {
        PostingAt(Numbers(|stored.bits|), stored.bits, posting.value);
        SubsetCardinality(stored.bits[posting.value], Plans.Universe(total));
      }
    }
  }

  ghost function NodeResult(node: EqualityAntonyms.Node<nat>): set<nat>
    requires node.Equality? && EqualityAntonyms.Sound(node)
  {
    node.operand.leaf.wildcard + EqualityAntonyms.Concretes(node.operand)
  }

  /** What interning and class compilation establish, whichever nodes are kept: equal marks mean equal contents. */
  ghost predicate NodesAgree(nodes: seq<EqualityAntonyms.Node<nat>>)
    requires EqualityAntonyms.AllSound(nodes)
  {
    && (forall x, y :: x in nodes && y in nodes && x.Equality? && y.Equality?
                       && x.operand.pointer == y.operand.pointer ==>
          x.operand.leaf.wildcard == y.operand.leaf.wildcard)
    && (forall x, y :: x in nodes && y in nodes && x.Equality? && y.Equality? && x.equalityClass == y.equalityClass != 0
                       && EqualityAntonyms.Sound(x) && EqualityAntonyms.Sound(y) ==>
          NodeResult(x) == NodeResult(y))
    && (forall x :: x in nodes && x.Other? ==>
          x.child.group == 0 == x.child.equalityClass && AllSearch.EstimatesBound(x.child)
            && (x.child.direct || x.child.result == {}))
  }

  /** The classes are the numbers of different pairs of sources. */
  ghost predicate Numbered(classes: map<Pair, nat>) {
    && (forall pair :: pair in classes ==> classes[pair] != 0)
    && (forall p, q :: p in classes && q in classes && classes[p] == classes[q] ==> p == q)
  }

  lemma {:induction false} NodesFaithful(known: map<nat, set<nat>>, rules: seq<Rule>, sourced: seq<Option<SourcedLeaf>>,
                                         classes: map<Pair, nat>, total: nat, nodes: seq<EqualityAntonyms.Node<nat>>)
    requires RootChildren(rules, total) && |sourced| == |rules| == |nodes| && total <= MAX_RULES && Numbered(classes)
    requires forall k :: 0 <= k < |rules| ==>
               Sourced(known, rules[k], sourced[k]) && nodes[k] == NodeOf(rules[k], sourced[k], classes, total)
    ensures EqualityAntonyms.Interned(nodes, Plans.Universe(total)) && NodesAgree(nodes)
    ensures forall id: nat :: id < total ==>
              (EqualityAntonyms.Conjunction(nodes, id) <==> forall k :: 0 <= k < |rules| ==> Searched(rules[k], id))
    ensures forall x :: x in nodes ==> !x.Compiled?
  {
    forall k | 0 <= k < |rules|
      ensures EqualityAntonyms.Sound(nodes[k]) && !nodes[k].Compiled? && (nodes[k].Equality? <==> IsEquality(rules[k]))
      ensures nodes[k].Equality? ==> EqualityLeaves.Universe(nodes[k].operand.leaf) == Plans.Universe(total)
      ensures nodes[k].Equality? ==> EqualityAntonyms.Concretes(nodes[k].operand) == Posted(rules[k].form)
      ensures forall id: nat :: id < total ==> (EqualityAntonyms.NodeMatches(nodes[k], id) <==> Searched(rules[k], id))
    {
      NodeFaithful(known, rules[k], sourced[k], classes, total);
    }
    forall x, y | x in nodes && y in nodes && x.Equality? && y.Equality?
      ensures x.operand.pointer == y.operand.pointer ==> x.operand.leaf.wildcard == y.operand.leaf.wildcard
      ensures x.equalityClass == y.equalityClass != 0 && EqualityAntonyms.Sound(x) && EqualityAntonyms.Sound(y) ==>
                NodeResult(x) == NodeResult(y)
    {
      var j :| 0 <= j < |nodes| && nodes[j] == x;
      var k :| 0 <= k < |nodes| && nodes[k] == y;
      NodesPaired(known, rules[j], sourced[j].value, rules[k], sourced[k].value, classes, total);
    }
    forall x | x in nodes && x.Other?
      ensures x.child.group == 0 == x.child.equalityClass && AllSearch.EstimatesBound(x.child)
              && (x.child.direct || x.child.result == {})
    {
      var k :| 0 <= k < |nodes| && nodes[k] == x;
      PlainChildSound(rules[k], total);
    }
  }

  lemma {:induction false} NodesPaired(known: map<nat, set<nat>>, left: Rule, leftLeaf: SourcedLeaf, right: Rule,
                                       rightLeaf: SourcedLeaf, classes: map<Pair, nat>, total: nat)
    requires Proper(left, total) && Proper(right, total) && Postable(left) && Postable(right) && total <= MAX_RULES
    requires IsEquality(left) && IsEquality(right) && Numbered(classes)
    requires InternedAs(known, left.form.stored, leftLeaf) && InternedAs(known, right.form.stored, rightLeaf)
    ensures var x, y := NodeOf(left, Some(leftLeaf), classes, total), NodeOf(right, Some(rightLeaf), classes, total);
            && (x.operand.pointer == y.operand.pointer ==> x.operand.leaf.wildcard == y.operand.leaf.wildcard)
            && EqualityAntonyms.Sound(x) && EqualityAntonyms.Sound(y)
            && (x.equalityClass == y.equalityClass != 0 ==> NodeResult(x) == NodeResult(y))
  {
    var x, y := NodeOf(left, Some(leftLeaf), classes, total), NodeOf(right, Some(rightLeaf), classes, total);
    NodeFaithful(known, left, Some(leftLeaf), classes, total);
    NodeFaithful(known, right, Some(rightLeaf), classes, total);
    assert NodeResult(x) == Result(leftLeaf, left.form.posting)
             && NodeResult(y) == Result(rightLeaf, right.form.posting);
    if x.equalityClass == y.equalityClass != 0 {
      SameClassSameResult(known, classes, leftLeaf, left.form.posting, rightLeaf, right.form.posting);
    }
  }

  // ----- the children that are searched -----

  /** A child of the root that stands for a node, in a shared-wildcard group or in none. */
  ghost predicate Stands(node: EqualityAntonyms.Node<nat>, group: nat, child: AllExecution.Child) {
    && EqualityAntonyms.Sound(node)
    && (forall id: nat :: id in child.result <==> EqualityAntonyms.NodeMatches(node, id))
    && (child.direct || child.result == {}) && AllSearch.EstimatesBound(child) && child.group == group
    && child.equalityClass == (if node.Equality? then node.equalityClass else 0)
    && (node.Equality? ==>
          && child.equality
               == Some(AllExecution.Equality(node.operand.leaf.wildcard, EqualityAntonyms.Concretes(node.operand)))
          && child.result == NodeResult(node) && !child.filter && (child.planning ==> node.operand.leaf.wildcard == {}))
  }

  method ChildOf(node: EqualityAntonyms.Node<nat>, group: nat) returns (child: AllExecution.Child)
    requires EqualityAntonyms.Sound(node) && (node.Other? ==> NodesAgree([node])) && (group != 0 ==> node.Equality?)
    ensures Stands(node, group, child)
  {
    match node {
      case Equality(operand, equalityClass) =>
        var wildcard, concrete := operand.leaf.wildcard, EqualityAntonyms.Concretes(operand);
        UnionCardinality(wildcard, concrete);
        var estimate := Some(|wildcard| + |concrete|);
        var planning := wildcard == {} && !operand.compact;
        child := AllExecution.Child(wildcard + concrete, true, false, planning, estimate, estimate,
                                    Some(AllExecution.Equality(wildcard, concrete)), group, equalityClass);
      case Other(other) =>
        assert node in [node];
        child := other;
      case Compiled(component) =>
        child := ComponentChild(component);
    }
  }

  method ComponentChild(component: EqualityAntonyms.Component<nat>) returns (child: AllExecution.Child)
    requires EqualityAntonyms.Searchable(component)
    ensures Stands(EqualityAntonyms.Compiled(component), 0, child)
  {
    var found := new Bitmap();
    EqualityAntonyms.AddMatches(component, found);
    var estimate := EqualityAntonyms.EstimateCardinality(component);
    var planning := EqualityAntonyms.LookupPlanningBitmap(component);
    assert found.ids == EqualityAntonyms.SideSet(component.left) + EqualityAntonyms.SideSet(component.right);
    child := AllExecution.Child(found.ids, true, false, planning.Some?, Some(estimate), Some(estimate), None, 0, 0);
  }

  function WildcardOf(node: EqualityAntonyms.Node<nat>): Option<Wildcard> {
    if node.Equality? then Some(Wildcard(node.operand.pointer, node.operand.leaf.wildcard == {})) else None
  }

  ghost predicate AllStand(nodes: seq<EqualityAntonyms.Node<nat>>, groups: seq<nat>,
                           children: seq<AllExecution.Child>) {
    |nodes| == |groups| == |children| && forall k :: 0 <= k < |nodes| ==> Stands(nodes[k], groups[k], children[k])
  }

  /** The groups put together exactly the children with the same non-empty wildcard. */
  ghost predicate GroupsShare(nodes: seq<EqualityAntonyms.Node<nat>>, groups: seq<nat>) {
    && |groups| == |nodes|
    && (forall c, d :: 0 <= c < d < |nodes| && groups[c] == groups[d] != 0 ==>
          nodes[c].Equality? && nodes[d].Equality? && nodes[c].operand.pointer == nodes[d].operand.pointer)
    && (forall c :: 0 <= c < |nodes| && groups[c] != 0 ==> nodes[c].Equality? && nodes[c].operand.leaf.wildcard != {})
  }

  method GroupNodes(nodes: seq<EqualityAntonyms.Node<nat>>)
    returns (groups: seq<nat>, children: seq<AllExecution.Child>)
    requires EqualityAntonyms.AllSound(nodes) && NodesAgree(nodes)
    ensures GroupsShare(nodes, groups) && AllStand(nodes, groups, children)
  {
    var wildcards := seq(|nodes|, k requires 0 <= k < |nodes| => WildcardOf(nodes[k]));
    forall c, d | 0 <= c < d < |nodes| && wildcards[c].Some? && wildcards[d].Some?
      ensures wildcards[c].value.pointer == wildcards[d].value.pointer ==>
                wildcards[c].value.empty == wildcards[d].value.empty
    {
      assert nodes[c] in nodes && nodes[d] in nodes;
    }
    groups := PrepareSharedWildcardGroups(wildcards);
    forall c, d | 0 <= c < d < |nodes| && groups[c] == groups[d] != 0
      ensures nodes[c].Equality? && nodes[d].Equality? && nodes[c].operand.pointer == nodes[d].operand.pointer
    {
      assert Shares(wildcards, c, d);
    }
    children := [];
    while |children| < |nodes|
      invariant |children| <= |nodes|
      invariant forall k :: 0 <= k < |children| ==> Stands(nodes[k], groups[k], children[k])
      decreases |nodes| - |children|
    {
      var node := nodes[|children|];
      assert node in nodes && EqualityAntonyms.Sound(node);
      assert groups[|children|] != 0 ==> Shareable(wildcards[|children|]);
      var child := ChildOf(node, groups[|children|]);
      children := children + [child];
    }
  }

  /** The children satisfy everything that the executor and the root search assume. */
  lemma {:induction false} RootReady(root: AllExecution.AllRule, nodes: seq<EqualityAntonyms.Node<nat>>,
                                     groups: seq<nat>)
    requires EqualityAntonyms.AllSound(nodes) && NodesAgree(nodes) && GroupsShare(nodes, groups)
             && AllStand(nodes, groups, root.children)
    ensures root.Grouped() && AllSearch.ClassesAgree(root.children)
    ensures AllSearch.Estimated(root.children) && AllSearch.Checkable(root.children)
    ensures forall id: nat :: AllSearch.Matches(root.children, id) <==> EqualityAntonyms.Conjunction(nodes, id)
  {
    var children := root.children;
    forall c | 0 <= c < |children|
      ensures Stands(nodes[c], groups[c], children[c]) && nodes[c] in nodes
    {
    }
    forall c, d | 0 <= c < d < |children| && children[c].group == children[d].group != 0
      ensures nodes[c].operand.leaf.wildcard == nodes[d].operand.leaf.wildcard
    {
      assert nodes[c] in nodes && nodes[d] in nodes;
    }
    forall c, d | 0 <= c < d < |children| && children[c].equalityClass == children[d].equalityClass != 0
      ensures children[c].result == children[d].result
    {
      assert nodes[c] in nodes && nodes[d] in nodes;
      assert NodeResult(nodes[c]) == NodeResult(nodes[d]);
    }
  }

  // ----- searching -----

  /** What the documented intersection of the children leaves after the exclusions. */
  ghost function IndexAnswer(index: Index, total: nat): set<nat> {
    set id: nat | id < total && Plans.Found(index, id)
  }

  /** The nodes of the root, with wildcard complements compiled. */
  method CompileRoot(rules: seq<Rule>, checksum: set<nat> -> nat, total: nat)
    returns (nodes: Option<seq<EqualityAntonyms.Node<nat>>>)
    requires rules != [] && RootChildren(rules, total) && total <= MAX_RULES
    ensures nodes.None? ==> |AllBitmaps(rules)| >= SOURCE_LIMIT
    ensures nodes.Some? ==> EqualityAntonyms.AllSound(nodes.value) && NodesAgree(nodes.value) && nodes.value != []
    ensures nodes.Some? ==> forall id: nat :: id < total ==>
              (EqualityAntonyms.Conjunction(nodes.value, id) <==> Searched(All(rules), id))
  {
    hide BitmapInterner.Valid, Holds, EqualityAntonyms.Emitted, EqualityAntonyms.Paired, EqualityAntonyms.Complement;
    var interner := new BitmapInterner(checksum);
    var sourced := InternChildren(interner, rules, total);
    if sourced.None? {
      return None;
    }
    var classes, _ := CompileClasses(sourced.value);
    ghost var known := interner.sources;
    assert forall k :: 0 <= k < |rules| ==> Sourced(known, rules[k], sourced.value[k]);
    var exact := seq(|rules|, k requires 0 <= k < |rules| => NodeOf(rules[k], sourced.value[k], classes, total));
    NodesFaithful(known, rules, sourced.value, classes, total, exact);
    var compiled, _, _ := EqualityAntonyms.Compile(exact, Plans.Universe(total));
    KeptAgree(exact, compiled);
    nodes := Some(compiled);
  }

  /** Replacing nodes by components keeps what is known about the others. */
  lemma {:induction false} KeptAgree(nodes: seq<EqualityAntonyms.Node<nat>>, kept: seq<EqualityAntonyms.Node<nat>>)
    requires EqualityAntonyms.AllSound(nodes) && NodesAgree(nodes) && EqualityAntonyms.AllSound(kept)
    requires forall x :: x in kept && !x.Compiled? ==> x in nodes
    ensures NodesAgree(kept)
  {
  }

  method SearchRoot<ID>(index: Index, checksum: set<nat> -> nat, values: seq<ID>, result: seq<ID>)
    returns (appended: Option<seq<ID>>)
    requires index.root.All? && index.root.children != [] && RootChildren(index.root.children, |values|)
             && |values| <= MAX_RULES
    ensures appended.None? ==> |AllBitmaps(index.root.children)| >= SOURCE_LIMIT
    ensures appended.Some? ==>
              appended.value == result + AllSearch.Listed(IndexAnswer(index, |values|), values, |values|)
  {
    var rules := index.root.children;
    var nodes := CompileRoot(rules, checksum, |values|);
    if nodes.None? {
      return None;
    }
    var groups, children := GroupNodes(nodes.value);
    var complete := forall c :: 0 <= c < |children| ==> children[c].direct;
    var root := new AllExecution.AllRule(children, complete);
    RootReady(root, nodes.value, groups);
    var all := AllSearch.SearchAllMatches(root, index.exclusions, values, result);
    AllSearch.ListedAgree(AllSearch.Answer(root.children, index.exclusions, |values|), IndexAnswer(index, |values|),
                          values, |values|);
    appended := Some(all);
  }

  /** A root that is not an All is searched as it is. */
  method SearchIndex<ID>(index: Index, checksum: set<nat> -> nat, values: seq<ID>, result: seq<ID>,
                         ghost known: map<nat, set<nat>>)
    returns (appended: Option<seq<ID>>)
    requires Sound(index.root, |values|, known) && |values| <= MAX_RULES
    requires index.root.All? ==>
               index.root.children != [] && forall k :: 0 <= k < |index.root.children| ==> !index.root.children[k].All?
    ensures appended.None? ==> index.root.All? && |AllBitmaps(index.root.children)| >= SOURCE_LIMIT
    ensures appended.Some? ==>
              appended.value == result + AllSearch.Listed(IndexAnswer(index, |values|), values, |values|)
  {
    ProperPostable(index.root, |values|);
    if index.root.All? {
      forall k | 0 <= k < |index.root.children|
        ensures Proper(index.root.children[k], |values|) && Postable(index.root.children[k])
      {
      }
      appended := SearchRoot(index, checksum, values, result);
      return;
    }
    var bits := FoundBy(index.root, |values|);
    if index.exclusions != [] {
      bits := bits - Union(index.exclusions);
    }
    assert bits == IndexAnswer(index, |values|);
    var all := AllSearch.AppendBitmapValues(bits, values, result);
    appended := Some(all);
  }

  /** What the schema accepts at this query. */
  ghost function Accepted(schema: Rule, total: nat): set<nat> {
    set id: nat | id < total && Accepts(schema, id)
  }

  /**
   Building an index from a schema and searching it appends what the schema accepts, in dense-ID order, if some
   exclusion stores a value or there is none; otherwise it appends nothing. It fails only for 2^32 different bitmaps.
   */
  method BuildAndSearch<ID>(schema: Rule, checksum: set<nat> -> nat, values: seq<ID>, result: seq<ID>,
                            ghost known: map<nat, set<nat>>)
    returns (appended: Option<seq<ID>>)
    requires Sound(schema, |values|, known) && |values| <= MAX_RULES
    ensures appended.None? ==>
              Build(schema, |values|).root.All? && |AllBitmaps(Build(schema, |values|).root.children)| >= SOURCE_LIMIT
    ensures appended.Some? && ExclusionsSeparated(schema) ==>
              appended.value == result + AllSearch.Listed(Accepted(schema, |values|), values, |values|)
    ensures appended.Some? && !ExclusionsSeparated(schema) ==> appended.value == result
  {
    var index := Build(schema, |values|);
    BuiltShape(schema, |values|, known);
    appended := SearchIndex(index, checksum, values, result, known);
    forall id: nat | id < |values|
      ensures ExclusionsSeparated(schema) ==> (id in IndexAnswer(index, |values|) <==> id in Accepted(schema, |values|))
      ensures !ExclusionsSeparated(schema) ==> id !in IndexAnswer(index, |values|)
    {
      BuildMeaning(schema, |values|, known, id);
    }
    if ExclusionsSeparated(schema) {
      AllSearch.ListedAgree(IndexAnswer(index, |values|), Accepted(schema, |values|), values, |values|);
    } else {
      AllSearch.ListedNothing(IndexAnswer(index, |values|), values, |values|);
    }
  }
}
