/**
 Steps of the leaves of a lossy tree: which leaf is stepped next, which steps a limit needs, and what is left when no
 step remains.
 */
module LossySteps {
  import opened Bitmaps
  import opened AdaptiveLeaves
  import opened LossyTrees

  function Sum(s: seq<nat>): nat {
    if s == [] then 0 else s[0] + Sum(s[1..])
  }

  lemma {:induction false} SumSmaller(a: seq<nat>, b: seq<nat>)
    requires |a| == |b| && forall k :: 0 <= k < |a| ==> a[k] <= b[k]
    ensures Sum(a) <= Sum(b)
    ensures (exists k :: 0 <= k < |a| && a[k] < b[k]) ==> Sum(a) < Sum(b)
  {
    if a != [] {
      SumSmaller(a[1..], b[1..]);
      if k :| 0 <= k < |a| && a[k] < b[k] {
        if k > 0 {
          assert a[1..][k - 1] < b[1..][k - 1];
        }
      }
    }
  }

  // ----- the states of all leaves -----

  function UsagesOf<S, E>(ops: LeafOps<S, E>, states: seq<State<S>>): (usages: seq<nat>)
    ensures |usages| == |states| && forall k :: 0 <= k < |states| ==> usages[k] == Usage(ops, states[k])
  {
    seq(|states|, k requires 0 <= k < |states| => Usage(ops, states[k]))
  }

  function RanksOf<S, E>(ops: LeafOps<S, E>, states: seq<State<S>>): (ranks: seq<nat>)
    ensures |ranks| == |states| && forall k :: 0 <= k < |states| ==> ranks[k] == Rank(ops, states[k])
  {
    seq(|states|, k requires 0 <= k < |states| => Rank(ops, states[k]))
  }

  /**
   Only the given leaves moved, and each that moved had a step left and has fewer levels now. If no step grows a leaf,
   none has grown.
   */
  ghost predicate Coarser<S(!new), E>(ops: LeafOps<S, E>, before: seq<State<S>>, now: seq<State<S>>, moved: set<nat>) {
    && |before| == |now|
    && (forall k :: 0 <= k < |now| ==>
          now[k] == before[k]
          || (k in moved && Next(ops, before[k]).Some? && Rank(ops, now[k]) < Rank(ops, before[k])))
    && (Shrinking(ops) ==> forall k :: 0 <= k < |now| ==> Usage(ops, now[k]) <= Usage(ops, before[k]))
  }

  /** No step makes a leaf larger. */
  ghost predicate Shrinking<S(!new), E>(ops: LeafOps<S, E>) {
    forall s, a :: ops.next(s, a).Some? ==> ops.usage(ops.next(s, a).value) <= ops.usage(s)
  }

  lemma {:induction false} CoarserTwice<S(!new), E>(ops: LeafOps<S, E>, a: seq<State<S>>, b: seq<State<S>>,
                                                    c: seq<State<S>>, moved: set<nat>, more: set<nat>)
    requires Coarser(ops, a, b, moved) && Coarser(ops, b, c, more)
    ensures Coarser(ops, a, c, moved + more)
  {
  }

  lemma {:induction false} CoarserOn<S(!new), E>(ops: LeafOps<S, E>, a: seq<State<S>>, b: seq<State<S>>,
                                                 c: seq<State<S>>, moved: set<nat>)
    requires Coarser(ops, a, b, moved) && Coarser(ops, b, c, moved)
    ensures Coarser(ops, a, c, moved)
  {
  }

  lemma {:induction false} CoarserElsewhere<S(!new), E>(ops: LeafOps<S, E>, before: seq<State<S>>, now: seq<State<S>>,
                                                        moved: set<nat>, leaves: set<nat>)
    requires Coarser(ops, before, now, moved) && leaves !! moved
    ensures AgreeOn(leaves, UsagesOf(ops, before), UsagesOf(ops, now))
  {
  }

  lemma {:induction false} LevelsRunOut<S(!new), E>(ops: LeafOps<S, E>, before: seq<State<S>>, now: seq<State<S>>,
                                                    moved: set<nat>)
    requires Coarser(ops, before, now, moved)
    ensures Sum(RanksOf(ops, now)) <= Sum(RanksOf(ops, before))
    ensures before != now ==> Sum(RanksOf(ops, now)) < Sum(RanksOf(ops, before))
  {
    SumSmaller(RanksOf(ops, now), RanksOf(ops, before));
    if before != now {
      var k :| 0 <= k < |now| && now[k] != before[k];
      assert RanksOf(ops, now)[k] < RanksOf(ops, before)[k];
    }
  }

  /** No leaf of the tree has a step left. */
  ghost predicate Exhausted<S, E>(ops: LeafOps<S, E>, states: seq<State<S>>, leaves: set<nat>) {
    forall leaf :: leaf in leaves && leaf < |states| ==> Next(ops, states[leaf]).None?
  }

  lemma {:induction false} ExhaustedStays<S(!new), E>(ops: LeafOps<S, E>, before: seq<State<S>>, now: seq<State<S>>,
                                                      moved: set<nat>, leaves: set<nat>)
    requires Coarser(ops, before, now, moved) && Exhausted(ops, before, leaves)
    ensures Exhausted(ops, now, leaves) && AgreeOn(leaves, UsagesOf(ops, before), UsagesOf(ops, now))
  {
  }

  // ----- the leaf to step -----

  ghost predicate CanStep<S, E>(ops: LeafOps<S, E>, states: seq<State<S>>, leaf: nat) {
    leaf < |states| && Next(ops, states[leaf]).Some?
  }

  /** What the next step of a leaf frees; it may free nothing. */
  ghost function Release<S, E>(ops: LeafOps<S, E>, states: seq<State<S>>, leaf: nat): nat
    requires CanStep(ops, states, leaf)
  {
    var usage, next := Usage(ops, states[leaf]), Usage(ops, Next(ops, states[leaf]).value);
    if next < usage then usage - next else 0
  }

  ghost function Stepped<S, E>(ops: LeafOps<S, E>, states: seq<State<S>>, leaf: nat): seq<State<S>>
    requires CanStep(ops, states, leaf)
  {
    states[leaf := Next(ops, states[leaf]).value]
  }

  /** Of all leaves with a step left: the smallest release, then the largest usage, then the first in the tree. */
  ghost predicate BestStep<S, E>(ops: LeafOps<S, E>, states: seq<State<S>>, order: seq<nat>, p: nat) {
    && p < |order| && CanStep(ops, states, order[p])
    && forall q: nat :: q < |order| && CanStep(ops, states, order[q]) ==>
         || Release(ops, states, order[p]) < Release(ops, states, order[q])
         || (Release(ops, states, order[p]) == Release(ops, states, order[q])
             && (|| Usage(ops, states[order[p]]) > Usage(ops, states[order[q]])
                 || (Usage(ops, states[order[p]]) == Usage(ops, states[order[q]]) && p <= q)))
  }

  /** The best leaf, and no other, takes its next step. */
  ghost predicate BestTaken<S, E>(ops: LeafOps<S, E>, before: seq<State<S>>, now: seq<State<S>>, order: seq<nat>) {
    exists p: nat :: BestStep(ops, before, order, p) && now == Stepped(ops, before, order[p])
  }

  /** A leaf with a step left: its usage and what the step releases. */
  datatype Candidate = Candidate(leaf: nat, usage: nat, released: nat)

  /** The first candidate with the smallest release and, among those, the largest usage. */
  ghost predicate Selected(candidates: seq<Candidate>, selected: nat) {
    && selected < |candidates|
    && (forall k :: 0 <= k < |candidates| ==>
          || candidates[selected].released < candidates[k].released
          || (candidates[selected].released == candidates[k].released
              && candidates[selected].usage >= candidates[k].usage))
    && (forall k :: 0 <= k < selected ==>
          candidates[selected].released < candidates[k].released || candidates[selected].usage > candidates[k].usage)
  }

  /** The candidates of a tree: its leaves with a step left, in order. */
  ghost function CandidatesOf<S, E>(ops: LeafOps<S, E>, states: seq<State<S>>, order: seq<nat>): seq<Candidate> {
    if order == [] then []
    else
      var n := |order| - 1;
      CandidatesOf(ops, states, order[..n])
        + if CanStep(ops, states, order[n]) then [CandidateAt(ops, states, order[n])] else []
  }

  ghost function CandidateAt<S, E>(ops: LeafOps<S, E>, states: seq<State<S>>, leaf: nat): Candidate
    requires CanStep(ops, states, leaf)
  {
    Candidate(leaf, Usage(ops, states[leaf]), Release(ops, states, leaf))
  }

  lemma {:induction false} CandidatesConcat<S, E>(ops: LeafOps<S, E>, states: seq<State<S>>, a: seq<nat>, b: seq<nat>)
    ensures CandidatesOf(ops, states, a + b) == CandidatesOf(ops, states, a) + CandidatesOf(ops, states, b)
  {
    if b == [] {
      assert a + b == a;
    } else {
      var n := |b| - 1;
      assert (a + b)[..|a| + n] == a + b[..n];
      CandidatesConcat(ops, states, a, b[..n]);
    }
  }

  lemma {:induction false} OnlyCandidate<S, E>(ops: LeafOps<S, E>, states: seq<State<S>>, leaf: nat)
    ensures CandidatesOf(ops, states, [leaf])
              == if CanStep(ops, states, leaf) then [CandidateAt(ops, states, leaf)] else []
  {
    assert [leaf][..0] == [];
  }

  lemma {:induction false} CandidatesListed<S, E>(ops: LeafOps<S, E>, states: seq<State<S>>, order: seq<nat>)
    ensures forall q :: 0 <= q < |order| && CanStep(ops, states, order[q]) ==>
              CandidateAt(ops, states, order[q]) in CandidatesOf(ops, states, order)
    ensures forall c :: c in CandidatesOf(ops, states, order) ==>
              c.leaf in order && CanStep(ops, states, c.leaf) && c == CandidateAt(ops, states, c.leaf)
  {
    if order != [] {
      var n := |order| - 1;
      CandidatesListed(ops, states, order[..n]);
      assert order == order[..n] + [order[n]];
    }
  }

  lemma {:induction false} NoCandidates<S, E>(ops: LeafOps<S, E>, states: seq<State<S>>, tree: Tree)
    requires CandidatesOf(ops, states, Order(tree)) == []
    ensures Exhausted(ops, states, LeavesOf(tree))
  {
    CandidatesListed(ops, states, Order(tree));
    OrderLists(tree);
    forall leaf | leaf in LeavesOf(tree) && leaf < |states|
      ensures Next(ops, states[leaf]).None?
    {
      var q :| 0 <= q < |Order(tree)| && Order(tree)[q] == leaf;
      assert !CanStep(ops, states, Order(tree)[q]);
    }
  }

  /** The selected candidate is the best leaf of the tree. */
  lemma {:induction false} SelectedIsBest<S, E>(ops: LeafOps<S, E>, states: seq<State<S>>, order: seq<nat>,
                                                selected: nat)
      returns (p: nat)
    requires Selected(CandidatesOf(ops, states, order), selected)
    ensures BestStep(ops, states, order, p) && order[p] == CandidatesOf(ops, states, order)[selected].leaf
  {
    var n := |order| - 1;
    var before, now := CandidatesOf(ops, states, order[..n]), CandidatesOf(ops, states, order);
    assert now[..|before|] == before;
    assert CanStep(ops, states, order[n]) ==> now[|before|] == CandidateAt(ops, states, order[n]);
    if selected < |before| {
      assert forall k :: 0 <= k < |before| ==> now[k] == before[k];
      p := SelectedIsBest(ops, states, order[..n], selected);
      CandidatesListed(ops, states, order[..n]);
      assert before[selected] in before;
      assert forall q :: 0 <= q < n ==> order[..n][q] == order[q];
    } else {
      p := n;
      LastIsBest(ops, states, order);
    }
  }

  lemma {:induction false} LastIsBest<S, E>(ops: LeafOps<S, E>, states: seq<State<S>>, order: seq<nat>)
    requires order != [] && CanStep(ops, states, order[|order| - 1])
    requires Selected(CandidatesOf(ops, states, order), |CandidatesOf(ops, states, order[..|order| - 1])|)
    ensures BestStep(ops, states, order, |order| - 1)
  {
    var n := |order| - 1;
    var before, now := CandidatesOf(ops, states, order[..n]), CandidatesOf(ops, states, order);
    CandidatesListed(ops, states, order[..n]);
    assert now == before + [CandidateAt(ops, states, order[n])];
    hide CandidatesOf, CanStep;
    forall q: nat | q < n && CanStep(ops, states, order[q])
      ensures var c := CandidateAt(ops, states, order[q]);
              now[|before|].released < c.released
              || (now[|before|].released == c.released && now[|before|].usage > c.usage)
    {
      assert order[..n][q] == order[q];
      var k :| 0 <= k < |before| && before[k] == CandidateAt(ops, states, order[q]);
      assert now[k] == before[k];
    }
  }

  // ----- which steps a limit needs -----

  /** A leaf that exceeds the limit by itself takes its next step. */
  ghost predicate TooLarge<S(!new), E>(ops: LeafOps<S, E>, leaves: set<nat>, limit: nat, before: seq<State<S>>,
                                       now: seq<State<S>>) {
    exists leaf :: leaf in leaves && CanStep(ops, before, leaf) && Usage(ops, before[leaf]) > limit
                   && now == Stepped(ops, before, leaf)
  }

  /** No leaf with a step left exceeds the limit by itself. */
  ghost predicate NoneTooLarge<S, E>(ops: LeafOps<S, E>, leaves: set<nat>, limit: nat, states: seq<State<S>>) {
    forall leaf :: leaf in leaves && CanStep(ops, states, leaf) ==> Usage(ops, states[leaf]) <= limit
  }

  /**
   A step for one limit: of a leaf that exceeds it by itself, or of the best leaf while the tree exceeds it. A hard
   limit lets no best leaf step before those leaves have (unless steps can make leaves larger).
   */
  ghost predicate Pressed<S(!new), E>(ops: LeafOps<S, E>, tree: Tree, limit: nat, soft: bool, before: seq<State<S>>,
                                      now: seq<State<S>>) {
    || TooLarge(ops, LeavesOf(tree), limit, before, now)
    || (BestWhileOver(ops, tree, limit, before, now)
        && (!soft && Shrinking(ops) ==> NoneTooLarge(ops, LeavesOf(tree), limit, before)))
  }

  /** A step that the limit of some policy node asks for. */
  ghost predicate Needed<S(!new), E>(ops: LeafOps<S, E>, tree: Tree, soft: bool, before: seq<State<S>>,
                                     now: seq<State<S>>) {
    match tree
    case Adaptive(_) => false
    case Fixed(_) => false
    case All(children) => NeededByAll(ops, children, soft, before, now)
    case Inspect(child) => Needed(ops, child, soft, before, now)
    case Details(child, limit, _) =>
      || Needed(ops, child, soft, before, now)
      || (limit.Some? && Pressed(ops, child, Allowed(limit.value, soft), soft, before, now))
  }

  ghost predicate NeededByAll<S(!new), E>(ops: LeafOps<S, E>, forest: Forest, soft: bool, before: seq<State<S>>,
                                          now: seq<State<S>>) {
    match forest
    case Empty => false
    case Grown(first, rest) => Needed(ops, first, soft, before, now) || NeededByAll(ops, rest, soft, before, now)
  }

  /** The run goes from one state of the leaves to another by steps that the limits of the tree ask for. */
  ghost predicate Leads<S(!new), E>(ops: LeafOps<S, E>, tree: Tree, soft: bool, run: seq<seq<State<S>>>,
                                    before: seq<State<S>>, now: seq<State<S>>) {
    && run != [] && run[0] == before && run[|run| - 1] == now
    && forall i, j :: 0 <= i < j < |run| && j == i + 1 ==> Needed(ops, tree, soft, run[i], run[j])
  }

  /** The run steps the best leaf as long as the tree exceeds the limit. */
  ghost predicate Descends<S(!new), E>(ops: LeafOps<S, E>, tree: Tree, limit: nat, run: seq<seq<State<S>>>,
                                       before: seq<State<S>>, now: seq<State<S>>) {
    && run != [] && run[0] == before && run[|run| - 1] == now
    && forall i, j :: 0 <= i < j < |run| && j == i + 1 ==> BestWhileOver(ops, tree, limit, run[i], run[j])
  }

  ghost predicate BestWhileOver<S(!new), E>(ops: LeafOps<S, E>, tree: Tree, limit: nat, before: seq<State<S>>,
                                            now: seq<State<S>>) {
    Bytes(tree, UsagesOf(ops, before)) > limit && BestTaken(ops, before, now, Order(tree))
  }

  lemma {:induction false} DescentStep<S(!new), E>(ops: LeafOps<S, E>, tree: Tree, limit: nat, run: seq<seq<State<S>>>,
                                                   before: seq<State<S>>, now: seq<State<S>>, next: seq<State<S>>)
    requires Descends(ops, tree, limit, run, before, now)
    requires BestWhileOver(ops, tree, limit, now, next)
    ensures Descends(ops, tree, limit, run + [next], before, next)
  {
    var all := run + [next];
    hide BestWhileOver;
    forall i, j | 0 <= i < j < |all| && j == i + 1
      ensures BestWhileOver(ops, tree, limit, all[i], all[j])
    {
      assert all[i] == run[i] && (j < |run| ==> all[j] == run[j]);
    }
  }

  lemma {:induction false} DescentStays<S(!new), E>(ops: LeafOps<S, E>, tree: Tree, limit: nat, run: seq<seq<State<S>>>,
                                                    before: seq<State<S>>, now: seq<State<S>>)
    requires Descends(ops, tree, limit, run, before, now)
    ensures Bytes(tree, UsagesOf(ops, before)) <= limit ==> now == before
  {
    assert |run| > 1 ==> BestWhileOver(ops, tree, limit, run[0], run[1]);
  }

  /** If it starts without such a leaf, the run never meets one. */
  lemma {:induction false} DescentAllows<S(!new), E>(ops: LeafOps<S, E>, tree: Tree, limit: nat,
                                                     run: seq<seq<State<S>>>, before: seq<State<S>>, now: seq<State<S>>,
                                                     i: nat)
    requires Descends(ops, tree, limit, run, before, now) && i < |run|
    requires Shrinking(ops) && NoneTooLarge(ops, LeavesOf(tree), limit, before)
    ensures NoneTooLarge(ops, LeavesOf(tree), limit, run[i])
  {
    if i > 0 {
      DescentAllows(ops, tree, limit, run, before, now, i - 1);
      assert BestWhileOver(ops, tree, limit, run[i - 1], run[i]);
    }
  }

  lemma {:induction false} DescentLeads<S(!new), E>(ops: LeafOps<S, E>, tree: Tree, limit: nat, soft: bool,
                                                    run: seq<seq<State<S>>>, before: seq<State<S>>, now: seq<State<S>>)
    requires Descends(ops, tree, Allowed(limit, soft), run, before, now)
    requires !soft && Shrinking(ops) ==> NoneTooLarge(ops, LeavesOf(tree), limit, before)
    ensures Leads(ops, Details(tree, Some(limit), 0), soft, run, before, now)
  {
    forall i, j | 0 <= i < j < |run| && j == i + 1
      ensures Needed(ops, Details(tree, Some(limit), 0), soft, run[i], run[j])
    {
      assert BestWhileOver(ops, tree, Allowed(limit, soft), run[i], run[j]);
      if !soft && Shrinking(ops) {
        DescentAllows(ops, tree, limit, run, before, now, i);
      }
      assert Pressed(ops, tree, Allowed(limit, soft), soft, run[i], run[j]);
    }
  }

  lemma {:induction false} Joined<S(!new), E>(ops: LeafOps<S, E>, tree: Tree, soft: bool, run: seq<seq<State<S>>>,
                                              more: seq<seq<State<S>>>, a: seq<State<S>>, b: seq<State<S>>,
                                              c: seq<State<S>>)
    requires Leads(ops, tree, soft, run, a, b) && Leads(ops, tree, soft, more, b, c)
    ensures Leads(ops, tree, soft, run + more[1..], a, c)
  {
    var all := run + more[1..];
    forall i, j | 0 <= i < j < |all| && j == i + 1
      ensures Needed(ops, tree, soft, all[i], all[j])
    {
      if j < |run| {
        assert all[i] == run[i] && all[j] == run[j];
      } else {
        assert all[i] == more[i - |run| + 1] && all[j] == more[j - |run| + 1];
      }
    }
  }

  /** The second tree is the first one with a node above it. */
  ghost predicate Above(child: Tree, parent: Tree) {
    match parent
    case Adaptive(_) => false
    case Fixed(_) => false
    case All(children) => children.Grown? && (child == children.first || child == All(children.rest))
    case Inspect(inner) => child == inner
    case Details(inner, _, _) => child == inner
  }

  lemma {:induction false} Lifted<S(!new), E>(ops: LeafOps<S, E>, child: Tree, parent: Tree, soft: bool,
                                              run: seq<seq<State<S>>>, before: seq<State<S>>, now: seq<State<S>>)
    requires Above(child, parent) && Leads(ops, child, soft, run, before, now)
    ensures Leads(ops, parent, soft, run, before, now)
  {
    forall i, j | 0 <= i < j < |run| && j == i + 1
      ensures Needed(ops, parent, soft, run[i], run[j])
    {
      assert Needed(ops, child, soft, run[i], run[j]);
    }
  }

  lemma {:induction false} ShapeNeeds<S(!new), E>(ops: LeafOps<S, E>, tree: Tree, soft: bool, before: seq<State<S>>,
                                                  now: seq<State<S>>)
    ensures Needed(ops, Shape(tree), soft, before, now) == Needed(ops, tree, soft, before, now)
  {
    match tree
    case Adaptive(_) =>
    case Fixed(_) =>
    case All(children) => ShapeOfAllNeeds(ops, children, soft, before, now);
    case Inspect(child) => ShapeNeeds(ops, child, soft, before, now);
    case Details(child, _, _) =>
      ShapeNeeds(ops, child, soft, before, now);
      ShapeDecides(child);
      ShapeMeasures(child, UsagesOf(ops, before), soft);
  }

  lemma {:induction false} ShapeOfAllNeeds<S(!new), E>(ops: LeafOps<S, E>, forest: Forest, soft: bool,
                                                       before: seq<State<S>>, now: seq<State<S>>)
    ensures NeededByAll(ops, ShapeOfAll(forest), soft, before, now) == NeededByAll(ops, forest, soft, before, now)
  {
    match forest
    case Empty =>
    case Grown(first, rest) =>
      ShapeNeeds(ops, first, soft, before, now);
      ShapeOfAllNeeds(ops, rest, soft, before, now);
  }

  lemma {:induction false} SameNeeds<S(!new), E>(ops: LeafOps<S, E>, a: Tree, b: Tree, soft: bool,
                                                 run: seq<seq<State<S>>>, before: seq<State<S>>, now: seq<State<S>>)
    requires Shape(a) == Shape(b) && Leads(ops, a, soft, run, before, now)
    ensures Leads(ops, b, soft, run, before, now)
  {
    forall i, j | 0 <= i < j < |run| && j == i + 1
      ensures Needed(ops, b, soft, run[i], run[j])
    {
      ShapeNeeds(ops, a, soft, run[i], run[j]);
      ShapeNeeds(ops, b, soft, run[i], run[j]);
    }
  }

  /** No step is needed in a tree that fits. */
  lemma {:induction false} NeededOver<S(!new), E>(ops: LeafOps<S, E>, tree: Tree, soft: bool, before: seq<State<S>>,
                                                  now: seq<State<S>>)
    requires Needed(ops, tree, soft, before, now)
    ensures !Fits(tree, UsagesOf(ops, before), soft)
  {
    match tree
    case All(children) => NeededByAllOver(ops, children, soft, before, now);
    case Inspect(child) => NeededOver(ops, child, soft, before, now);
    case Details(child, limit, _) =>
      if Needed(ops, child, soft, before, now) {
        NeededOver(ops, child, soft, before, now);
      } else if TooLarge(ops, LeavesOf(child), Allowed(limit.value, soft), before, now) {
        var leaf :| leaf in LeavesOf(child) && CanStep(ops, before, leaf)
                    && Usage(ops, before[leaf]) > Allowed(limit.value, soft);
        LeafBytes(child, UsagesOf(ops, before), leaf);
      }
  }

  lemma {:induction false} NeededByAllOver<S(!new), E>(ops: LeafOps<S, E>, forest: Forest, soft: bool,
                                                       before: seq<State<S>>, now: seq<State<S>>)
    requires NeededByAll(ops, forest, soft, before, now)
    ensures !FitsAll(forest, UsagesOf(ops, before), soft)
  {
    match forest
    case Grown(first, rest) =>
      if Needed(ops, first, soft, before, now) {
        NeededOver(ops, first, soft, before, now);
      } else {
        NeededByAllOver(ops, rest, soft, before, now);
      }
  }

  lemma {:induction false} FittingStays<S(!new), E>(ops: LeafOps<S, E>, tree: Tree, soft: bool, run: seq<seq<State<S>>>,
                                                    before: seq<State<S>>, now: seq<State<S>>)
    requires Leads(ops, tree, soft, run, before, now) && Fits(tree, UsagesOf(ops, before), soft)
    ensures now == before
  {
    if |run| > 1 {
      NeededOver(ops, tree, soft, run[0], run[1]);
    }
  }

  // ----- fitting leaves one by one -----

  /** The given leaves are stepped until they fit, the others stay. */
  ghost predicate FittedEach<S(!new), E(!new)>(ops: LeafOps<S, E>, leaves: set<nat>, limit: nat, before: seq<State<S>>,
                                               now: seq<State<S>>)
    requires Lawful(ops)
  {
    && |before| == |now|
    && forall k :: 0 <= k < |now| ==> now[k] == if k in leaves then Fitted(ops, before[k], limit) else before[k]
  }

  lemma {:induction false} FittedTwice<S(!new), E(!new)>(ops: LeafOps<S, E>, leaves: set<nat>, more: set<nat>,
                                                         limit: nat, a: seq<State<S>>, b: seq<State<S>>,
                                                         c: seq<State<S>>)
    requires Lawful(ops) && FittedEach(ops, leaves, limit, a, b) && FittedEach(ops, more, limit, b, c)
    ensures FittedEach(ops, leaves + more, limit, a, c)
  {
    forall k | 0 <= k < |c|
      ensures c[k] == if k in leaves + more then Fitted(ops, a[k], limit) else a[k]
    {
      FittedEnds(ops, a[k], limit);
      FittedEnds(ops, b[k], limit);
    }
  }

  lemma {:induction false} FittedCoarser<S(!new), E(!new)>(ops: LeafOps<S, E>, leaves: set<nat>, limit: nat,
                                                           before: seq<State<S>>, now: seq<State<S>>)
    requires Lawful(ops) && FittedEach(ops, leaves, limit, before, now)
    ensures Coarser(ops, before, now, leaves)
  {
    forall k | 0 <= k < |now|
      ensures now[k] == before[k]
              || (k in leaves && Next(ops, before[k]).Some? && Rank(ops, now[k]) < Rank(ops, before[k]))
      ensures Shrinking(ops) ==> Usage(ops, now[k]) <= Usage(ops, before[k])
    {
      FittedEnds(ops, before[k], limit);
      if Shrinking(ops) {
        FittedShrinks(ops, before[k], limit);
      }
    }
  }

  lemma {:induction false} FittedExhausted<S(!new), E(!new)>(ops: LeafOps<S, E>, leaves: set<nat>, limit: nat,
                                                             before: seq<State<S>>, now: seq<State<S>>)
    requires Lawful(ops) && FittedEach(ops, leaves, limit, before, now) && Exhausted(ops, before, leaves)
    ensures now == before
  {
  }

  lemma {:induction false} FittedShrinks<S(!new), E(!new)>(ops: LeafOps<S, E>, state: State<S>, limit: nat)
    requires Lawful(ops) && Shrinking(ops)
    ensures Usage(ops, Fitted(ops, state, limit)) <= Usage(ops, state)
    decreases Rank(ops, state)
  {
    if Usage(ops, state) > limit && Next(ops, state).Some? {
      FittedShrinks(ops, Next(ops, state).value, limit);
    }
  }

  /** Each of these steps is one of a leaf that exceeds the limit by itself. */
  lemma {:induction false} FittedRun<S(!new), E(!new)>(ops: LeafOps<S, E>, tree: Tree, limit: nat, soft: bool,
                                                       before: seq<State<S>>, now: seq<State<S>>, n: nat)
      returns (run: seq<seq<State<S>>>)
    requires Lawful(ops) && FittedEach(ops, LeavesOf(tree), Allowed(limit, soft), before, now) && n <= |now|
    ensures Leads(ops, Details(tree, Some(limit), 0), soft, run, before, now[..n] + before[n..])
  {
    if n == 0 {
      assert now[..0] + before[0..] == before;
      return [before];
    }
    var here, there := now[..n - 1] + before[n - 1..], now[..n] + before[n..];
    run := FittedRun(ops, tree, limit, soft, before, now, n - 1);
    if n - 1 in LeavesOf(tree) {
      var more := LeafRun(ops, tree, limit, soft, here, n - 1);
      assert there == here[n - 1 := Fitted(ops, here[n - 1], Allowed(limit, soft))];
      hide Leads;
      Joined(ops, Details(tree, Some(limit), 0), soft, run, more, before, here, there);
      run := run + more[1..];
    } else {
      assert there == here;
    }
  }

  lemma {:induction false} LeafRun<S(!new), E(!new)>(ops: LeafOps<S, E>, tree: Tree, limit: nat, soft: bool,
                                                     before: seq<State<S>>, leaf: nat)
      returns (run: seq<seq<State<S>>>)
    requires Lawful(ops) && leaf < |before| && leaf in LeavesOf(tree)
    ensures Leads(ops, Details(tree, Some(limit), 0), soft, run, before,
                  before[leaf := Fitted(ops, before[leaf], Allowed(limit, soft))])
    decreases Rank(ops, before[leaf])
  {
    var policy, allowed := Details(tree, Some(limit), 0), Allowed(limit, soft);
    if Usage(ops, before[leaf]) <= allowed || Next(ops, before[leaf]).None? {
      assert before[leaf := before[leaf]] == before;
      run := [before];
    } else {
      var next := Stepped(ops, before, leaf);
      var rest := LeafRun(ops, tree, limit, soft, next, leaf);
      assert TooLarge(ops, LeavesOf(tree), allowed, before, next);
      assert Needed(ops, policy, soft, before, next);
      assert Leads(ops, policy, soft, [before, next], before, next);
      var last := next[leaf := Fitted(ops, next[leaf], allowed)];
      assert last == before[leaf := Fitted(ops, before[leaf], allowed)];
      Joined(ops, policy, soft, [before, next], rest, before, next, last);
      run := [before, next] + rest[1..];
    }
  }

  // ----- moves -----

  /** The leaves of the tree went from one state to another by steps that its limits ask for. */
  ghost predicate Moves<S(!new), E>(ops: LeafOps<S, E>, tree: Tree, soft: bool, run: seq<seq<State<S>>>,
                                    before: seq<State<S>>, now: seq<State<S>>) {
    Coarser(ops, before, now, LeavesOf(tree)) && Leads(ops, tree, soft, run, before, now)
  }

  lemma {:induction false} NoMove<S(!new), E>(ops: LeafOps<S, E>, tree: Tree, soft: bool, states: seq<State<S>>)
    ensures Moves(ops, tree, soft, [states], states, states)
  {
  }

  lemma {:induction false} MovesOn<S(!new), E>(ops: LeafOps<S, E>, tree: Tree, soft: bool, run: seq<seq<State<S>>>,
                                               more: seq<seq<State<S>>>, a: seq<State<S>>, b: seq<State<S>>,
                                               c: seq<State<S>>)
      returns (all: seq<seq<State<S>>>)
    requires Moves(ops, tree, soft, run, a, b) && Moves(ops, tree, soft, more, b, c)
    ensures Moves(ops, tree, soft, all, a, c)
  {
    all := run + more[1..];
    Joined(ops, tree, soft, run, more, a, b, c);
    CoarserOn(ops, a, b, c, LeavesOf(tree));
  }

  lemma {:induction false} MovesUp<S(!new), E>(ops: LeafOps<S, E>, child: Tree, parent: Tree, soft: bool,
                                               run: seq<seq<State<S>>>, before: seq<State<S>>, now: seq<State<S>>)
    requires Above(child, parent) && Moves(ops, child, soft, run, before, now)
    ensures Moves(ops, parent, soft, run, before, now)
  {
    Lifted(ops, child, parent, soft, run, before, now);
    if parent.All? {
      GrownParts(parent.children.first, parent.children.rest);
    }
    CoarserTwice(ops, before, before, now, LeavesOf(parent), LeavesOf(child));
    assert LeavesOf(parent) + LeavesOf(child) == LeavesOf(parent);
  }

  lemma {:induction false} MovesSame<S(!new), E>(ops: LeafOps<S, E>, a: Tree, b: Tree, soft: bool,
                                                 run: seq<seq<State<S>>>, before: seq<State<S>>, now: seq<State<S>>)
    requires Shape(a) == Shape(b) && Moves(ops, a, soft, run, before, now)
    ensures Moves(ops, b, soft, run, before, now)
  {
    SameNeeds(ops, a, b, soft, run, before, now);
    SameShape(a, b);
  }

  lemma {:induction false} MovesElsewhere<S(!new), E>(ops: LeafOps<S, E>, tree: Tree, soft: bool,
                                                      run: seq<seq<State<S>>>, before: seq<State<S>>,
                                                      now: seq<State<S>>, leaves: set<nat>)
    requires Moves(ops, tree, soft, run, before, now) && leaves !! LeavesOf(tree)
    ensures AgreeOn(leaves, UsagesOf(ops, before), UsagesOf(ops, now))
  {
  }

  lemma {:induction false} MovesCoarser<S(!new), E>(ops: LeafOps<S, E>, tree: Tree, soft: bool, run: seq<seq<State<S>>>,
                                                    before: seq<State<S>>, now: seq<State<S>>)
    requires Moves(ops, tree, soft, run, before, now)
    ensures Coarser(ops, before, now, LeavesOf(tree))
  {
  }

  /** Steps that make no leaf larger leave none too large. */
  lemma {:induction false} MovesAllow<S(!new), E>(ops: LeafOps<S, E>, tree: Tree, soft: bool, run: seq<seq<State<S>>>,
                                                  before: seq<State<S>>, now: seq<State<S>>, leaves: set<nat>,
                                                  limit: nat)
    requires Moves(ops, tree, soft, run, before, now)
    requires Shrinking(ops) && NoneTooLarge(ops, leaves, limit, before)
    ensures NoneTooLarge(ops, leaves, limit, now)
  {
    forall leaf | leaf in leaves && CanStep(ops, now, leaf)
      ensures Usage(ops, now[leaf]) <= limit
    {
      assert now[leaf] == before[leaf] || Next(ops, before[leaf]).Some?;
    }
  }

  lemma {:induction false} DescentMoves<S(!new), E>(ops: LeafOps<S, E>, tree: Tree, limit: nat, soft: bool,
                                                    run: seq<seq<State<S>>>, before: seq<State<S>>, now: seq<State<S>>)
    requires Coarser(ops, before, now, LeavesOf(tree))
    requires Descends(ops, tree, Allowed(limit, soft), run, before, now)
    requires !soft && Shrinking(ops) ==> NoneTooLarge(ops, LeavesOf(tree), limit, before)
    ensures Moves(ops, Details(tree, Some(limit), 0), soft, run, before, now)
  {
    DescentLeads(ops, tree, limit, soft, run, before, now);
  }

  lemma {:induction false} FittedMoves<S(!new), E(!new)>(ops: LeafOps<S, E>, tree: Tree, limit: nat,
                                                         before: seq<State<S>>, now: seq<State<S>>)
      returns (run: seq<seq<State<S>>>)
    requires Lawful(ops) && FittedEach(ops, LeavesOf(tree), limit, before, now)
    ensures Moves(ops, Details(tree, Some(limit), 0), false, run, before, now)
    ensures NoneTooLarge(ops, LeavesOf(tree), limit, now)
  {
    forall leaf | leaf in LeavesOf(tree) && CanStep(ops, now, leaf)
      ensures Usage(ops, now[leaf]) <= limit
    {
      FittedEnds(ops, before[leaf], limit);
    }
    FittedCoarser(ops, LeavesOf(tree), limit, before, now);
    run := FittedRun(ops, tree, limit, false, before, now, |now|);
    assert now[..|now|] + before[|now|..] == now;
  }

  // ----- what is left when no step remains -----

  /** Some policy node exceeds its limit and no leaf below it has a step left. */
  ghost predicate Stuck<S, E>(ops: LeafOps<S, E>, tree: Tree, states: seq<State<S>>) {
    match tree
    case Adaptive(_) => false
    case Fixed(_) => false
    case All(children) => StuckAll(ops, children, states)
    case Inspect(child) => Stuck(ops, child, states)
    case Details(child, limit, _) =>
      || Stuck(ops, child, states)
      || (limit.Some? && Bytes(child, UsagesOf(ops, states)) > limit.value && Exhausted(ops, states, LeavesOf(child)))
  }

  ghost predicate StuckAll<S, E>(ops: LeafOps<S, E>, forest: Forest, states: seq<State<S>>) {
    match forest
    case Empty => false
    case Grown(first, rest) => Stuck(ops, first, states) || StuckAll(ops, rest, states)
  }

  lemma {:induction false} ShapeStuck<S, E>(ops: LeafOps<S, E>, tree: Tree, states: seq<State<S>>)
    ensures Stuck(ops, Shape(tree), states) == Stuck(ops, tree, states)
  {
    match tree
    case Adaptive(_) =>
    case Fixed(_) =>
    case All(children) => ShapeOfAllStuck(ops, children, states);
    case Inspect(child) => ShapeStuck(ops, child, states);
    case Details(child, _, _) =>
      ShapeStuck(ops, child, states);
      ShapeDecides(child);
      ShapeMeasures(child, UsagesOf(ops, states), false);
  }

  lemma {:induction false} ShapeOfAllStuck<S, E>(ops: LeafOps<S, E>, forest: Forest, states: seq<State<S>>)
    ensures StuckAll(ops, ShapeOfAll(forest), states) == StuckAll(ops, forest, states)
  {
    match forest
    case Empty =>
    case Grown(first, rest) =>
      ShapeStuck(ops, first, states);
      ShapeOfAllStuck(ops, rest, states);
  }

  /** Every policy node is within its soft target, or no leaf below it has a step left. */
  ghost predicate Relieved<S, E>(ops: LeafOps<S, E>, tree: Tree, states: seq<State<S>>) {
    match tree
    case Adaptive(_) => true
    case Fixed(_) => true
    case All(children) => RelievedAll(ops, children, states)
    case Inspect(child) => Relieved(ops, child, states)
    case Details(child, limit, _) =>
      && Relieved(ops, child, states)
      && (limit.Some? && Bytes(child, UsagesOf(ops, states)) > BuildTarget(limit.value) ==>
            Exhausted(ops, states, LeavesOf(child)))
  }

  ghost predicate RelievedAll<S, E>(ops: LeafOps<S, E>, forest: Forest, states: seq<State<S>>) {
    match forest
    case Empty => true
    case Grown(first, rest) => Relieved(ops, first, states) && RelievedAll(ops, rest, states)
  }

  lemma {:induction false} RelievedStays<S(!new), E>(ops: LeafOps<S, E>, tree: Tree, before: seq<State<S>>,
                                                     now: seq<State<S>>, moved: set<nat>)
    requires Shrinking(ops) && Coarser(ops, before, now, moved) && Relieved(ops, tree, before)
    ensures Relieved(ops, tree, now)
  {
    match tree
    case Adaptive(_) =>
    case Fixed(_) =>
    case All(children) => RelievedAllStays(ops, children, before, now, moved);
    case Inspect(child) => RelievedStays(ops, child, before, now, moved);
    case Details(child, limit, _) =>
      RelievedStays(ops, child, before, now, moved);
      Shrunk(child, UsagesOf(ops, before), UsagesOf(ops, now), false);
      if Exhausted(ops, before, LeavesOf(child)) {
        ExhaustedStays(ops, before, now, moved, LeavesOf(child));
      }
  }

  lemma {:induction false} RelievedAllStays<S(!new), E>(ops: LeafOps<S, E>, forest: Forest, before: seq<State<S>>,
                                                        now: seq<State<S>>, moved: set<nat>)
    requires Shrinking(ops) && Coarser(ops, before, now, moved) && RelievedAll(ops, forest, before)
    ensures RelievedAll(ops, forest, now)
  {
    match forest
    case Empty =>
    case Grown(first, rest) =>
      RelievedStays(ops, first, before, now, moved);
      RelievedAllStays(ops, rest, before, now, moved);
  }

  lemma {:induction false} RelievedMoves<S(!new), E>(ops: LeafOps<S, E>, tree: Tree, moved: Tree, soft: bool,
                                                     run: seq<seq<State<S>>>, before: seq<State<S>>, now: seq<State<S>>)
    requires Shrinking(ops) && Moves(ops, moved, soft, run, before, now) && Relieved(ops, tree, before)
    ensures Relieved(ops, tree, now)
  {
    RelievedStays(ops, tree, before, now, LeavesOf(moved));
  }

  /** Why a tree is refused: some policy node exceeds its limit, with no step left if steps never grow a leaf. */
  ghost predicate Refused<S(!new), E>(ops: LeafOps<S, E>, tree: Tree, states: seq<State<S>>) {
    !Fits(tree, UsagesOf(ops, states), false) && (Shrinking(ops) ==> Stuck(ops, tree, states))
  }

  lemma {:induction false} RefusedUp<S(!new), E>(ops: LeafOps<S, E>, child: Tree, parent: Tree, states: seq<State<S>>)
    requires Above(child, parent) && Refused(ops, child, states)
    ensures Refused(ops, parent, states)
  {
    match parent
    case All(children) =>
      GrownParts(children.first, children.rest);
      assert StuckAll(ops, children, states) <==>
               Stuck(ops, children.first, states) || StuckAll(ops, children.rest, states);
    case Inspect(_) =>
    case Details(_, _, _) =>
  }

  lemma {:induction false} RefusedSame<S(!new), E>(ops: LeafOps<S, E>, a: Tree, b: Tree, states: seq<State<S>>)
    requires Shape(a) == Shape(b) && Refused(ops, a, states)
    ensures Refused(ops, b, states)
  {
    SameMeasures(a, b, UsagesOf(ops, states), false);
    ShapeStuck(ops, a, states);
    ShapeStuck(ops, b, states);
  }

  /** Still over the limit after the steps towards it and more: none is left, unless a step made a leaf larger. */
  lemma {:induction false} StillOver<S(!new), E>(ops: LeafOps<S, E>, tree: Tree, limit: nat, stepped: seq<State<S>>,
                                                 now: seq<State<S>>)
    requires Coarser(ops, stepped, now, LeavesOf(tree)) && Bytes(tree, UsagesOf(ops, now)) > limit
    requires Bytes(tree, UsagesOf(ops, stepped)) <= limit || Exhausted(ops, stepped, LeavesOf(tree))
    ensures Refused(ops, Details(tree, Some(limit), 0), now)
  {
    if Shrinking(ops) {
      Shrunk(tree, UsagesOf(ops, stepped), UsagesOf(ops, now), false);
      ExhaustedStays(ops, stepped, now, LeavesOf(tree), LeavesOf(tree));
    }
  }

  /** A compiled tree fits, so only the policy's own limit can be the reason for refusing it. */
  lemma {:induction false} PolicyRefused<S(!new), E>(ops: LeafOps<S, E>, child: Tree, schema: Tree, limit: nat,
                                                     recorded: nat, before: seq<State<S>>, between: seq<State<S>>,
                                                     now: seq<State<S>>)
    requires Compiles(child, schema, UsagesOf(ops, before))
    requires Coarser(ops, before, between, LeavesOf(child)) && Coarser(ops, between, now, LeavesOf(child))
    requires Bytes(child, UsagesOf(ops, between)) <= limit || Exhausted(ops, between, LeavesOf(child))
    requires Refused(ops, child, now) || Bytes(child, UsagesOf(ops, now)) > limit
    ensures Refused(ops, Details(schema, Some(limit), recorded), now)
  {
    CompiledMeasures(child, schema, UsagesOf(ops, before), UsagesOf(ops, between));
    CompiledMeasures(child, schema, UsagesOf(ops, before), UsagesOf(ops, now));
    if Bytes(child, UsagesOf(ops, now)) > limit {
      StillOver(ops, schema, limit, between, now);
      RefusedSame(ops, Details(schema, Some(limit), 0), Details(schema, Some(limit), recorded), now);
    } else if Shrinking(ops) {
      CoarserOn(ops, before, between, now, LeavesOf(child));
      Shrunk(child, UsagesOf(ops, before), UsagesOf(ops, now), false);
      assert false;
    }
  }
}
