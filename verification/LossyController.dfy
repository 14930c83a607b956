/**
 The memory controller of lossy policies: leaves are stepped one level at a time until every policy node fits, and the
 final gate checks each nested limit.
 */
module LossyController {
  import opened Bitmaps
  import opened AdaptiveLeaves
  import opened LossyTrees
  import opened LossySteps

  /** The smallest release, then the largest usage, then the first. */
  method SelectCandidate(candidates: seq<Candidate>) returns (selected: nat)
    requires candidates != []
    ensures Selected(candidates, selected)
  {
    selected := 0;
    var i := 1;
    while i < |candidates|
      invariant 1 <= i <= |candidates| && selected < i
      invariant Selected(candidates[..i], selected)
    {
      if candidates[i].released < candidates[selected].released
         || (candidates[i].released == candidates[selected].released
             && candidates[i].usage > candidates[selected].usage) {
        selected := i;
      }
      i := i + 1;
    }
    assert candidates[..i] == candidates;
  }

  class Controller<S(!new), E(!new)> {
    const ops: LeafOps<S, E>
    const leaves: seq<AdaptiveLeaf<S, E>>

    ghost predicate Valid()
      reads leaves
    {
      && Lawful(ops)
      && (forall i, j :: 0 <= i < j < |leaves| ==> leaves[i] != leaves[j])
      && (forall i :: 0 <= i < |leaves| ==> leaves[i].ops == ops && leaves[i].Valid())
    }

    constructor (ops: LeafOps<S, E>, leaves: seq<AdaptiveLeaf<S, E>>)
      requires Lawful(ops) && forall i, j :: 0 <= i < j < |leaves| ==> leaves[i] != leaves[j]
      requires forall i :: 0 <= i < |leaves| ==> leaves[i].ops == ops && leaves[i].Valid()
      ensures Valid() && this.ops == ops && this.leaves == leaves
    {
      this.ops, this.leaves := ops, leaves;
    }

    ghost function States(): (states: seq<State<S>>)
      reads leaves
      ensures |states| == |leaves| && forall k :: 0 <= k < |leaves| ==> states[k] == leaves[k].Current()
    {
      seq(|leaves|, k requires 0 <= k < |leaves| reads leaves => leaves[k].Current())
    }

    /** The entries that each leaf has received. */
    ghost function Received(): (received: seq<seq<E>>)
      reads leaves
      ensures |received| == |leaves| && forall k :: 0 <= k < |leaves| ==> received[k] == leaves[k].inserted
    {
      seq(|leaves|, k requires 0 <= k < |leaves| reads leaves => leaves[k].inserted)
    }

    ghost function Usages(): seq<nat>
      reads leaves
    {
      UsagesOf(ops, States())
    }

    /** The leaf's next step has been previewed and exists. */
    ghost predicate Prepared(leaf: nat)
      reads leaves
    {
      leaf < |leaves| && leaves[leaf].nextUsagePrepared && leaves[leaf].nextUsageOK
    }

    ghost predicate Within(part: set<nat>) {
      forall leaf :: leaf in part ==> leaf < |leaves|
    }

    method PreviewLeaf(leaf: nat) returns (usage: Option<nat>)
      requires Valid() && leaf < |leaves|
      modifies leaves[leaf]
      ensures Valid() && States() == old(States()) && Received() == old(Received())
      ensures usage == if Next(ops, States()[leaf]).Some? then Some(Usage(ops, Next(ops, States()[leaf]).value))
                else None
      ensures usage.Some? <==> Prepared(leaf)
      ensures forall k :: old(Prepared(k)) ==> Prepared(k)
    {
      usage := leaves[leaf].NextStreamingUsage();
      assert forall k :: 0 <= k < |leaves| ==>
               leaves[k].Current() == old(States())[k] && leaves[k].inserted == old(Received())[k];
    }

    method StepLeaf(leaf: nat)
      requires Valid() && Prepared(leaf)
      modifies leaves[leaf]
      ensures Valid() && Received() == old(Received())
      ensures Coarser(ops, old(States()), States(), {leaf}) && States() != old(States())
      ensures old(CanStep(ops, States(), leaf)) && States() == old(Stepped(ops, States(), leaf))
    {
      leaves[leaf].FitStreamingNext();
      assert forall k :: 0 <= k < |leaves| ==> leaves[k].inserted == old(Received())[k];
      assert forall k :: 0 <= k < |leaves| && k != leaf ==> leaves[k].Current() == old(States())[k];
      NextRanksLower(ops, old(States())[leaf]);
      assert States()[leaf] != old(States())[leaf];
    }

    lemma {:induction false} NextRanksLower(ops: LeafOps<S, E>, state: State<S>)
      requires Lawful(ops) && Next(ops, state).Some?
      ensures Rank(ops, Next(ops, state).value) < Rank(ops, state)
    {
    }

    method FitLeaf(leaf: nat, limit: nat)
      requires Valid() && leaf < |leaves|
      modifies leaves[leaf]
      ensures Valid() && Received() == old(Received()) && FittedEach(ops, {leaf}, limit, old(States()), States())
    {
      leaves[leaf].FitStreamingLimit(limit);
      assert forall k :: 0 <= k < |leaves| ==> leaves[k].inserted == old(Received())[k];
      assert forall k :: 0 <= k < |leaves| && k != leaf ==> leaves[k].Current() == old(States())[k];
    }

    /** The usage of a tree and all of its leaves that have a step left, from left to right. */
    method Collect(tree: Tree) returns (usage: nat, candidates: seq<Candidate>)
      requires Valid() && Within(LeavesOf(tree))
      modifies leaves
      ensures Valid() && States() == old(States()) && Received() == old(Received())
      ensures forall k :: old(Prepared(k)) ==> Prepared(k)
      ensures usage == Bytes(tree, Usages()) && candidates == CandidatesOf(ops, States(), Order(tree))
      ensures forall leaf :: leaf in LeavesOf(tree) && CanStep(ops, States(), leaf) ==> Prepared(leaf)
      decreases tree
    {
      match tree
      case Adaptive(leaf) =>
        assert leaf in LeavesOf(tree);
        usage, candidates := ops.usage(leaves[leaf].child), [];
        var next := PreviewLeaf(leaf);
        if next.Some? {
          candidates := [Candidate(leaf, usage, if next.value < usage then usage - next.value else 0)];
        }
        OnlyCandidate(ops, States(), leaf);
      case Fixed(bytes) =>
        usage, candidates := bytes, [];
      case All(children) =>
        usage, candidates := CollectAll(children);
      case Inspect(child) =>
        usage, candidates := Collect(child);
      case Details(child, _, _) =>
        usage, candidates := Collect(child);
    }

    method CollectAll(forest: Forest) returns (usage: nat, candidates: seq<Candidate>)
      requires Valid() && Within(LeavesOfAll(forest))
      modifies leaves
      ensures Valid() && States() == old(States()) && Received() == old(Received())
      ensures forall k :: old(Prepared(k)) ==> Prepared(k)
      ensures usage == BytesOfAll(forest, Usages()) && candidates == CandidatesOf(ops, States(), OrderOfAll(forest))
      ensures forall leaf :: leaf in LeavesOfAll(forest) && CanStep(ops, States(), leaf) ==> Prepared(leaf)
      decreases forest
    {
      match forest
      case Empty =>
        usage, candidates := 0, [];
      case Grown(first, rest) =>
        var firstUsage, firstCandidates := Collect(first);
        var restUsage, restCandidates := CollectAll(rest);
        usage, candidates := firstUsage + restUsage, firstCandidates + restCandidates;
        CandidatesConcat(ops, States(), Order(first), OrderOfAll(rest));
    }

    /** Each leaf of the tree is stepped by itself until it fits the limit or has no step left. */
    method FitRule(tree: Tree, limit: nat)
      requires Valid() && Within(LeavesOf(tree))
      modifies leaves
      ensures Valid() && Received() == old(Received())
      ensures FittedEach(ops, LeavesOf(tree), limit, old(States()), States())
      decreases tree
    {
      match tree
      case Adaptive(leaf) =>
        assert leaf in LeavesOf(tree);
        FitLeaf(leaf, limit);
      case Fixed(_) =>
      case All(children) => FitRules(children, limit);
      case Inspect(child) => FitRule(child, limit);
      case Details(child, _, _) => FitRule(child, limit);
    }

    method FitRules(forest: Forest, limit: nat)
      requires Valid() && Within(LeavesOfAll(forest))
      modifies leaves
      ensures Valid() && Received() == old(Received())
      ensures FittedEach(ops, LeavesOfAll(forest), limit, old(States()), States())
      decreases forest
    {
      match forest
      case Empty =>
      case Grown(first, rest) =>
        FitRule(first, limit);
        ghost var between := States();
        FitRules(rest, limit);
        FittedTwice(ops, LeavesOf(first), LeavesOfAll(rest), limit, old(States()), between, States());
    }

    /**
     Steps one leaf at a time, always the best one, until the tree fits or no leaf has a step left; `run` lists the
     states passed. It ends because every step uses up a level, even when it frees nothing. The terminal pass finds
     nothing to do.
     */
    method FitAggregateTo(tree: Tree, limit: nat, allowTerminal: bool) returns (ghost run: seq<seq<State<S>>>)
      requires Valid() && Within(LeavesOf(tree))
      modifies leaves
      ensures Valid() && Received() == old(Received()) && Coarser(ops, old(States()), States(), LeavesOf(tree))
      ensures Descends(ops, tree, limit, run, old(States()), States())
      ensures Bytes(tree, Usages()) <= limit || Exhausted(ops, States(), LeavesOf(tree))
    {
      run := [States()];
      while true
        invariant Valid() && Received() == old(Received()) && Coarser(ops, old(States()), States(), LeavesOf(tree))
        invariant Descends(ops, tree, limit, run, old(States()), States())
        decreases Sum(RanksOf(ops, States()))
      {
        hide Descends, BestTaken, Coarser;
        var usage, candidates := Collect(tree);
        if usage <= limit {
          return;
        }
        if candidates == [] {
          NoCandidates(ops, States(), tree);
          if allowTerminal {
            TerminalPass(tree, usage);
          }
          return;
        }
        ghost var before := States();
        StepSelected(tree, candidates);
        DescentStep(ops, tree, limit, run, old(States()), before, States());
        CoarserOn(ops, old(States()), before, States(), LeavesOf(tree));
        LevelsRunOut(ops, before, States(), LeavesOf(tree));
        run := run + [States()];
      }
    }

    /** The request for a terminal representation: without candidates it changes no leaf and asks for no other round. */
    method TerminalPass(tree: Tree, usage: nat)
      requires Valid() && Within(LeavesOf(tree)) && Exhausted(ops, States(), LeavesOf(tree))
               && usage == Bytes(tree, Usages())
      modifies leaves
      ensures Valid() && Received() == old(Received()) && States() == old(States())
    {
      FitRule(tree, 0);
      FittedExhausted(ops, LeavesOf(tree), 0, old(States()), States());
      var refreshed, _ := Collect(tree);
      assert refreshed == usage;
    }

    /** Exactly one leaf takes its next step: of all leaves of the tree, the best one. */
    method StepSelected(tree: Tree, candidates: seq<Candidate>)
      requires Valid() && Within(LeavesOf(tree)) && candidates != []
      requires candidates == CandidatesOf(ops, States(), Order(tree))
      requires forall leaf :: leaf in LeavesOf(tree) && CanStep(ops, States(), leaf) ==> Prepared(leaf)
      modifies leaves
      ensures Valid() && Received() == old(Received()) && States() != old(States())
      ensures BestTaken(ops, old(States()), States(), Order(tree))
      ensures Coarser(ops, old(States()), States(), LeavesOf(tree))
    {
      var selected := SelectCandidate(candidates);
      var leaf := candidates[selected].leaf;
      ghost var p := SelectedIsBest(ops, States(), Order(tree), selected);
      OrderLists(tree);
      assert leaf in Order(tree);
      hide BestStep, CandidatesOf;
      StepLeaf(leaf);
      assert BestStep(ops, old(States()), Order(tree), p);
    }

    /**
     A pressure checkpoint: inner policies first, each down to its soft target. No leaf is stepped unless a soft target
     asks for it.
     */
    method FitPolicies(tree: Tree) returns (ghost run: seq<seq<State<S>>>)
      requires Valid() && Within(LeavesOf(tree)) && Limited(tree)
      modifies leaves
      ensures Valid() && Received() == old(Received()) && Moves(ops, tree, true, run, old(States()), States())
      ensures tree.Details? && tree.limit.Some? ==>
                Bytes(tree, Usages()) <= BuildTarget(tree.limit.value) || Exhausted(ops, States(), LeavesOf(tree))
      ensures Shrinking(ops) ==> Relieved(ops, tree, States())
      decreases tree
    {
      hide Moves;
      run := [States()];
      NoMove(ops, tree, true, States());
      match tree
      case Adaptive(_) =>
      case Fixed(_) =>
      case All(children) =>
        run := FitAllPolicies(children);
      case Inspect(child) =>
        run := FitPolicies(child);
        MovesUp(ops, child, tree, true, run, old(States()), States());
      case Details(child, limit, _) =>
        run := FitPolicies(child);
        ghost var between := States();
        MovesUp(ops, child, tree, true, run, old(States()), between);
        if limit.Some? {
          var usage, _ := Collect(child);
          if usage > BuildTarget(limit.value) {
            ghost var more := RelievePolicy(child, limit.value);
            MovesSame(ops, Details(child, limit, 0), tree, true, more, between, States());
            run := MovesOn(ops, tree, true, run, more, old(States()), between, States());
          }
        }
    }

    /** Steps the best leaf below a policy until its soft target is met. */
    method RelievePolicy(child: Tree, limit: nat) returns (ghost run: seq<seq<State<S>>>)
      requires Valid() && Within(LeavesOf(child)) && limit <= MEMORY_LIMIT
      modifies leaves
      ensures Valid() && Received() == old(Received())
      ensures Moves(ops, Details(child, Some(limit), 0), true, run, old(States()), States())
      ensures Bytes(child, Usages()) <= BuildTarget(limit) || Exhausted(ops, States(), LeavesOf(child))
      ensures Shrinking(ops) && old(Relieved(ops, child, States())) ==> Relieved(ops, child, States())
    {
      hide Moves, Descends;
      run := FitAggregateTo(child, BuildTarget(limit), false);
      DescentMoves(ops, child, limit, true, run, old(States()), States());
      if Shrinking(ops) && old(Relieved(ops, child, States())) {
        RelievedStays(ops, child, old(States()), States(), LeavesOf(child));
      }
    }

    method FitAllPolicies(forest: Forest) returns (ghost run: seq<seq<State<S>>>)
      requires Valid() && Within(LeavesOfAll(forest)) && LimitedAll(forest)
      modifies leaves
      ensures Valid() && Received() == old(Received()) && Moves(ops, All(forest), true, run, old(States()), States())
      ensures Shrinking(ops) ==> RelievedAll(ops, forest, States())
      decreases forest
    {
      hide Moves;
      match forest
      case Empty =>
        run := [States()];
        NoMove(ops, All(forest), true, States());
      case Grown(first, rest) =>
        run := FitPolicies(first);
        ghost var between := States();
        ghost var more := FitAllPolicies(rest);
        MovesUp(ops, first, All(forest), true, run, old(States()), between);
        MovesUp(ops, All(rest), All(forest), true, more, between, States());
        run := MovesOn(ops, All(forest), true, run, more, old(States()), between, States());
        if Shrinking(ops) {
          RelievedMoves(ops, first, All(rest), true, more, between, States());
        }
    }

    /** All limits are 64-bit values. */
    ghost predicate Limited(tree: Tree) {
      match tree
      case Adaptive(_) => true
      case Fixed(_) => true
      case All(children) => LimitedAll(children)
      case Inspect(child) => Limited(child)
      case Details(child, limit, _) => Limited(child) && (limit.Some? ==> limit.value <= MEMORY_LIMIT)
    }

    ghost predicate LimitedAll(forest: Forest) {
      match forest
      case Empty => true
      case Grown(first, rest) => Limited(first) && LimitedAll(rest)
    }

    /**
     The final gate. It steps a leaf only where a limit asks for it. On success every nested policy node is within its
     limit and records its usage; it fails only if some policy node exceeds its limit in the end, with no step left if
     steps never make a leaf larger.
     */
    method Refresh(tree: Tree) returns (refreshed: Option<Tree>, usage: nat, ghost run: seq<seq<State<S>>>)
      requires Valid() && Within(LeavesOf(tree)) && Separate(tree)
      modifies leaves
      ensures Valid() && Received() == old(Received()) && Moves(ops, tree, false, run, old(States()), States())
      ensures refreshed.Some? ==> Settles(tree, refreshed.value, usage, Usages())
      ensures refreshed.None? ==> Refused(ops, tree, States())
      ensures old(Fits(tree, Usages(), false)) ==> refreshed.Some? && States() == old(States())
      decreases Shape(tree), 1
    {
      refreshed, usage, run := RefreshNode(tree);
      if old(Fits(tree, Usages(), false)) {
        FittingStays(ops, tree, false, run, old(States()), States());
      }
    }

    method RefreshNode(tree: Tree) returns (refreshed: Option<Tree>, usage: nat, ghost run: seq<seq<State<S>>>)
      requires Valid() && Within(LeavesOf(tree)) && Separate(tree)
      modifies leaves
      ensures Valid() && Received() == old(Received()) && Moves(ops, tree, false, run, old(States()), States())
      ensures refreshed.Some? ==> Settles(tree, refreshed.value, usage, Usages())
      ensures refreshed.None? ==> Refused(ops, tree, States())
      decreases Shape(tree), 0
    {
      hide Moves, Refused;
      run := [States()];
      NoMove(ops, tree, false, States());
      match tree
      case Adaptive(leaf) =>
        assert leaf in LeavesOf(tree);
        refreshed, usage := Some(tree), ops.usage(leaves[leaf].child);
      case Fixed(bytes) =>
        refreshed, usage := Some(tree), bytes;
      case All(children) =>
        var forest;
        forest, usage, run := RefreshAll(children);
        refreshed := if forest.Some? then Some(All(forest.value)) else None;
      case Inspect(child) =>
        var inner;
        inner, usage, run := Refresh(child);
        MovesUp(ops, child, tree, false, run, old(States()), States());
        if inner.None? {
          RefusedUp(ops, child, tree, States());
        }
        refreshed := if inner.Some? then Some(Inspect(inner.value)) else None;
      case Details(child, limit, _) =>
        var policy := Details(child, limit, 0);
        refreshed, usage, run := RefreshPolicy(child, limit);
        MovesSame(ops, policy, tree, false, run, old(States()), States());
        if refreshed.None? {
          RefusedSame(ops, policy, tree, States());
        }
    }

    method RefreshAll(forest: Forest)
      returns (refreshed: Option<Forest>, usage: nat, ghost run: seq<seq<State<S>>>)
      requires Valid() && Within(LeavesOfAll(forest)) && SeparateAll(forest)
      modifies leaves
      ensures Valid() && Received() == old(Received()) && Moves(ops, All(forest), false, run, old(States()), States())
      ensures refreshed.Some? ==> Settles(All(forest), All(refreshed.value), usage, Usages())
      ensures refreshed.None? ==> Refused(ops, All(forest), States())
      decreases ShapeOfAll(forest), 1
    {
      hide Moves, Refused;
      match forest
      case Empty =>
        NoMove(ops, All(forest), false, States());
        SettlesEmpty(Usages());
        return Some(Empty), 0, [States()];
      case Grown(first, rest) =>
        var head, headUsage;
        head, headUsage, run := Refresh(first);
        ghost var between := States();
        MovesUp(ops, first, All(forest), false, run, old(States()), between);
        if head.None? {
          RefusedUp(ops, first, All(forest), between);
          return None, 0, run;
        }
        var tail, tailUsage;
        ghost var more;
        tail, tailUsage, more := RefreshAll(rest);
        refreshed := if tail.Some? then Some(Grown(head.value, tail.value)) else None;
        usage := headUsage + tailUsage;
        run := RefreshedRest(first, rest, run, more, old(States()), between);
        if tail.None? {
          RefusedUp(ops, All(rest), All(forest), States());
        } else {
          MovesElsewhere(ops, All(rest), false, more, between, States(), LeavesOf(first));
          SettlesGrown(first, head.value, headUsage, rest, tail.value, tailUsage, UsagesOf(ops, between), Usages());
        }
    }

    lemma {:induction false} RefreshedRest(first: Tree, rest: Forest, run: seq<seq<State<S>>>,
                                           more: seq<seq<State<S>>>, before: seq<State<S>>, between: seq<State<S>>)
      returns (all: seq<seq<State<S>>>)
      requires Moves(ops, All(Grown(first, rest)), false, run, before, between)
      requires Moves(ops, All(rest), false, more, between, States())
      ensures Moves(ops, All(Grown(first, rest)), false, all, before, States())
    {
      MovesUp(ops, All(rest), All(Grown(first, rest)), false, more, between, States());
      all := MovesOn(ops, All(Grown(first, rest)), false, run, more, before, between, States());
    }

    method RefreshPolicy(child: Tree, limit: Option<nat>)
      returns (refreshed: Option<Tree>, usage: nat, ghost run: seq<seq<State<S>>>)
      requires Valid() && Within(LeavesOf(child)) && Separate(child)
      modifies leaves
      ensures Valid() && Received() == old(Received())
      ensures Moves(ops, Details(child, limit, 0), false, run, old(States()), States())
      ensures refreshed.Some? ==> Settles(Details(child, limit, 0), refreshed.value, usage, Usages())
      ensures refreshed.None? ==> Refused(ops, Details(child, limit, 0), States())
      decreases Shape(child), 3
    {
      hide Moves, Refused;
      ghost var policy := Details(child, limit, 0);
      var inner;
      inner, usage, run := RefreshChild(child, limit);
      if inner.None? {
        RefusedUp(ops, child, policy, States());
        return None, 0, run;
      }
      if limit.Some? && usage > limit.value {
        ghost var over, tight := States(), Details(inner.value, limit, 0);
        ghost var more;
        SameShape(inner.value, child);
        inner, usage, more := Enforce(inner.value, limit.value);
        MovesSame(ops, tight, policy, false, more, over, States());
        run := MovesOn(ops, policy, false, run, more, old(States()), over, States());
        if inner.None? {
          RefusedSame(ops, tight, policy, States());
          return None, 0, run;
        }
      }
      refreshed := Some(Details(inner.value, limit, usage));
    }

    /** Fits the leaves one by one, then refreshes what is below the policy. */
    method RefreshChild(child: Tree, limit: Option<nat>)
      returns (inner: Option<Tree>, usage: nat, ghost run: seq<seq<State<S>>>)
      requires Valid() && Within(LeavesOf(child)) && Separate(child)
      modifies leaves
      ensures Valid() && Received() == old(Received())
      ensures Moves(ops, Details(child, limit, 0), false, run, old(States()), States())
      ensures inner.Some? ==> Settles(child, inner.value, usage, Usages())
      ensures inner.None? ==> Refused(ops, child, States())
      ensures inner.Some? && limit.Some? && Shrinking(ops) ==>
                NoneTooLarge(ops, LeavesOf(child), limit.value, States())
      decreases Shape(child), 2
    {
      hide Moves, Refused, NoneTooLarge;
      ghost var policy := Details(child, limit, 0);
      run := FitLeaves(child, limit);
      ghost var fitted := States();
      ghost var more;
      inner, usage, more := Refresh(child);
      ghost var settled := States();
      MovesUp(ops, child, policy, false, more, fitted, settled);
      run := MovesOn(ops, policy, false, run, more, old(States()), fitted, settled);
      if limit.Some? && Shrinking(ops) {
        MovesAllow(ops, child, false, more, fitted, settled, LeavesOf(child), limit.value);
      }
      if inner.Some? {
        SameShape(inner.value, child);
        usage, more := RefreshLeaf(inner.value, limit, usage);
        MovesSame(ops, Details(inner.value, limit, 0), policy, false, more, settled, States());
        run := MovesOn(ops, policy, false, run, more, old(States()), settled, States());
        if limit.Some? && Shrinking(ops) {
          MovesAllow(ops, policy, false, more, settled, States(), LeavesOf(child), limit.value);
        }
      }
    }

    /** Every leaf below a policy with a limit is fitted to it by itself. */
    method FitLeaves(child: Tree, limit: Option<nat>) returns (ghost run: seq<seq<State<S>>>)
      requires Valid() && Within(LeavesOf(child))
      modifies leaves
      ensures Valid() && Received() == old(Received())
      ensures Moves(ops, Details(child, limit, 0), false, run, old(States()), States())
      ensures limit.Some? ==> NoneTooLarge(ops, LeavesOf(child), limit.value, States())
    {
      hide Moves, FittedEach, NoneTooLarge;
      if limit.Some? {
        FitRule(child, limit.value);
        run := FittedMoves(ops, child, limit.value, old(States()), States());
      } else {
        run := [States()];
        NoMove(ops, Details(child, limit, 0), false, States());
      }
    }

    /** Steps the whole subtree towards the limit, refreshes it again and fails if it still does not fit. */
    method Enforce(tree: Tree, limit: nat)
      returns (refreshed: Option<Tree>, usage: nat, ghost run: seq<seq<State<S>>>)
      requires Valid() && Within(LeavesOf(tree)) && Separate(tree)
      requires Shrinking(ops) ==> NoneTooLarge(ops, LeavesOf(tree), limit, States())
      modifies leaves
      ensures Valid() && Received() == old(Received())
      ensures Moves(ops, Details(tree, Some(limit), 0), false, run, old(States()), States())
      ensures refreshed.Some? ==> Settles(tree, refreshed.value, usage, Usages()) && usage <= limit
      ensures refreshed.None? ==> Refused(ops, Details(tree, Some(limit), 0), States())
      decreases Shape(tree), 2
    {
      hide Moves, Refused, Descends;
      ghost var policy := Details(tree, Some(limit), 0);
      run := FitAggregateTo(tree, limit, true);
      ghost var stepped := States();
      DescentMoves(ops, tree, limit, false, run, old(States()), stepped);
      ghost var more;
      refreshed, usage, more := Refresh(tree);
      MovesUp(ops, tree, policy, false, more, stepped, States());
      run := MovesOn(ops, policy, false, run, more, old(States()), stepped, States());
      if refreshed.None? {
        RefusedUp(ops, tree, policy, States());
      } else if usage > limit {
        SameMeasures(refreshed.value, tree, Usages(), false);
        MovesCoarser(ops, tree, false, more, stepped, States());
        StillOver(ops, tree, limit, stepped, States());
        refreshed := None;
      }
    }

    /** A policy directly above a leaf fits the leaf once more and takes its usage. */
    method RefreshLeaf(tree: Tree, limit: Option<nat>, before: nat) returns (usage: nat, ghost run: seq<seq<State<S>>>)
      requires Valid() && Within(LeavesOf(tree)) && Settled(tree, Usages()) && before == Bytes(tree, Usages())
      modifies leaves
      ensures Valid() && Received() == old(Received())
      ensures Moves(ops, Details(tree, limit, 0), false, run, old(States()), States())
      ensures Settled(tree, Usages()) && usage == Bytes(tree, Usages())
    {
      hide Moves;
      if tree.Adaptive? {
        assert tree.leaf in LeavesOf(tree);
        run := FitLeaves(tree, limit);
        usage := ops.usage(leaves[tree.leaf].child);
      } else {
        usage, run := before, [States()];
        NoMove(ops, Details(tree, limit, 0), false, States());
      }
    }

    // ----- compiling a lossy schema -----

    /** A schema is refused only for an unsupported leaf, or because some policy exceeds its limit in the end. */
    ghost predicate Rejected(schema: Tree)
      reads leaves
    {
      Supported(schema) ==> Refused(ops, schema, States())
    }

    /**
     Compiles a schema in which a Details node with a limit is a Lossy policy, an adaptive leaf a supported
     representation and a fixed leaf an unsupported one. Each policy fits its subtree, passes the gate and hands its
     limit down. A supported schema that fits is compiled as it is.
     */
    method Compile(schema: Tree) returns (compiled: Option<Tree>)
      requires Valid() && Within(LeavesOf(schema)) && Separate(schema)
      modifies leaves
      ensures Valid() && Received() == old(Received()) && Coarser(ops, old(States()), States(), LeavesOf(schema))
      ensures compiled.Some? ==> Compiles(compiled.value, schema, Usages())
      ensures compiled.Some? && schema.Details? && schema.limit.Some? ==>
                && Settled(compiled.value, Usages()) && Bytes(compiled.value, Usages()) <= schema.limit.value
                && LimitsNest(compiled.value, schema.limit.value)
      ensures compiled.None? ==> Rejected(schema)
      ensures Supported(schema) && old(Fits(schema, Usages(), false)) ==>
                compiled.Some? && States() == old(States())
      decreases schema, 0
    {
      hide Compiles, Refused;
      match schema
      case Adaptive(leaf) =>
        assert leaf in LeavesOf(schema);
        compiled := Some(Details(schema, None, ops.usage(leaves[leaf].child)));
        CompilesLeaf(leaf, ops.usage(leaves[leaf].child), Usages());
      case Fixed(_) =>
        compiled := None;
      case All(children) =>
        var forest := CompileAll(children);
        compiled := if forest.Some? then Some(All(forest.value)) else None;
      case Inspect(child) =>
        compiled := CompileInspect(child);
      case Details(child, limit, recorded) =>
        compiled := CompileDetails(child, limit, recorded);
    }

    method CompileInspect(child: Tree) returns (compiled: Option<Tree>)
      requires Valid() && Within(LeavesOf(child)) && Separate(child)
      modifies leaves
      ensures Valid() && Received() == old(Received()) && Coarser(ops, old(States()), States(), LeavesOf(child))
      ensures compiled.Some? ==> Compiles(compiled.value, Inspect(child), Usages())
      ensures compiled.None? ==> Rejected(Inspect(child))
      ensures Supported(child) && old(Fits(child, Usages(), false)) ==> compiled.Some? && States() == old(States())
      decreases child, 1
    {
      hide Compiles, Refused;
      var inner := Compile(child);
      if inner.None? {
        if Supported(child) {
          RefusedUp(ops, child, Inspect(child), States());
        }
        return None;
      }
      CompiledMeasures(inner.value, child, Usages(), Usages());
      var usage, _ := Collect(inner.value);
      CompilesObserved(inner.value, child, 0, usage, Usages());
      compiled := Some(Inspect(Details(inner.value, None, usage)));
    }

    method CompileDetails(child: Tree, limit: Option<nat>, recorded: nat) returns (compiled: Option<Tree>)
      requires Valid() && Within(LeavesOf(child)) && Separate(child)
      modifies leaves
      ensures Valid() && Received() == old(Received()) && Coarser(ops, old(States()), States(), LeavesOf(child))
      ensures compiled.Some? ==> Compiles(compiled.value, Details(child, limit, recorded), Usages())
      ensures compiled.Some? && limit.Some? ==>
                && Settled(compiled.value, Usages()) && Bytes(compiled.value, Usages()) <= limit.value
                && LimitsNest(compiled.value, limit.value)
      ensures compiled.None? ==> Rejected(Details(child, limit, recorded))
      ensures Supported(child) && old(Fits(Details(child, limit, recorded), Usages(), false)) ==>
                compiled.Some? && States() == old(States())
      decreases child, 1
    {
      hide Compiles, Refused, Coarser, Settled, LimitsNest;
      ghost var before := States();
      var inner := Compile(child);
      if inner.None? {
        if Supported(child) {
          RefusedUp(ops, child, Details(child, limit, recorded), States());
        }
        return None;
      }
      CompiledMeasures(inner.value, child, Usages(), Usages());
      CompilesObserved(inner.value, child, recorded, 0, Usages());
      if limit.None? {
        return inner;
      }
      ghost var between := States();
      compiled := CompilePolicy(inner.value, child, limit.value, recorded);
      CoarserOn(ops, before, between, States(), LeavesOf(child));
    }

    method CompileAll(forest: Forest) returns (compiled: Option<Forest>)
      requires Valid() && Within(LeavesOfAll(forest)) && SeparateAll(forest)
      modifies leaves
      ensures Valid() && Received() == old(Received()) && Coarser(ops, old(States()), States(), LeavesOfAll(forest))
      ensures compiled.Some? ==> Compiles(All(compiled.value), All(forest), Usages())
      ensures compiled.None? ==> Rejected(All(forest))
      ensures SupportedAll(forest) && old(FitsAll(forest, Usages(), false)) ==>
                compiled.Some? && States() == old(States())
      decreases forest
    {
      hide Compiles, Refused;
      match forest
      case Empty =>
        compiled := Some(Empty);
        CompilesEmpty(Usages());
      case Grown(first, rest) =>
        var head := Compile(first);
        ghost var between := States();
        if head.None? {
          if SupportedAll(forest) {
            RefusedUp(ops, first, All(forest), States());
          }
          return None;
        }
        var tail := CompileAll(rest);
        CoarserTwice(ops, old(States()), between, States(), LeavesOf(first), LeavesOfAll(rest));
        if tail.None? {
          if SupportedAll(forest) {
            RefusedUp(ops, All(rest), All(forest), States());
          }
          return None;
        }
        CoarserElsewhere(ops, between, States(), LeavesOfAll(rest), LeavesOf(first));
        CompilesGrown(head.value, first, tail.value, rest, UsagesOf(ops, between), Usages());
        compiled := Some(Grown(head.value, tail.value));
    }

    /** One policy, above a subtree that is compiled already. */
    method CompilePolicy(child: Tree, ghost schema: Tree, limit: nat, ghost recorded: nat)
      returns (compiled: Option<Tree>)
      requires Valid() && Within(LeavesOf(schema)) && Separate(schema) && Compiles(child, schema, Usages())
      modifies leaves
      ensures Valid() && Received() == old(Received()) && Coarser(ops, old(States()), States(), LeavesOf(schema))
      ensures compiled.Some? ==>
                && Compiles(compiled.value, Details(schema, Some(limit), recorded), Usages())
                && Settled(compiled.value, Usages()) && Bytes(compiled.value, Usages()) <= limit
                && LimitsNest(compiled.value, limit)
      ensures compiled.None? ==> Refused(ops, Details(schema, Some(limit), recorded), States())
      ensures old(Bytes(schema, Usages())) <= limit ==> compiled.Some? && States() == old(States())
    {
      hide Moves, Refused, Descends, Compiles;
      ghost var before := States();
      CompiledMeasures(child, schema, Usages(), Usages());
      ghost var run := FitAggregateTo(child, limit, true);
      ghost var between := States();
      DescentStays(ops, child, limit, run, before, between);
      ghost var more;
      var inner, usage;
      inner, usage, more := Refresh(child);
      MovesCoarser(ops, child, false, more, between, States());
      CoarserOn(ops, before, between, States(), LeavesOf(child));
      if inner.Some? {
        SameMeasures(inner.value, child, Usages(), false);
      }
      if inner.None? || usage > limit {
        PolicyRefused(ops, child, schema, limit, recorded, before, between, States());
        return None;
      }
      CompilesPolicy(inner.value, child, schema, limit, recorded, usage, UsagesOf(ops, before), Usages());
      compiled := Some(Details(Clamp(inner.value, limit), Some(limit), usage));
    }
  }
}
