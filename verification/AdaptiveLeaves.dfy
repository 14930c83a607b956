/**
 A lossy leaf under construction: an exact or approximate representation whose next, coarser generation is previewed
 and kept until it is applied or an insert makes it stale.
 */
module AdaptiveLeaves {
  import opened Bitmaps

  /**
   What a representation `S` offers. `next` is the generation one level coarser, which may depend on whether the leaf
   is approximate already; `prepares` says that it is built beside the current one, otherwise `step` changes the
   current one in place. `rank` counts the remaining levels and `holds` says that an entry is found.
   */
  datatype LeafOps<!S, !E> = LeafOps(usage: S -> nat, next: (S, bool) -> Option<S>, prepares: (S, bool) -> bool,
                                     step: S -> S, insert: (S, E) -> S, rank: (S, bool) -> nat, holds: (S, E) -> bool)

  datatype State<S> = State(child: S, approximate: bool)

  /** Levels run out, coarsening loses no entry, and an in-place step is the next generation when there is one. */
  ghost predicate Lawful<S(!new), E(!new)>(ops: LeafOps<S, E>) {
    && (forall s, a {:trigger ops.next(s, a)} :: ops.next(s, a).Some? ==>
        ops.rank(ops.next(s, a).value, true) < ops.rank(s, a))
    && (forall s, a, e {:trigger ops.next(s, a), ops.holds(s, e)} :: ops.next(s, a).Some? && ops.holds(s, e) ==>
        ops.holds(ops.next(s, a).value, e))
    && (forall s, a {:trigger ops.prepares(s, a)} :: ops.next(s, a).Some? && !ops.prepares(s, a) ==>
        ops.step(s) == ops.next(s, a).value)
    && (forall s, e {:trigger ops.holds(ops.step(s), e)} :: ops.holds(s, e) ==> ops.holds(ops.step(s), e))
    && (forall s {:trigger ops.step(s)} ::
          ops.rank(ops.step(s), true) <= ops.rank(s, false) && ops.rank(ops.step(s), true) <= ops.rank(s, true))
    && (forall s, e {:trigger ops.insert(s, e)} :: ops.holds(ops.insert(s, e), e))
    && (forall s, d, e {:trigger ops.holds(ops.insert(s, d), e)} :: ops.holds(s, e) ==> ops.holds(ops.insert(s, d), e))
  }

  function Usage<S, E>(ops: LeafOps<S, E>, state: State<S>): nat {
    ops.usage(state.child)
  }

  function Rank<S, E>(ops: LeafOps<S, E>, state: State<S>): nat {
    ops.rank(state.child, state.approximate)
  }

  /** The state after one step, if there is one. */
  function Next<S, E>(ops: LeafOps<S, E>, state: State<S>): Option<State<S>> {
    var next := ops.next(state.child, state.approximate);
    if next.Some? then Some(State(next.value, true)) else None
  }

  /** Along the steps of a leaf, the first state within the limit; the last state if there is none. */
  ghost function Fitted<S(!new), E(!new)>(ops: LeafOps<S, E>, state: State<S>, limit: nat): State<S>
    requires Lawful(ops)
    decreases Rank(ops, state)
  {
    if Usage(ops, state) <= limit || Next(ops, state).None? then state
    else Fitted(ops, Next(ops, state).value, limit)
  }

  lemma {:induction false} FittedEnds<S(!new), E(!new)>(ops: LeafOps<S, E>, state: State<S>, limit: nat)
    requires Lawful(ops)
    ensures var fitted := Fitted(ops, state, limit);
            && (Usage(ops, fitted) <= limit || Next(ops, fitted).None?)
            && (fitted == state || (Rank(ops, fitted) < Rank(ops, state) && Next(ops, state).Some?))
            && (Usage(ops, state) <= limit ==> fitted == state)
    decreases Rank(ops, state)
  {
    if Usage(ops, state) > limit && Next(ops, state).Some? {
      FittedEnds(ops, Next(ops, state).value, limit);
    }
  }

  lemma {:induction false} StepIsNext<S(!new), E(!new)>(ops: LeafOps<S, E>, s: S, approximate: bool)
    requires Lawful(ops)
    ensures ops.next(s, approximate).Some? && !ops.prepares(s, approximate) ==>
              ops.step(s) == ops.next(s, approximate).value
    ensures ops.rank(ops.step(s), true) <= ops.rank(s, approximate)
    ensures forall e :: ops.holds(s, e) ==> ops.holds(ops.step(s), e)
  {
  }

  lemma {:induction false} NextKeepsEntries<S(!new), E(!new)>(ops: LeafOps<S, E>, s: S, approximate: bool)
    requires Lawful(ops) && ops.next(s, approximate).Some?
    ensures forall e :: ops.holds(s, e) ==> ops.holds(ops.next(s, approximate).value, e)
  {
  }

  class AdaptiveLeaf<S(!new), E(!new)> {
    const ops: LeafOps<S, E>
    var child: S
    var approximate: bool
    var nextUsage: nat
    var nextUsagePrepared: bool
    var nextUsageOK: bool
    var nextApply: Option<S>

    /** Every entry the leaf has received. */
    ghost var inserted: seq<E>

    ghost function Current(): State<S>
      reads this
    {
      State(child, approximate)
    }

    /** A preview belongs to the current representation, and every received entry is found in it. */
    ghost predicate Valid()
      reads this
    {
      && Lawful(ops)
      && (forall e :: e in inserted ==> ops.holds(child, e))
      && (!nextUsagePrepared ==> nextApply.None?)
      && (nextUsagePrepared ==>
            && (nextUsageOK <==> ops.next(child, approximate).Some?)
            && (nextUsageOK ==> nextUsage == ops.usage(ops.next(child, approximate).value))
            && nextApply == if ops.prepares(child, approximate) then ops.next(child, approximate) else None)
    }

    constructor (ops: LeafOps<S, E>, child: S, approximate: bool, ghost inserted: seq<E>)
      requires Lawful(ops) && forall e :: e in inserted ==> ops.holds(child, e)
      ensures Valid() && Current() == State(child, approximate) && this.ops == ops && this.inserted == inserted
    {
      this.ops, this.child, this.approximate, this.inserted := ops, child, approximate, inserted;
      nextUsage, nextUsagePrepared, nextUsageOK, nextApply := 0, false, false, None;
    }

    /** An insert drops the preview before the representation changes. */
    method Insert(entry: E)
      requires Valid()
      modifies this
      ensures Valid() && inserted == old(inserted) + [entry] && approximate == old(approximate)
      ensures !nextUsagePrepared && child == ops.insert(old(child), entry)
    {
      nextUsagePrepared, nextApply := false, None;
      child := ops.insert(child, entry);
      inserted := inserted + [entry];
    }

    /** The usage after the next step; the preview is kept and the representation is not changed. */
    method NextStreamingUsage() returns (usage: Option<nat>)
      requires Valid()
      modifies this`nextUsage, this`nextUsagePrepared, this`nextUsageOK, this`nextApply
      ensures Valid() && nextUsagePrepared && (nextUsageOK <==> usage.Some?)
      ensures usage == if Next(ops, Current()).Some? then Some(Usage(ops, Next(ops, Current()).value)) else None
    {
      if !nextUsagePrepared {
        nextUsagePrepared := true;
        var next := ops.next(child, approximate);
        nextUsageOK := next.Some?;
        if next.Some? {
          nextUsage := ops.usage(next.value);
        }
        nextApply := if ops.prepares(child, approximate) then next else None;
      }
      usage := if nextUsageOK then Some(nextUsage) else None;
    }

    /** A previewed step reaches exactly the previewed generation; otherwise the representation steps by itself. */
    method FitStreamingNext()
      requires Valid()
      modifies this
      ensures Valid() && inserted == old(inserted)
      ensures old(nextUsagePrepared && nextUsageOK) ==> old(Next(ops, Current())) == Some(Current())
      ensures old(nextUsagePrepared && nextUsageOK) ==> Usage(ops, Current()) == old(nextUsage)
      ensures !old(nextUsagePrepared && nextUsageOK) ==> child == ops.step(old(child))
      ensures Rank(ops, Current()) <= old(Rank(ops, Current())) && approximate
    {
      if nextUsagePrepared && nextUsageOK && nextApply.Some? {
        var next := nextApply.value;
        NextKeepsEntries(ops, child, approximate);
        nextUsagePrepared, nextApply := false, None;
        child := next;
      } else {
        var next := ops.step(child);
        StepIsNext(ops, child, approximate);
        nextUsagePrepared := false;
        child := next;
      }
      approximate := true;
    }

    /** Steps until the usage fits or no step is left, and no further. */
    method FitStreamingLimit(limit: nat)
      requires Valid()
      modifies this
      ensures Valid() && inserted == old(inserted)
      ensures Current() == old(Fitted(ops, Current(), limit))
    {
      nextUsagePrepared, nextApply := false, None;
      while ops.usage(child) > limit
        invariant Valid() && inserted == old(inserted)
        invariant Fitted(ops, Current(), limit) == old(Fitted(ops, Current(), limit))
        decreases Rank(ops, Current())
      {
        var usage := NextStreamingUsage();
        if usage.None? {
          return;
        }
        FitStreamingNext();
      }
    }
  }
}
