/**
 The All results a search context remembers. They are found by the identity of the input bitmaps, some of which are
 cache entries that are later cleared and refilled in place; an epoch counter is what makes the identity trustworthy.
 */
module ResultCache {
  import opened Bitmaps

  const REMEMBERED: nat := 4

  datatype Stored<K> = Stored(inputs: seq<Bitmap>, keys: Option<seq<K>>, ids: seq<nat>, bits: set<nat>, epoch: nat)

  /** A ranked operand: its bitmap, if it has one, and whether that is a temporary owned by the running search. */
  datatype Operand = Operand(bits: Bitmap?, owned: bool)

  ghost predicate Intersects(inputs: seq<Bitmap>, bits: set<nat>)
    reads inputs
  {
    forall id: nat :: id in bits <==> forall k :: 0 <= k < |inputs| ==> id in inputs[k].ids
  }

  class SearchContext<K(==)> {
    /** The number of dense IDs, and the All result that the query keys of all operands determine. */
    const rules: nat
    ghost const answer: seq<K> -> set<nat>

    var epoch: nat
    var results: seq<Option<Stored<K>>>
    var next: nat

    /** Index postings and node-cache entries: the bitmaps whose identity may be remembered. */
    ghost var retained: set<Bitmap>

    ghost predicate Sound(stored: Stored<K>)
      reads this, retained
    {
      && (forall k :: 0 <= k < |stored.inputs| ==> stored.inputs[k] in retained)
      && stored.epoch <= epoch
      && (stored.epoch == epoch ==> Intersects(stored.inputs, stored.bits))
      && stored.ids == Ascending(stored.bits, rules)
      && (stored.keys.Some? ==> stored.bits == answer(stored.keys.value))
    }

    ghost predicate Valid()
      reads this, retained
    {
      && |results| == REMEMBERED && next < REMEMBERED
      && forall r :: 0 <= r < REMEMBERED && results[r].Some? ==> Sound(results[r].value)
    }

    constructor (rules: nat, ghost answer: seq<K> -> set<nat>, ghost postings: set<Bitmap>)
      ensures Valid() && retained == postings && this.rules == rules && this.answer == answer
    {
      this.rules, this.answer := rules, answer;
      epoch, results, next, retained := 0, seq(REMEMBERED, _ => None), 0, postings;
    }

    /** A node cache takes a fresh bitmap for one of its slots. */
    ghost method Retain(bits: Bitmap)
      requires Valid() && bits !in retained
      modifies this`retained
      ensures Valid() && retained == old(retained) + {bits}
    {
      retained := retained + {bits};
    }

    /** A cached bitmap is cleared and refilled in place, after all remembered results have been invalidated. */
    method ReplaceInPlace(bits: Bitmap, contents: set<nat>)
      requires Valid() && bits in retained
      modifies this`epoch, bits
      ensures Valid() && bits.ids == contents && epoch == old(epoch) + 1
    {
      epoch := epoch + 1;
      bits.Clear();
      bits.Or(contents);
    }

    static predicate SameInputs(inputs: seq<Bitmap>, operands: seq<Operand>) {
      |inputs| == |operands|
        && forall k :: 0 <= k < |operands| ==> operands[k].bits != null && inputs[k] == operands[k].bits
    }

    /** A hit is the intersection of what the operands hold now, and its listed IDs are those of the intersection. */
    method Load(operands: seq<Operand>) returns (found: Option<Stored<K>>)
      requires Valid()
      ensures found.Some? ==>
                SameInputs(found.value.inputs, operands) && Intersects(found.value.inputs, found.value.bits)
      ensures found.Some? ==> found.value.ids == Ascending(found.value.bits, rules)
      ensures found.Some? ==>
                && (forall k :: 0 <= k < |operands| ==> operands[k].bits != null)
                && forall id: nat :: id in found.value.bits <==>
                     forall k :: 0 <= k < |operands| ==> id in operands[k].bits.ids
      ensures found.Some? <==>
                exists r :: 0 <= r < REMEMBERED && results[r].Some? && results[r].value.epoch == epoch
                            && SameInputs(results[r].value.inputs, operands)
    {
      var r := 0;
      while r < REMEMBERED
        invariant 0 <= r <= REMEMBERED
        invariant forall s :: 0 <= s < r && results[s].Some? && results[s].value.epoch == epoch ==>
                    !SameInputs(results[s].value.inputs, operands)
      {
        if results[r].Some? && results[r].value.epoch == epoch && SameInputs(results[r].value.inputs, operands) {
          return results[r];
        }
        r := r + 1;
      }
      found := None;
    }

    /** Some result of the current epoch is remembered under these query keys. */
    ghost predicate Remembers(keys: seq<K>)
      reads this
    {
      exists r :: 0 <= r < |results| && results[r].Some? && results[r].value.epoch == epoch
                  && results[r].value.keys == Some(keys)
    }

    /** A hit by the operands' query keys is the result those keys determine; remembered keys always hit. */
    method LoadQuery(keys: seq<K>) returns (found: Option<Stored<K>>)
      requires Valid()
      ensures found.Some? <==> Remembers(keys)
      ensures found.Some? ==> found.value.bits == answer(keys) && found.value.ids == Ascending(answer(keys), rules)
    {
      var r := 0;
      while r < REMEMBERED
        invariant 0 <= r <= REMEMBERED
        invariant forall s :: 0 <= s < r && results[s].Some? && results[s].value.epoch == epoch ==>
                    results[s].value.keys != Some(keys)
      {
        if results[r].Some? && results[r].value.epoch == epoch && results[r].value.keys == Some(keys) {
          return results[r];
        }
        r := r + 1;
      }
      found := None;
    }

    /** Remembers a result unless an operand is missing or a temporary, whose bitmap may change without notice. */
    method Store(operands: seq<Operand>, bits: Bitmap, keys: Option<seq<K>>) returns (stored: bool)
      requires Valid()
      requires forall k :: 0 <= k < |operands| && operands[k].bits != null && !operands[k].owned ==>
                 operands[k].bits in retained
      requires (forall k :: 0 <= k < |operands| ==> operands[k].bits != null) ==>
                 forall id: nat :: id in bits.ids <==> forall k :: 0 <= k < |operands| ==> id in operands[k].bits.ids
      requires keys.Some? ==> bits.ids == answer(keys.value)
      modifies this`results, this`next
      ensures Valid()
      ensures stored <==> forall k :: 0 <= k < |operands| ==> operands[k].bits != null && !operands[k].owned
      ensures !stored ==> results == old(results)
      ensures stored ==> next == (old(next) + 1) % REMEMBERED && results[old(next)].Some?
                         && results == old(results)[old(next) := results[old(next)]]
                         && SameInputs(results[old(next)].value.inputs, operands)
                              && results[old(next)].value.epoch == epoch
                         && results[old(next)].value.bits == bits.ids && results[old(next)].value.keys == keys
      ensures stored && keys.Some? ==> Remembers(keys.value)
    {
      var inputs: seq<Bitmap> := [];
      while |inputs| < |operands|
        invariant |inputs| <= |operands|
        invariant forall k :: 0 <= k < |inputs| ==>
                    operands[k].bits != null && !operands[k].owned && inputs[k] == operands[k].bits
        decreases |operands| - |inputs|
      {
        var operand := operands[|inputs|];
        if operand.bits == null || operand.owned {
          return false;
        }
        inputs := inputs + [operand.bits];
      }
      var ids := List(bits.ids);
      results := results[next := Some(Stored(inputs, keys, ids, bits.ids, epoch))];
      assert results[next].value.keys == keys;
      next := (next + 1) % REMEMBERED;
      stored := true;
    }

    method List(bits: set<nat>) returns (ids: seq<nat>)
      ensures ids == Ascending(bits, rules)
    {
      ids := [];
      var id := 0;
      while id < rules
        invariant 0 <= id <= rules && ids == Ascending(bits, id)
      {
        if id in bits {
          ids := ids + [id];
        }
        id := id + 1;
      }
    }

    /** Closing the context forgets every result before its bitmaps are recycled. */
    method Reset()
      requires Valid()
      modifies this
      ensures Valid() && epoch == old(epoch) + 1 && retained == {}
              && forall r :: 0 <= r < REMEMBERED ==> results[r].None?
    {
      results, next, epoch, retained := seq(REMEMBERED, _ => None), 0, epoch + 1, {};
    }
  }
}
