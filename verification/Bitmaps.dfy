/** Posting sets over dense IDs, and the mutable bitmap that search code narrows in place. */
module Bitmaps {

  datatype Option<+T> = None | Some(value: T)

  /** Up to this many candidates are checked one by one instead of by bitmaps. */
  const CANDIDATE_SCAN_LIMIT: nat := 8

  /** The union of a sequence of visited posting sets. */
  function Union(postings: seq<set<nat>>): set<nat> {
    if postings == [] then {} else postings[0] + Union(postings[1..])
  }

  lemma {:induction false} UnionConcat(a: seq<set<nat>>, b: seq<set<nat>>)
    ensures Union(a + b) == Union(a) + Union(b)
  {
    if a == [] {
      assert a + b == b;
    } else {
      assert (a + b)[1..] == a[1..] + b;
      UnionConcat(a[1..], b);
    }
  }

  lemma {:induction false} UnionAppend(postings: seq<set<nat>>, last: set<nat>)
    ensures Union(postings + [last]) == Union(postings) + last
  {
    UnionConcat(postings, [last]);
    assert [last][1..] == [];
  }

  lemma {:induction false} UnionMember(postings: seq<set<nat>>, id: nat)
    ensures id in Union(postings) <==> exists k :: 0 <= k < |postings| && id in postings[k]
  {
    if postings != [] {
      UnionMember(postings[1..], id);
      if k :| 0 <= k < |postings[1..]| && id in postings[1..][k] {
        assert postings[k + 1] == postings[1..][k];
      }
      if k :| 0 <= k < |postings| && id in postings[k] {
        if k > 0 { assert postings[1..][k - 1] == postings[k]; }
      }
    }
  }

  lemma {:induction false} UnionCardinality(a: set<nat>, b: set<nat>)
    ensures |a + b| == |a| + |b| - |a * b|
    ensures |a + b| == 0 <==> |a| + |b| == 0
  {
    assert a + b == a + (b - a) && b == (b - a) + a * b;
    assert |b| == |b - a| + |a * b|;
    assert |a + b| == |a| + |b - a|;
    assert |a * b| <= |a| by { assert a == (a - b) + a * b; }
    assert a == {} && b == {} ==> a + b == {};
    assert a <= a + b && b <= a + b;
  }

  lemma {:induction false} SubsetCardinality(a: set<nat>, b: set<nat>)
    requires a <= b
    ensures |a| <= |b| && (|a| == |b| ==> a == b)
  {
    assert b == a + (b - a) && a !! (b - a);
    assert |b| == |a| + |b - a|;
  }

  /** Asks one posting after the other. */
  method InAny(postings: seq<set<nat>>, id: nat) returns (found: bool)
    ensures found <==> id in Union(postings)
  {
    UnionMember(postings, id);
    var k := 0;
    while k < |postings|
      invariant 0 <= k <= |postings| && forall j :: 0 <= j < k ==> id !in postings[j]
    {
      if id in postings[k] {
        return true;
      }
      k := k + 1;
    }
    found := false;
  }

  /** The elements of `bits` below `bound`, in increasing order: the order in which a bitmap iterates. */
  function Ascending(bits: set<nat>, bound: nat): (ids: seq<nat>) {
    if bound == 0 then []
    else Ascending(bits, bound - 1) + if bound - 1 in bits then [bound - 1] else []
  }

  lemma {:induction false} AscendingMember(bits: set<nat>, bound: nat, id: nat)
    ensures id in Ascending(bits, bound) <==> id in bits && id < bound
  {
    if bound > 0 {
      AscendingMember(bits, bound - 1, id);
    }
  }

  lemma {:induction false} AscendingOrder(bits: set<nat>, bound: nat, i: nat, j: nat)
    requires i < j < |Ascending(bits, bound)|
    ensures Ascending(bits, bound)[i] < Ascending(bits, bound)[j]
  {
    var below := Ascending(bits, bound - 1);
    if j < |below| {
      AscendingOrder(bits, bound - 1, i, j);
    } else {
      assert below[i] in below;
      AscendingMember(bits, bound - 1, below[i]);
    }
  }

  lemma {:induction false} AscendingListsBitmap(bits: set<nat>, bound: nat)
    ensures forall i, j :: 0 <= i < j < |Ascending(bits, bound)| ==>
              Ascending(bits, bound)[i] < Ascending(bits, bound)[j]
    ensures forall id: nat :: id in Ascending(bits, bound) <==> id in bits && id < bound
  {
    forall i, j | 0 <= i < j < |Ascending(bits, bound)|
      ensures Ascending(bits, bound)[i] < Ascending(bits, bound)[j]
    {
      AscendingOrder(bits, bound, i, j);
    }
    forall id: nat
      ensures id in Ascending(bits, bound) <==> id in bits && id < bound
    {
      AscendingMember(bits, bound, id);
    }
  }

  /** A bitmap object; its content is the set of IDs it holds. */
  class Bitmap {
    var ids: set<nat>

    constructor ()
      ensures ids == {}
    {
      ids := {};
    }

    method Clear()
      modifies this
      ensures ids == {}
    {
      ids := {};
    }

    method Add(id: nat)
      modifies this
      ensures ids == old(ids) + {id}
    {
      ids := ids + {id};
    }

    method Or(bits: set<nat>)
      modifies this
      ensures ids == old(ids) + bits
    {
      ids := ids + bits;
    }

    method And(bits: set<nat>)
      modifies this
      ensures ids == old(ids) * bits
    {
      ids := ids * bits;
    }

    method AndNot(bits: set<nat>)
      modifies this
      ensures ids == old(ids) - bits
    {
      ids := ids - bits;
    }

    /** Keeps the IDs found in at least one of the postings. */
    method AndAny(postings: seq<set<nat>>)
      modifies this
      ensures ids == old(ids) * Union(postings)
    {
      ids := ids * Union(postings);
    }
  }
}
