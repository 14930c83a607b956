/**
 The executor of an All: ranked children are narrowed by bitmaps, in-place filters and direct ID checks in
 whatever order the cost tests choose. Cost tests are arbitrary here (`*`), so every contract holds for all
 of their outcomes.
 */
module AllExecution {
  import opened Bitmaps

  /** An equality child's result, split into its stored wildcards and the posting of the query value. */
  datatype Equality = Equality(wildcard: set<nat>, concrete: set<nat>)

  /**
   A child of an All at one query value: the result of its search, whether it supports direct ID checks and
   in-place filtering, whether planning finds its result as an immutable bitmap, its constant-time and its full
   estimate as far as it has them, its equality components if it is an equality, its shared-wildcard group (0 for
   none) and its equality class at this query (0 for none).
   */
  datatype Child = Child(result: set<nat>, direct: bool, filter: bool, planning: bool, cheap: Option<nat>,
                         estimate: Option<nat>, equality: Option<Equality>, group: nat, equalityClass: nat)

  datatype Ranked = Ranked(bits: Option<set<nat>>, card: nat, childIdx: nat)

  /** What an entry stands for: its bitmap once it has one, otherwise its child's result. */
  ghost function Meaning(children: seq<Child>, entry: Ranked): set<nat>
    requires entry.childIdx < |children|
  {
    if entry.bits.Some? then entry.bits.value else children[entry.childIdx].result
  }

  /** A bitmap entry of a filtering child holds exactly its result; measured entries know their cardinality. */
  ghost predicate Sound(children: seq<Child>, entry: Ranked) {
    && entry.childIdx < |children|
    && (entry.bits.Some? ==> entry.card == |entry.bits.value|)
    && (entry.bits.Some? && children[entry.childIdx].filter ==> entry.bits.value == children[entry.childIdx].result)
  }

  ghost predicate AllSound(children: seq<Child>, entries: seq<Ranked>) {
    forall k :: 0 <= k < |entries| ==> Sound(children, entries[k])
  }

  /** The ID belongs to every entry. */
  ghost predicate Survives(children: seq<Child>, entries: seq<Ranked>, id: nat)
    requires AllSound(children, entries)
  {
    forall k :: 0 <= k < |entries| ==> id in Meaning(children, entries[k])
  }

  /** Two entry lists stand for the same conjunction. */
  ghost predicate SameConjunction(children: seq<Child>, a: seq<Ranked>, b: seq<Ranked>)
    requires AllSound(children, a) && AllSound(children, b)
  {
    forall id: nat :: Survives(children, a, id) <==> Survives(children, b, id)
  }

  /** The entry can decide membership of a single ID. */
  predicate Decidable(children: seq<Child>, entry: Ranked)
    requires entry.childIdx < |children|
  {
    entry.bits.Some? || children[entry.childIdx].direct
  }

  /** A child without direct ID checks answers no, which is why it must be materialized first. */
  predicate Checks(children: seq<Child>, entry: Ranked, id: nat)
    requires entry.childIdx < |children|
  {
    if entry.bits.Some? then id in entry.bits.value
    else children[entry.childIdx].direct && id in children[entry.childIdx].result
  }

  lemma {:induction false} SurvivesConcat(children: seq<Child>, a: seq<Ranked>, b: seq<Ranked>, id: nat)
    requires AllSound(children, a) && AllSound(children, b)
    ensures AllSound(children, a + b)
    ensures Survives(children, a + b, id) <==> Survives(children, a, id) && Survives(children, b, id)
  {
    if Survives(children, a + b, id) {
      forall k | 0 <= k < |a| ensures id in Meaning(children, a[k]) { assert a[k] == (a + b)[k]; }
      forall k | 0 <= k < |b| ensures id in Meaning(children, b[k]) { assert b[k] == (a + b)[|a| + k]; }
    }
  }

  /** Replacing an entry by one with the same meaning keeps the conjunction. */
  lemma {:induction false} SurvivesUpdate(children: seq<Child>, entries: seq<Ranked>, k: nat, entry: Ranked)
    requires AllSound(children, entries) && k < |entries| && Sound(children, entry)
    requires Meaning(children, entry) == Meaning(children, entries[k])
    ensures AllSound(children, entries[k := entry]) && SameConjunction(children, entries, entries[k := entry])
  {
    forall id: nat
      ensures Survives(children, entries, id) <==> Survives(children, entries[k := entry], id)
    {
      forall j | 0 <= j < |entries|
        ensures id in Meaning(children, entries[j]) <==> id in Meaning(children, entries[k := entry][j])
      {
      }
    }
  }

  lemma {:induction false} SurvivesSwap(children: seq<Child>, entries: seq<Ranked>, i: nat, j: nat)
    requires AllSound(children, entries) && i < |entries| && j < |entries|
    ensures var swapped := entries[i := entries[j]][j := entries[i]];
            AllSound(children, swapped) && SameConjunction(children, entries, swapped)
  {
    var swapped := entries[i := entries[j]][j := entries[i]];
    forall id: nat
      ensures Survives(children, entries, id) <==> Survives(children, swapped, id)
    {
      if Survives(children, swapped, id) {
        forall k | 0 <= k < |entries|
          ensures id in Meaning(children, entries[k])
        {
          assert entries[k] == swapped[if k == i then j else if k == j then i else k];
        }
      }
    }
  }

  lemma {:induction false} SurvivesPermuted(children: seq<Child>, a: seq<Ranked>, b: seq<Ranked>)
    requires AllSound(children, a) && multiset(a) == multiset(b)
    ensures AllSound(children, b) && SameConjunction(children, a, b)
    ensures forall e :: e in b ==> e in a
  {
    forall e | e in b
      ensures e in a
    {
      assert e in multiset(b);
    }
    forall e | e in a
      ensures e in b
    {
      assert e in multiset(a);
    }
    forall k | 0 <= k < |b|
      ensures b[k] in a && Sound(children, b[k])
    {
      assert b[k] in b;
    }
    forall id: nat
      ensures Survives(children, a, id) <==> Survives(children, b, id)
    {
      forall k | 0 <= k < |a|
        ensures Survives(children, b, id) ==> id in Meaning(children, a[k])
      {
        assert a[k] in b;
      }
    }
  }

  /** The entries `from..to` are permuted and all others are where they were. */
  ghost predicate Reordered(before: seq<Ranked>, now: seq<Ranked>, from: nat, to: nat) {
    && from <= to <= |before| == |now|
    && now[..from] == before[..from] && now[to..] == before[to..]
    && multiset(now[from..to]) == multiset(before[from..to])
  }

  lemma {:induction false} ReorderedSwap(before: seq<Ranked>, now: seq<Ranked>, from: nat, to: nat, j: nat)
    requires Reordered(before, now, from, to) && from < j < to
    ensures Reordered(before, now[j := now[j - 1]][j - 1 := now[j]], from, to)
  {
    var next, part := now[j := now[j - 1]][j - 1 := now[j]], now[from..to];
    var at := j - from;
    assert next[..from] == now[..from] && next[to..] == now[to..];
    assert next[from..to] == part[at := part[at - 1]][at - 1 := part[at]];
    MultisetSwap(part, at, at - 1);
  }

  lemma {:induction false} MultisetSwap(s: seq<Ranked>, i: nat, j: nat)
    requires i < |s| && j < |s|
    ensures multiset(s[i := s[j]][j := s[i]]) == multiset(s)
  {
  }

  // ----- candidates as the conjunction of a prefix -----

  ghost predicate Holds(children: seq<Child>, candidates: set<nat>, entries: seq<Ranked>)
    requires AllSound(children, entries)
  {
    forall id: nat :: id in candidates <==> Survives(children, entries, id)
  }

  lemma {:induction false} HoldsOne(children: seq<Child>, entry: Ranked)
    requires Sound(children, entry)
    ensures AllSound(children, [entry]) && Holds(children, Meaning(children, entry), [entry])
  {
    forall id: nat
      ensures id in Meaning(children, entry) <==> Survives(children, [entry], id)
    {
      assert [entry][0] == entry;
    }
  }

  lemma {:induction false} HoldsAnd(children: seq<Child>, candidates: set<nat>, entries: seq<Ranked>, entry: Ranked)
    requires AllSound(children, entries) && Sound(children, entry) && Holds(children, candidates, entries)
    ensures AllSound(children, entries + [entry])
    ensures Holds(children, candidates * Meaning(children, entry), entries + [entry])
  {
    HoldsOne(children, entry);
    forall id: nat
      ensures id in candidates * Meaning(children, entry) <==> Survives(children, entries + [entry], id)
    {
      SurvivesConcat(children, entries, [entry], id);
    }
  }

  lemma {:induction false} HoldsRest(children: seq<Child>, candidates: set<nat>, narrowed: set<nat>,
                                     entries: seq<Ranked>, rest: seq<Ranked>)
    requires AllSound(children, entries) && AllSound(children, rest) && Holds(children, candidates, entries)
    requires forall id: nat :: id in narrowed <==> id in candidates && Survives(children, rest, id)
    ensures AllSound(children, entries + rest) && Holds(children, narrowed, entries + rest)
  {
    forall id: nat
      ensures id in narrowed <==> Survives(children, entries + rest, id)
    {
      SurvivesConcat(children, entries, rest, id);
    }
  }

  lemma {:induction false} HoldsNothing(children: seq<Child>, entries: seq<Ranked>, rest: seq<Ranked>)
    requires AllSound(children, entries) && AllSound(children, rest) && Holds(children, {}, entries)
    ensures AllSound(children, entries + rest) && Holds(children, {}, entries + rest)
  {
    HoldsRest(children, {}, {}, entries, rest);
  }

  lemma {:induction false} HoldsSame(children: seq<Child>, candidates: set<nat>, a: seq<Ranked>, b: seq<Ranked>)
    requires AllSound(children, a) && AllSound(children, b) && SameConjunction(children, a, b)
    requires Holds(children, candidates, a)
    ensures Holds(children, candidates, b)
  {
  }

  // ----- the executor -----

  class AllRule {
    const children: seq<Child>
    const directIDComplete: bool

    ghost predicate Valid() {
      directIDComplete ==> forall c :: 0 <= c < |children| ==> children[c].direct
    }

    constructor (children: seq<Child>, directIDComplete: bool)
      requires directIDComplete ==> forall c :: 0 <= c < |children| ==> children[c].direct
      ensures Valid() && this.children == children && this.directIDComplete == directIDComplete
    {
      this.children, this.directIDComplete := children, directIDComplete;
    }

    method Swap(a: array<Ranked>, i: nat, j: nat)
      requires i < a.Length && j < a.Length
      modifies a
      ensures a[..] == old(a[..])[i := old(a[j])][j := old(a[i])]
    {
      a[i], a[j] := a[j], a[i];
    }

    /** An unsupported child is acquired once for the whole batch; an empty one stops the work early. */
    method MaterializeUnsupported(a: array<Ranked>, from: nat, to: nat) returns (complete: bool)
      requires from <= to <= a.Length && AllSound(children, a[..])
      modifies a
      ensures a[..from] == old(a[..from]) && a[to..] == old(a[to..])
      ensures AllSound(children, a[..])
      ensures forall k :: from <= k < to ==>
                a[k].childIdx == old(a[k].childIdx) && Meaning(children, a[k]) == Meaning(children, old(a[k]))
      ensures complete ==> forall k :: from <= k < to ==> Decidable(children, a[k])
      ensures !complete ==> exists k :: from <= k < to && a[k].bits == Some({})
    {
      var i := from;
      while i < to
        invariant from <= i <= to && AllSound(children, a[..])
        invariant a[..from] == old(a[..from]) && a[to..] == old(a[to..])
        invariant forall k :: i <= k < to ==> a[k] == old(a[k])
        invariant forall k :: from <= k < i ==>
                    a[k].childIdx == old(a[k].childIdx) && Meaning(children, a[k]) == Meaning(children, old(a[k]))
        invariant forall k :: from <= k < i ==> Decidable(children, a[k])
      {
        assert Sound(children, a[..][i]);
        if a[i].bits.None? && !children[a[i].childIdx].direct {
          var bits := children[a[i].childIdx].result;
          ghost var before := a[..];
          a[i] := Ranked(Some(bits), |bits|, a[i].childIdx);
          assert a[..] == before[i := a[i]];
          if bits == {} {
            return false;
          }
        }
        i := i + 1;
      }
      complete := true;
    }

    /** Any order of the checks: neighbours are exchanged wherever the score comparison says so. */
    method OrderCandidateValidation(a: array<Ranked>, from: nat, to: nat)
      requires from <= to <= a.Length
      modifies a
      ensures Reordered(old(a[..]), a[..], from, to)
    {
      var i := from + 1;
      while i < to
        invariant Reordered(old(a[..]), a[..], from, to)
      {
        var j := i;
        while j > from
          invariant from <= j <= i && Reordered(old(a[..]), a[..], from, to)
        {
          var before: bool := *;
          if !before {
            break;
          }
          ReorderedSwap(old(a[..]), a[..], from, to, j);
          Swap(a, j, j - 1);
          j := j - 1;
        }
        i := i + 1;
      }
    }

    /** Every remaining entry can decide single IDs, or an empty one has been met; then they are ordered. */
    method PrepareValidation(a: array<Ranked>, from: nat, to: nat) returns (complete: bool)
      requires Valid() && from <= to <= a.Length && AllSound(children, a[..])
      modifies a
      ensures a[..from] == old(a[..from]) && a[to..] == old(a[to..])
      ensures AllSound(children, a[..]) && SameConjunction(children, old(a[from..to]), a[from..to])
      ensures if complete then AllDecidable(a[from..to]) else HasEmpty(a[from..to])
    {
      hide Survives, Meaning;
      ghost var entries := a[from..to];
      complete := true;
      if !directIDComplete {
        complete := MaterializeUnsupported(a, from, to);
        MeaningKept(entries, a[from..to]);
      }
      assert complete ==> forall k :: from <= k < to ==> Decidable(children, a[..][k]);
      assert complete ==> AllDecidable(a[from..to]);
      assert !complete ==> HasEmpty(a[from..to]);
      hide AllRule.AllDecidable, AllRule.HasEmpty;
      OrderPrepared(a, from, to);
    }

    /** Ordering changes nothing but the order. */
    method OrderPrepared(a: array<Ranked>, from: nat, to: nat)
      requires from <= to <= a.Length && AllSound(children, a[..])
      modifies a
      ensures a[..from] == old(a[..from]) && a[to..] == old(a[to..])
      ensures AllSound(children, a[..]) && SameConjunction(children, old(a[from..to]), a[from..to])
      ensures old(AllDecidable(a[from..to])) ==> AllDecidable(a[from..to])
      ensures old(HasEmpty(a[from..to])) ==> HasEmpty(a[from..to])
    {
      hide Survives, Meaning, AllRule.AllDecidable, AllRule.HasEmpty;
      ghost var prepared := a[from..to];
      OrderCandidateValidation(a, from, to);
      ghost var ordered := a[from..to];
      SurvivesPermuted(children, prepared, ordered);
      SoundParts(a[..from], ordered, a[to..]);
      assert a[..] == a[..from] + ordered + a[to..];
      DecidablePermuted(prepared, ordered);
    }

    /** Checks each candidate against the remaining entries `from..to`. */
    method ValidateCandidates(a: array<Ranked>, from: nat, to: nat, dst: Bitmap) returns (ok: bool)
      requires Valid() && from <= to <= a.Length && AllSound(children, a[..])
      modifies a, dst
      ensures a[..from] == old(a[..from]) && a[to..] == old(a[to..])
      ensures AllSound(children, a[..]) && SameConjunction(children, old(a[from..to]), a[from..to])
      ensures forall id: nat :: id in dst.ids <==> id in old(dst.ids) && Survives(children, a[from..to], id)
      ensures ok <==> dst.ids != {}
      ensures ok ==> forall k :: from <= k < to ==> Decidable(children, a[k])
    {
      hide Survives, Meaning;
      var complete := PrepareValidation(a, from, to);
      ghost var ordered := a[from..to];
      var accepted := Accept(a, from, to, dst.ids);
      dst.Clear();
      dst.Or(accepted);
      ok := dst.ids != {};
      if !complete {
        forall id: nat
          ensures !Survives(children, ordered, id) && id !in accepted
        {
          EmptyRejects(ordered, id);
        }
      }
      forall k | from <= k < to && ok
        ensures Decidable(children, a[k])
      {
        assert a[k] == ordered[k - from];
      }
    }

    ghost predicate AllDecidable(entries: seq<Ranked>)
      requires AllSound(children, entries)
    {
      forall k :: 0 <= k < |entries| ==> Sound(children, entries[k]) && Decidable(children, entries[k])
    }

    ghost predicate HasEmpty(entries: seq<Ranked>) {
      exists k :: 0 <= k < |entries| && entries[k].bits == Some({})
    }

    lemma {:induction false} MeaningKept(before: seq<Ranked>, after: seq<Ranked>)
      requires |before| == |after| && AllSound(children, before) && AllSound(children, after)
      requires forall k :: 0 <= k < |after| ==> Meaning(children, after[k]) == Meaning(children, before[k])
      ensures SameConjunction(children, before, after)
    {
      forall id: nat
        ensures Survives(children, before, id) <==> Survives(children, after, id)
      {
      }
    }

    lemma {:induction false} SoundParts(a: seq<Ranked>, b: seq<Ranked>, c: seq<Ranked>)
      requires AllSound(children, a) && AllSound(children, b) && AllSound(children, c)
      ensures AllSound(children, a + b + c)
    {
    }

    lemma {:induction false} DecidablePermuted(a: seq<Ranked>, b: seq<Ranked>)
      requires AllSound(children, a) && AllSound(children, b) && multiset(a) == multiset(b)
      ensures AllDecidable(a) ==> AllDecidable(b)
      ensures HasEmpty(a) ==> HasEmpty(b)
    {
      forall k | 0 <= k < |b|
        ensures b[k] in a
      {
        assert b[k] in multiset(a);
      }
      if k :| 0 <= k < |a| && a[k].bits == Some({}) {
        assert a[k] in multiset(b);
      }
    }

    lemma {:induction false} EmptyRejects(entries: seq<Ranked>, id: nat)
      requires AllSound(children, entries) && HasEmpty(entries)
      ensures !Survives(children, entries, id)
      ensures exists k :: 0 <= k < |entries| && !Checks(children, entries[k], id)
    {
      var k :| 0 <= k < |entries| && entries[k].bits == Some({});
      assert id !in Meaning(children, entries[k]);
      assert !Checks(children, entries[k], id);
    }

    /** The candidates accepted by every remaining entry. */
    method Accept(a: array<Ranked>, from: nat, to: nat, candidates: set<nat>) returns (accepted: set<nat>)
      requires from <= to <= a.Length && AllSound(children, a[..])
      requires AllDecidable(a[from..to]) || HasEmpty(a[from..to])
      ensures forall id: nat :: id in accepted <==> id in candidates && Survives(children, a[from..to], id)
    {
      accepted := {};
      var rest := candidates;
      while rest != {}
        invariant rest <= candidates
        invariant forall id: nat :: id in accepted <==> id in candidates - rest && Survives(children, a[from..to], id)
        decreases rest
      {
        var id :| id in rest;
        var matches := MatchesAll(a, from, to, id);
        if matches {
          accepted := accepted + {id};
        }
        rest := rest - {id};
      }
    }

    method MatchesAll(a: array<Ranked>, from: nat, to: nat, id: nat) returns (matches: bool)
      requires from <= to <= a.Length && AllSound(children, a[..])
      requires AllDecidable(a[from..to]) || HasEmpty(a[from..to])
      ensures matches <==> Survives(children, a[from..to], id)
    {
      ghost var entries := a[from..to];
      if HasEmpty(entries) {
        EmptyRejects(entries, id);
      }
      var k := from;
      while k < to
        invariant from <= k <= to
        invariant forall j :: 0 <= j < k - from ==> Checks(children, entries[j], id)
      {
        assert entries[k - from] == a[k] && Sound(children, a[..][k]);
        if a[k].bits.Some? {
          if id !in a[k].bits.value {
            return false;
          }
        } else {
          if !(children[a[k].childIdx].direct && id in children[a[k].childIdx].result) {
            return false;
          }
        }
        k := k + 1;
      }
      matches := true;
    }

    // ----- shared wildcards -----

    function Group(entry: Ranked): nat
      requires entry.childIdx < |children|
    {
      children[entry.childIdx].group
    }

    /** Grouped children are equalities without filters that share one stored-wildcard bitmap. */
    ghost predicate Grouped() {
      && (forall c :: 0 <= c < |children| && children[c].group != 0 ==>
            && children[c].equality.Some? && !children[c].filter && !children[c].planning
            && children[c].result == children[c].equality.value.wildcard + children[c].equality.value.concrete)
      && (forall c, d :: 0 <= c < d < |children| && children[c].group == children[d].group != 0 ==>
            children[c].equality.Some? && children[d].equality.Some?
            && children[c].equality.value.wildcard == children[d].equality.value.wildcard)
    }

    /** Members of one group carry the same bitmap, or none of them has one yet. */
    ghost predicate Uniform(entries: seq<Ranked>)
      requires AllSound(children, entries)
    {
      forall j, k :: 0 <= j < k < |entries| && SameGroup(entries[j], entries[k]) ==> entries[j].bits == entries[k].bits
    }

    ghost predicate SameGroup(a: Ranked, b: Ranked) {
      Sound(children, a) && Sound(children, b) && Group(a) == Group(b) && Group(a) != 0
    }

    /** The combined result of one group: W union the intersection of the concrete postings. */
    method GroupResult(a: array<Ranked>, i: nat, n: nat) returns (bits: set<nat>)
      requires Grouped() && i < n <= a.Length && AllSound(children, a[..n])
      requires Sound(children, a[i]) && Group(a[i]) != 0
      ensures forall id: nat :: id in bits <==>
                forall k :: i <= k < n && SameGroup(a[i], a[k]) ==> id in children[a[k].childIdx].result
    {
      var first := children[a[i].childIdx].equality.value;
      var concrete := first.concrete;
      var j := i + 1;
      while j < n
        invariant i < j <= n
        invariant forall id: nat :: id in concrete <==>
                    forall k :: i <= k < j && SameGroup(a[i], a[k]) ==>
                      id in children[a[k].childIdx].equality.value.concrete
      {
        assert Sound(children, a[..n][j]);
        if Group(a[j]) == Group(a[i]) {
          concrete := concrete * children[a[j].childIdx].equality.value.concrete;
          if concrete == {} {
            break;
          }
        }
        j := j + 1;
      }
      bits := concrete + first.wildcard;
    }

    /** Gives every member of a group without bitmaps the combined result of the group. */
    method CombineGroup(a: array<Ranked>, i: nat, n: nat)
      requires Grouped() && i < n <= a.Length && AllSound(children, a[..n])
      requires Sound(children, a[i]) && Group(a[i]) != 0 && a[i].bits.None?
      requires Uniform(a[..n])
      requires forall k :: 0 <= k < i ==> !SameGroup(a[i], a[k])
      modifies a
      ensures a[n..] == old(a[n..]) && AllSound(children, a[..n]) && SameConjunction(children, old(a[..n]), a[..n])
      ensures Uniform(a[..n])
      ensures forall k :: 0 <= k < n ==> a[k].childIdx == old(a[k]).childIdx
      ensures forall k :: 0 <= k < n ==> a[k] == if old(SameGroup(a[i], a[k])) then a[k] else old(a[k])
      ensures forall k :: 0 <= k < n && old(SameGroup(a[i], a[k])) ==> a[k].bits.Some?
    {
      var bits := GroupResult(a, i, n);
      var group := Group(a[i]);
      ghost var before := a[..n];
      var j := i;
      while j < n
        invariant i <= j <= n && a[n..] == old(a[n..])
        invariant forall k :: j <= k < n ==> a[k] == before[k]
        invariant forall k :: 0 <= k < j ==>
                    a[k] == if SameGroup(before[i], before[k]) then Ranked(Some(bits), |bits|, before[k].childIdx)
                    else before[k]
      {
        assert Sound(children, before[j]);
        if Group(a[j]) == group {
          a[j] := Ranked(Some(bits), |bits|, a[j].childIdx);
        }
        j := j + 1;
      }
      GroupCombined(before, a[..n], i, bits);
    }

    lemma {:induction false} GroupCombined(before: seq<Ranked>, after: seq<Ranked>, i: nat, bits: set<nat>)
      requires Grouped() && AllSound(children, before) && |before| == |after| && i < |before|
      requires Sound(children, before[i]) && Group(before[i]) != 0 && before[i].bits.None? && Uniform(before)
      requires forall k :: 0 <= k < i ==> !SameGroup(before[i], before[k])
      requires forall id: nat :: id in bits <==>
                 forall k :: i <= k < |before| && SameGroup(before[i], before[k]) ==>
                   id in children[before[k].childIdx].result
      requires forall k :: 0 <= k < |before| ==>
                 after[k] == if SameGroup(before[i], before[k]) then Ranked(Some(bits), |bits|, before[k].childIdx)
                   else before[k]
      ensures AllSound(children, after) && SameConjunction(children, before, after) && Uniform(after)
    {
      forall k | 0 <= k < |before| && SameGroup(before[i], before[k])
        ensures before[k].bits.None? && k >= i
      {
      }
      forall id: nat
        ensures Survives(children, before, id) <==> Survives(children, after, id)
      {
        if Survives(children, after, id) {
          assert id in Meaning(children, after[i]);
          forall k | 0 <= k < |before|
            ensures id in Meaning(children, before[k])
          {
            assert id in Meaning(children, after[k]);
          }
        }
        if Survives(children, before, id) {
          forall k | i <= k < |before| && SameGroup(before[i], before[k])
            ensures id in children[before[k].childIdx].result
          {
            assert id in Meaning(children, before[k]);
          }
        }
      }
    }

    /** Keeps the first member of every combined group; the entries after the kept prefix stay as they were. */
    method CompactGroups(a: array<Ranked>, n: nat) returns (m: nat, ghost kept: seq<Ranked>)
      requires n <= a.Length && Combined(a[..n])
      modifies a
      ensures m <= n && (n > 0 ==> m > 0) && a[m..] == old(a[..])[m..] && a[..m] == kept
      ensures GroupsCompacted(old(a[..n]), n, kept) && OnePerGroup(kept)
    {
      ghost var before, all := a[..n], a[..];
      kept, m := [], 0;
      assert GroupsCompacted(before, 0, kept) && OnePerGroup(kept);
      hide AllRule.GroupsCompacted, AllRule.OnePerGroup;
      var read := 0;
      while read < n
        invariant m <= read <= n && (read > 0 ==> m > 0)
        invariant a[m..] == all[m..] && a[..m] == kept
        invariant GroupsCompacted(before, read, kept) && OnePerGroup(kept)
      {
        assert a[read] == a[m..][read - m] == all[read] == before[read];
        var duplicate;
        ghost var next;
        duplicate, next := IsDuplicate(a, m, read, before, kept);
        if !duplicate {
          KeepEntry(a, m, read, all, kept);
          m := m + 1;
        }
        kept := next;
        read := read + 1;
      }
    }

    /** No two entries belong to one group. */
    ghost predicate OnePerGroup(entries: seq<Ranked>) {
      forall i, j :: 0 <= i < j < |entries| && Member(entries[i]) && Member(entries[j]) ==>
        Group(entries[i]) != Group(entries[j])
    }

    ghost predicate Member(entry: Ranked) {
      entry.childIdx < |children| && Group(entry) != 0
    }

    /** Writes entry `read` behind the kept prefix. */
    method KeepEntry(a: array<Ranked>, m: nat, read: nat, ghost all: seq<Ranked>, ghost kept: seq<Ranked>)
      requires m <= read < a.Length == |all| && a[m..] == all[m..] && a[..m] == kept
      modifies a
      ensures a[m + 1..] == all[m + 1..] && a[..m + 1] == kept + [all[read]]
    {
      assert a[read] == a[m..][read - m] && all[m + 1..] == all[m..][1..];
      a[m] := a[read];
    }

    /** Every group member has the combined bitmap of its group. */
    ghost predicate Combined(entries: seq<Ranked>) {
      && AllSound(children, entries) && Uniform(entries)
      && (forall k :: 0 <= k < |entries| && Sound(children, entries[k]) && Group(entries[k]) != 0 ==>
          entries[k].bits.Some?)
    }

    ghost predicate GroupsCompacted(before: seq<Ranked>, read: nat, kept: seq<Ranked>) {
      read <= |before| && Combined(before) && Compacted(before, read, kept)
    }

    /** Every kept entry is one of the first `read` entries, and each of those is kept or represented. */
    ghost predicate Compacted(before: seq<Ranked>, read: nat, kept: seq<Ranked>)
      requires read <= |before| && AllSound(children, before)
    {
      && (forall k {:trigger Keeps(before[..read], kept[k])} :: 0 <= k < |kept| ==> Keeps(before[..read], kept[k]))
      && (forall k {:trigger Kept(kept, before[k])} :: 0 <= k < read ==> Kept(kept, before[k]))
    }

    method IsDuplicate(a: array<Ranked>, m: nat, read: nat, ghost before: seq<Ranked>, ghost kept: seq<Ranked>)
      returns (duplicate: bool, ghost next: seq<Ranked>)
      requires GroupsCompacted(before, read, kept) && m <= read < |before| <= a.Length
      requires a[read] == before[read] && a[..m] == kept && OnePerGroup(kept)
      ensures OnePerGroup(next)
      ensures GroupsCompacted(before, read + 1, next) && next == if duplicate then kept else kept + [before[read]]
      ensures m == 0 ==> !duplicate
    {
      assert Sound(children, before[read]);
      CompactedSound(before, read, kept);
      if Group(a[read]) != 0 {
        var previous := MemberBefore(a, m, Group(a[read]));
        if previous.Some? {
          SameMember(before, read, kept[previous.value]);
          KeptMore(before, read, kept, kept);
          return true, kept;
        }
      }
      duplicate, next := false, kept + [before[read]];
      assert forall k :: 0 <= k < |kept| ==> kept[k] == a[..m][k];
      KeptMore(before, read, kept, next);
    }

    method MemberBefore(a: array<Ranked>, m: nat, group: nat) returns (previous: Option<nat>)
      requires m <= a.Length && AllSound(children, a[..m])
      ensures previous.Some? ==>
                previous.value < m && Sound(children, a[previous.value]) && Group(a[previous.value]) == group
      ensures previous.None? ==> forall k :: 0 <= k < m && a[k].childIdx < |children| ==> Group(a[k]) != group
    {
      var k := 0;
      while k < m
        invariant 0 <= k <= m
        invariant forall j :: 0 <= j < k && a[j].childIdx < |children| ==> Group(a[j]) != group
      {
        assert Sound(children, a[..m][k]);
        if Group(a[k]) == group {
          return Some(k);
        }
        k := k + 1;
      }
      previous := None;
    }

    /** The entry is one of the given ones. */
    ghost predicate Keeps(entries: seq<Ranked>, entry: Ranked) {
      Sound(children, entry) && exists k :: 0 <= k < |entries| && entries[k] == entry
    }

    /** The entry survives compaction: itself, or through an entry of the same meaning. */
    ghost predicate Kept(kept: seq<Ranked>, entry: Ranked)
      requires Sound(children, entry)
    {
      exists k :: 0 <= k < |kept| && Sound(children, kept[k]) && Meaning(children, kept[k]) == Meaning(children, entry)
    }

    lemma {:induction false} SameMember(before: seq<Ranked>, read: nat, entry: Ranked)
      requires AllSound(children, before) && Uniform(before) && read < |before| && Keeps(before[..read], entry)
      requires Sound(children, before[read]) && Group(before[read]) != 0 && before[read].bits.Some?
               && Group(entry) == Group(before[read])
      ensures entry.bits == before[read].bits
    {
      var k :| 0 <= k < |before[..read]| && before[..read][k] == entry;
      assert SameGroup(before[k], before[read]);
    }

    lemma {:induction false} CompactedSound(before: seq<Ranked>, read: nat, kept: seq<Ranked>)
      requires read <= |before| && AllSound(children, before) && Compacted(before, read, kept)
      ensures AllSound(children, kept)
      ensures forall k :: 0 <= k < |kept| ==> Keeps(before[..read], kept[k])
    {
      forall k | 0 <= k < |kept|
        ensures Keeps(before[..read], kept[k])
      {
      }
    }

    lemma {:induction false} KeptMore(before: seq<Ranked>, read: nat, kept: seq<Ranked>, now: seq<Ranked>)
      requires AllSound(children, before) && read < |before| && Compacted(before, read, kept)
      requires now == kept + [before[read]] || (now == kept && Kept(kept, before[read]))
      ensures Compacted(before, read + 1, now)
    {
      forall k | 0 <= k < |now|
        ensures Keeps(before[..read + 1], now[k])
      {
        if k < |kept| {
          assert Keeps(before[..read], kept[k]);
          var j :| 0 <= j < |before[..read]| && before[..read][j] == kept[k];
          assert before[..read + 1][j] == now[k];
        } else {
          assert before[..read + 1][read] == now[k];
        }
      }
      forall k | 0 <= k < read + 1
        ensures Kept(now, before[k])
      {
        if k < read || now == kept {
          assert Kept(kept, before[k]);
          var j :| 0 <= j < |kept| && Sound(children, kept[j])
                     && Meaning(children, kept[j]) == Meaning(children, before[k]);
          assert now[j] == kept[j];
        } else {
          assert now[|kept|] == before[k];
        }
      }
    }

    lemma {:induction false} CompactedSame(before: seq<Ranked>, kept: seq<Ranked>)
      requires AllSound(children, before) && Compacted(before, |before|, kept)
      ensures AllSound(children, kept) && SameConjunction(children, before, kept)
    {
      CompactedSound(before, |before|, kept);
      forall id: nat
        ensures Survives(children, before, id) <==> Survives(children, kept, id)
      {
        if Survives(children, kept, id) {
          forall k | 0 <= k < |before|
            ensures id in Meaning(children, before[k])
          {
            assert Kept(kept, before[k]);
            var j :| 0 <= j < |kept| && Sound(children, kept[j])
                       && Meaning(children, kept[j]) == Meaning(children, before[k]);
            assert id in Meaning(children, kept[j]);
          }
        }
        if Survives(children, before, id) {
          forall k | 0 <= k < |kept|
            ensures id in Meaning(children, kept[k])
          {
            assert Keeps(before[..|before|], kept[k]);
            var j :| 0 <= j < |before| && before[j] == kept[k];
            assert id in Meaning(children, before[j]);
          }
        }
      }
    }

    /** Combines every group and keeps one entry of it; the tail behind the kept prefix is left as it was. */
    method CollectSharedWildcards(a: array<Ranked>, n: nat) returns (m: nat)
      requires Grouped() && n <= a.Length && AllSound(children, a[..n])
      requires forall k :: 0 <= k < n && Group(a[k]) != 0 ==> a[k].bits.None?
      modifies a
      ensures m <= n && (n > 0 ==> m > 0) && a[n..] == old(a[n..]) && AllSound(children, a[..n])
      ensures OnePerGroup(a[..m])
      ensures SameConjunction(children, old(a[..n]), a[..m])
      ensures SameConjunction(children, old(a[..n]), a[..n])
    {
      ghost var before := a[..n];
      var i := 0;
      while i < n
        invariant 0 <= i <= n && a[n..] == old(a[n..]) && AllSound(children, a[..n])
        invariant SameConjunction(children, before, a[..n]) && Uniform(a[..n])
        invariant forall k :: 0 <= k < n ==> a[k].bits.Some? || a[k] == before[k]
        invariant forall k :: 0 <= k < i && Group(a[k]) != 0 ==> a[k].bits.Some?
      {
        assert Sound(children, a[..n][i]);
        if Group(a[i]) != 0 && a[i].bits.None? {
          FirstOfGroup(a[..n], i);
          CombineGroup(a, i, n);
        }
        i := i + 1;
      }
      ghost var combined, all := a[..n], a[..];
      ghost var kept;
      m, kept := CompactGroups(a, n);
      CompactedSame(combined, kept);
      PartsKept(all, a[..], m, n);
      TailKept(before, combined, a[..n], m);
    }

    lemma {:induction false} PartsKept(before: seq<Ranked>, now: seq<Ranked>, m: nat, n: nat)
      requires m <= n <= |before| == |now| && now[m..] == before[m..]
      ensures now[..n][..m] == now[..m] && now[..n][m..] == before[..n][m..] && now[n..] == before[n..]
    {
      assert now[n..] == now[m..][n - m..] && before[n..] == before[m..][n - m..];
      forall k | m <= k < n
        ensures now[k] == before[k]
      {
        assert now[k] == now[m..][k - m] && before[k] == before[m..][k - m];
      }
    }

    lemma {:induction false} FirstOfGroup(entries: seq<Ranked>, i: nat)
      requires AllSound(children, entries) && Uniform(entries) && i < |entries|
      requires Group(entries[i]) != 0 && entries[i].bits.None?
      requires forall k :: 0 <= k < i && Group(entries[k]) != 0 ==> entries[k].bits.Some?
      ensures forall k :: 0 <= k < i ==> !SameGroup(entries[i], entries[k])
    {
      forall k | 0 <= k < i
        ensures !SameGroup(entries[i], entries[k])
      {
        assert SameGroup(entries[i], entries[k]) ==> SameGroup(entries[k], entries[i]);
      }
    }

    /** A stale tail repeats constraints that the kept prefix already carries. */
    lemma {:induction false} TailKept(before: seq<Ranked>, combined: seq<Ranked>, now: seq<Ranked>, m: nat)
      requires AllSound(children, before) && AllSound(children, combined) && SameConjunction(children, before, combined)
      requires m <= |combined| == |now| && now[m..] == combined[m..]
      requires AllSound(children, now[..m]) && SameConjunction(children, combined, now[..m])
      ensures AllSound(children, now) && SameConjunction(children, before, now)
    {
      assert now == now[..m] + now[m..];
      forall k | 0 <= k < |now[m..]|
        ensures Sound(children, now[m..][k])
      {
        assert now[m..][k] == combined[m + k];
      }
      forall id: nat
        ensures Survives(children, before, id) <==> Survives(children, now, id)
      {
        SurvivesConcat(children, now[..m], now[m..], id);
        if Survives(children, combined, id) {
          forall k | 0 <= k < |now[m..]|
            ensures id in Meaning(children, now[m..][k])
          {
            assert now[m..][k] == combined[m + k];
          }
        }
      }
    }

    // ----- narrowing -----

    /**
     The state before entry `i` is processed: entry 0 is a broad bitmap, and from the second entry on `dst` holds the
     non-empty conjunction of the entries so far.
     */
    ghost predicate Progress(entries: seq<Ranked>, i: nat, dst: set<nat>)
      requires AllSound(children, entries) && i <= |entries|
    {
      && (i > 0 ==> entries[0].bits.Some? && entries[0].card > CANDIDATE_SCAN_LIMIT)
      && (if i <= 1 then dst == {} else dst != {} && Holds(children, dst, entries[..i]))
    }

    /** Replaces the rest of the work by ID checks of the entries from `from` on. */
    method ValidateRest(a: array<Ranked>, from: nat, n: nat, dst: Bitmap, ghost before: seq<Ranked>) returns (ok: bool)
      requires Valid() && 0 < from <= n <= a.Length && AllSound(children, a[..]) && a[0].bits.Some?
      requires AllSound(children, before) && SameConjunction(children, before, a[..n])
      requires Holds(children, dst.ids, a[..from])
      modifies a, dst
      ensures a[n..] == old(a[n..]) && AllSound(children, a[..]) && SameConjunction(children, before, a[..n])
      ensures Holds(children, dst.ids, before) && (ok <==> dst.ids != {}) && a[0].bits.Some?
    {
      ghost var prefix, part, narrowed := a[..from], a[from..n], dst.ids;
      assert a[..n] == prefix + part;
      assert prefix[0] == a[0];
      ok := ValidateCandidates(a, from, n, dst);
      assert a[..n] == prefix + a[from..n];
      assert prefix[0] == a[0];
      RestValidated(before, prefix, part, a[from..n], narrowed, dst.ids);
    }

    lemma {:induction false} RestValidated(before: seq<Ranked>, prefix: seq<Ranked>, part: seq<Ranked>,
                                           checked: seq<Ranked>, candidates: set<nat>, narrowed: set<nat>)
      requires AllSound(children, before) && AllSound(children, prefix) && AllSound(children, part)
               && AllSound(children, checked)
      requires AllSound(children, prefix + part) && SameConjunction(children, before, prefix + part)
      requires SameConjunction(children, part, checked) && Holds(children, candidates, prefix)
      requires forall id: nat :: id in narrowed <==> id in candidates && Survives(children, checked, id)
      ensures AllSound(children, prefix + checked) && SameConjunction(children, before, prefix + checked)
      ensures Holds(children, narrowed, before)
    {
      SoundParts(prefix, checked, []);
      assert prefix + checked + [] == prefix + checked;
      forall id: nat
        ensures Survives(children, before, id) <==> Survives(children, prefix + checked, id)
        ensures id in narrowed <==> Survives(children, before, id)
      {
        SurvivesConcat(children, prefix, part, id);
        SurvivesConcat(children, prefix, checked, id);
      }
    }

    /** An empty prefix of the conjunction empties the whole. */
    lemma {:induction false} NothingLeft(before: seq<Ranked>, entries: seq<Ranked>, i: nat)
      requires AllSound(children, before) && AllSound(children, entries) && SameConjunction(children, before, entries)
      requires i <= |entries| && Holds(children, {}, entries[..i])
      ensures Holds(children, {}, before)
    {
      HoldsNothing(children, entries[..i], entries[i..]);
      assert entries == entries[..i] + entries[i..];
    }

    lemma {:induction false} NextHeld(entries: seq<Ranked>, i: nat, dst: set<nat>)
      requires AllSound(children, entries) && i < |entries| && Holds(children, dst, entries[..i])
      ensures Holds(children, dst * Meaning(children, entries[i]), entries[..i + 1])
    {
      HoldsAnd(children, dst, entries[..i], entries[i]);
      assert entries[..i + 1] == entries[..i] + [entries[i]];
    }

    predicate RangesDisjoint(first: set<nat>, second: set<nat>) {
      || first == {}
      || second == {}
      || (forall x, y :: x in first && y in second ==> x < y)
      || (forall x, y :: x in first && y in second ==> y < x)
    }

    /** Acquires the complete result of an entry that has no bitmap yet. */
    method Materialize(a: array<Ranked>, i: nat, n: nat, ghost before: seq<Ranked>)
      requires i < n <= a.Length && AllSound(children, a[..]) && AllSound(children, before)
      requires SameConjunction(children, before, a[..n])
      modifies a
      ensures a[n..] == old(a[n..]) && a[..i] == old(a[..i]) && AllSound(children, a[..])
      ensures SameConjunction(children, before, a[..n])
      ensures a[i].bits == Some(Meaning(children, old(a[i]))) && a[i].childIdx == old(a[i]).childIdx
      ensures a[i].card == |a[i].bits.value|
    {
      ghost var was := a[..n];
      assert Sound(children, a[..][i]) && was[i] == a[i];
      if a[i].bits.None? {
        var bits := children[a[i].childIdx].result;
        a[i] := Ranked(Some(bits), |bits|, a[i].childIdx);
        SurvivesUpdate(children, was, i, a[i]);
        assert a[..n] == was[i := a[i]];
        forall k | 0 <= k < a.Length
          ensures Sound(children, a[k])
        {
          assert k != i ==> a[k] == old(a[..])[k];
        }
      }
    }

    /** Moves the operation chosen next to position `i`. */
    method ChooseNext(a: array<Ranked>, i: nat, n: nat, ghost before: seq<Ranked>)
      requires i < n <= a.Length && AllSound(children, a[..]) && AllSound(children, before)
      requires SameConjunction(children, before, a[..n])
      modifies a
      ensures a[n..] == old(a[n..]) && a[..i] == old(a[..i]) && AllSound(children, a[..])
      ensures SameConjunction(children, before, a[..n])
    {
      var next: nat := *;
      if i <= next < n {
        SwapEntries(a, i, next, n, before);
      }
    }

    method SwapEntries(a: array<Ranked>, i: nat, j: nat, n: nat, ghost before: seq<Ranked>)
      requires i <= j < n <= a.Length && AllSound(children, a[..]) && AllSound(children, before)
      requires SameConjunction(children, before, a[..n])
      modifies a
      ensures a[n..] == old(a[n..]) && a[..i] == old(a[..i]) && AllSound(children, a[..])
      ensures SameConjunction(children, before, a[..n])
      ensures a[i] == old(a[j]) && a[j] == old(a[i])
    {
      ghost var was, all := a[..n], a[..];
      Swap(a, i, j);
      SurvivesSwap(children, was, i, j);
      SurvivesSwap(children, all, i, j);
      assert a[..n] == was[i := was[j]][j := was[i]];
    }

    /** A small materialized result becomes the candidate source for ID checks of every other entry. */
    method SwitchToValidation(a: array<Ranked>, i: nat, n: nat, dst: Bitmap, ghost before: seq<Ranked>)
      returns (ok: bool)
      requires Valid() && i < n <= a.Length && AllSound(children, a[..]) && AllSound(children, before)
      requires SameConjunction(children, before, a[..n]) && a[i].bits.Some?
      modifies a, dst
      ensures a[n..] == old(a[n..]) && AllSound(children, a[..]) && SameConjunction(children, before, a[..n])
      ensures Holds(children, dst.ids, before) && (ok <==> dst.ids != {}) && a[0].bits.Some?
    {
      dst.Clear();
      dst.Or(a[i].bits.value);
      SwapEntries(a, 0, i, n, before);
      assert Sound(children, a[..][0]);
      HoldsOne(children, a[0]);
      assert a[..1] == [a[0]];
      ok := ValidateRest(a, 1, n, dst, before);
    }

    /** After entry `i` has narrowed `dst`: stop when nothing is left, or switch to ID checks, or go on. */
    method AfterNarrowing(a: array<Ranked>, i: nat, n: nat, dst: Bitmap, ghost before: seq<Ranked>)
      returns (done: bool, ok: bool)
      requires Valid() && 0 < i < n <= a.Length && AllSound(children, a[..]) && AllSound(children, before)
      requires SameConjunction(children, before, a[..n]) && a[0].bits.Some? && a[0].card > CANDIDATE_SCAN_LIMIT
      requires Holds(children, dst.ids, a[..i + 1])
      modifies a, dst
      ensures a[n..] == old(a[n..]) && AllSound(children, a[..]) && SameConjunction(children, before, a[..n])
      ensures a[0].bits.Some?
      ensures done ==> Holds(children, dst.ids, before) && (ok <==> dst.ids != {})
      ensures !done ==> Progress(a[..n], i + 1, dst.ids)
    {
      assert a[..n][..i + 1] == a[..i + 1];
      if dst.ids == {} {
        NothingLeft(before, a[..n], i + 1);
        return true, false;
      }
      var validate: bool := *;
      if validate {
        ok := ValidateRest(a, i + 1, n, dst, before);
        return true, ok;
      }
      return false, true;
    }

    /** In-place filtering of the current candidates by the child of entry `i`. */
    method FilterStep(a: array<Ranked>, i: nat, dst: Bitmap)
      requires 0 < i < a.Length && AllSound(children, a[..])
      requires Holds(children, dst.ids, a[..i]) && a[i].childIdx < |children| && children[a[i].childIdx].filter
      modifies dst
      ensures Holds(children, dst.ids, a[..i + 1])
    {
      assert Sound(children, a[..][i]);
      NextHeld(a[..], i, dst.ids);
      assert a[..][..i] == a[..i] && a[..][..i + 1] == a[..i + 1];
      dst.And(children[a[i].childIdx].result);
    }

    /** Intersects `dst` with the bitmap of entry `i`, unless the ID ranges already prove the result empty. */
    method AndStep(a: array<Ranked>, i: nat, dst: Bitmap)
      requires 0 < i < a.Length && AllSound(children, a[..])
      requires Holds(children, dst.ids, a[..i]) && a[i].bits.Some?
      modifies dst
      ensures Holds(children, dst.ids, a[..i + 1])
    {
      NextHeld(a[..], i, dst.ids);
      assert a[..][..i] == a[..i] && a[..][..i + 1] == a[..i + 1];
      var prune: bool := *;
      if prune && RangesDisjoint(dst.ids, a[i].bits.value) {
        assert dst.ids * a[i].bits.value == {};
        dst.Clear();
      } else {
        dst.And(a[i].bits.value);
      }
    }

    /** One round of the executor. */
    method Step(a: array<Ranked>, i: nat, n: nat, dst: Bitmap, ghost before: seq<Ranked>) returns (done: bool, ok: bool)
      requires Valid() && i < n <= a.Length && AllSound(children, a[..]) && AllSound(children, before)
      requires SameConjunction(children, before, a[..n]) && Progress(a[..n], i, dst.ids)
      modifies a, dst
      ensures a[n..] == old(a[n..]) && AllSound(children, a[..]) && SameConjunction(children, before, a[..n])
      ensures done ==> Holds(children, dst.ids, before) && (ok <==> dst.ids != {}) && (ok ==> a[0].bits.Some?)
      ensures !done ==> Progress(a[..n], i + 1, dst.ids)
    {
      if i > 0 {
        assert a[..n][..i] == a[..i];
        ChooseNext(a, i, n, before);
        assert a[0] == a[..i][0] == old(a[..i])[0];
        assert Sound(children, a[..][0]);
        if i == 1 {
          dst.Or(a[0].bits.value);
          HoldsOne(children, a[0]);
          assert a[..1] == [a[0]];
        }
        assert Holds(children, dst.ids, a[..i]);
        assert Sound(children, a[..][i]);
        var filtering: bool := *;
        if filtering && children[a[i].childIdx].filter {
          FilterStep(a, i, dst);
          done, ok := AfterNarrowing(a, i, n, dst, before);
          return;
        }
      }
      ghost var prefix := a[..i];
      Materialize(a, i, n, before);
      if a[i].card == 0 {
        dst.Clear();
        EmptyEntry(before, a[..n], i);
        return true, false;
      }
      if a[i].card <= CANDIDATE_SCAN_LIMIT {
        ok := SwitchToValidation(a, i, n, dst, before);
        return true, ok;
      }
      if i == 0 {
        return false, true;
      }
      assert a[0] == a[..i][0] == prefix[0];
      AndStep(a, i, dst);
      done, ok := AfterNarrowing(a, i, n, dst, before);
    }

    lemma {:induction false} EmptyEntry(before: seq<Ranked>, entries: seq<Ranked>, i: nat)
      requires AllSound(children, before) && AllSound(children, entries) && SameConjunction(children, before, entries)
      requires i < |entries| && Meaning(children, entries[i]) == {}
      ensures Holds(children, {}, before)
    {
      forall id: nat
        ensures !Survives(children, entries, id)
      {
        assert id !in Meaning(children, entries[i]);
      }
    }

    /** Narrows `dst` to the conjunction of the first `n` entries; a false return means that it is empty. */
    method Narrow(a: array<Ranked>, n: nat, dst: Bitmap) returns (ok: bool)
      requires Valid() && 0 < n <= a.Length && AllSound(children, a[..]) && dst.ids == {}
      modifies a, dst
      ensures a[n..] == old(a[n..]) && AllSound(children, a[..]) && SameConjunction(children, old(a[..n]), a[..n])
      ensures Holds(children, dst.ids, old(a[..n])) && (ok <==> dst.ids != {}) && (ok ==> a[0].bits.Some?)
    {
      ghost var before := a[..n];
      var i := 0;
      while i < n
        invariant 0 <= i <= n && a[n..] == old(a[n..]) && AllSound(children, a[..])
        invariant SameConjunction(children, before, a[..n]) && Progress(a[..n], i, dst.ids)
      {
        var done;
        done, ok := Step(a, i, n, dst, before);
        if done {
          return;
        }
        i := i + 1;
      }
      assert Sound(children, a[..][0]);
      if n == 1 {
        dst.Or(a[0].bits.value);
        HoldsOne(children, a[0]);
        assert a[..1] == [a[0]];
      }
      assert a[..n][..n] == a[..n];
      HoldsSame(children, dst.ids, a[..n], before);
      ok := true;
    }

    /**
     The executor: combines shared wildcards, then narrows. Whatever the cost tests decide, `dst` becomes the
     conjunction, a false return means that it is empty, and the caller's whole slice keeps its meaning.
     */
    method Intersect(a: array<Ranked>, n: nat, dst: Bitmap) returns (ok: bool)
      requires Valid() && Grouped() && 0 < n <= a.Length && AllSound(children, a[..]) && dst.ids == {}
      requires forall k :: 0 <= k < n && a[k].childIdx < |children| && Group(a[k]) != 0 ==> a[k].bits.None?
      modifies a, dst
      ensures a[n..] == old(a[n..]) && AllSound(children, a[..]) && SameConjunction(children, old(a[..n]), a[..n])
      ensures Holds(children, dst.ids, old(a[..n])) && (ok <==> dst.ids != {}) && (ok ==> a[0].bits.Some?)
    {
      ghost var before, behind := a[..n], a[n..];
      forall k | 0 <= k < n
        ensures Sound(children, a[..n][k])
      {
        assert a[..n][k] == a[..][k];
      }
      var m := CollectSharedWildcards(a, n);
      SoundParts(a[..n], behind, []);
      assert a[..] == a[..n] + behind + [];
      ghost var prefix, tail := a[..m], a[m..n];
      assert a[..n] == prefix + tail;
      ok := Narrow(a, m, dst);
      assert a[m..n] == a[m..][..n - m] == tail && a[n..] == a[m..][n - m..];
      assert a[..n] == a[..m] + tail;
      PrefixReplaced(before, prefix, a[..m], tail);
      HoldsSame(children, dst.ids, prefix, before);
    }

    lemma {:induction false} PrefixReplaced(before: seq<Ranked>, prefix: seq<Ranked>, now: seq<Ranked>,
                                            tail: seq<Ranked>)
      requires AllSound(children, before) && AllSound(children, prefix) && AllSound(children, now)
               && AllSound(children, tail)
      requires SameConjunction(children, prefix, now)
      requires AllSound(children, prefix + tail) && SameConjunction(children, before, prefix + tail)
      ensures AllSound(children, now + tail) && SameConjunction(children, before, now + tail)
    {
      SoundParts(now, tail, []);
      assert now + tail + [] == now + tail;
      forall id: nat
        ensures Survives(children, before, id) <==> Survives(children, now + tail, id)
      {
        SurvivesConcat(children, prefix, tail, id);
        SurvivesConcat(children, now, tail, id);
      }
    }
  }
}
