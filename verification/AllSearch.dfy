/**
 Searching an All without a local cache: ranking, class deduplication, the nested search that fills a bitmap, and
 the root search that appends result values. Cost tests are arbitrary here; the only fact used about an estimate is
 that it is an upper bound, so that zero means an empty result.
 */
module AllSearch {
  import opened Bitmaps
  import opened AllExecution

  const UNKNOWN_CARDINALITY: nat := 0xFFFF_FFFF_FFFF_FFFF
  const DIRECT_EXCLUSION_SCAN_LIMIT: nat := 16

  /** The rules that match every child. */
  ghost predicate Matches(children: seq<Child>, id: nat) {
    forall c :: 0 <= c < |children| ==> id in children[c].result
  }

  /** Equal nonzero classes stand for equal results at this query. */
  ghost predicate ClassesAgree(children: seq<Child>) {
    forall c, d :: 0 <= c < d < |children| && children[c].equalityClass == children[d].equalityClass != 0 ==>
      children[c].result == children[d].result
  }

  /** Only a left-over exclusion lacks direct ID checks, and such a child contributes nothing. */
  ghost predicate Checkable(children: seq<Child>) {
    forall c :: 0 <= c < |children| && !children[c].direct ==> children[c].result == {}
  }

  /** An entry that has not been combined with others stands for its child's result. */
  ghost predicate Plain(children: seq<Child>, entry: Ranked) {
    && Sound(children, entry)
    && Meaning(children, entry) == children[entry.childIdx].result
    && (entry.bits.Some? ==> children[entry.childIdx].planning)
  }

  ghost predicate AllPlain(children: seq<Child>, entries: seq<Ranked>) {
    forall k :: 0 <= k < |entries| ==> Plain(children, entries[k])
  }

  lemma {:induction false} PlainSound(children: seq<Child>, entries: seq<Ranked>)
    requires AllPlain(children, entries)
    ensures AllSound(children, entries)
  {
  }

  /** The entries stand for the conjunction of all children. */
  ghost predicate Complete(children: seq<Child>, entries: seq<Ranked>)
    requires AllSound(children, entries)
  {
    forall id: nat :: Survives(children, entries, id) <==> Matches(children, id)
  }

  lemma {:induction false} InOrderComplete(children: seq<Child>, entries: seq<Ranked>)
    requires AllPlain(children, entries) && |entries| == |children|
    requires forall k :: 0 <= k < |entries| ==> entries[k].childIdx == k
    ensures AllSound(children, entries) && Complete(children, entries)
  {
    PlainSound(children, entries);
    forall id: nat
      ensures Survives(children, entries, id) <==> Matches(children, id)
    {
      forall k | 0 <= k < |entries|
        ensures id in Meaning(children, entries[k]) <==> id in children[k].result
      {
        assert Plain(children, entries[k]);
      }
    }
  }

  lemma {:induction false} CompletePermuted(children: seq<Child>, a: seq<Ranked>, b: seq<Ranked>)
    requires AllPlain(children, a) && AllSound(children, a) && Complete(children, a) && multiset(a) == multiset(b)
    ensures AllPlain(children, b) && AllSound(children, b) && Complete(children, b)
  {
    SurvivesPermuted(children, a, b);
    forall k | 0 <= k < |b|
      ensures Plain(children, b[k])
    {
      assert b[k] in b;
    }
  }

  lemma {:induction false} CompleteSame(children: seq<Child>, a: seq<Ranked>, b: seq<Ranked>)
    requires AllSound(children, a) && AllSound(children, b) && SameConjunction(children, a, b) && Complete(children, a)
    ensures Complete(children, b)
  {
  }

  lemma {:induction false} PlainUngrouped(root: AllRule, entries: seq<Ranked>)
    requires root.Grouped() && AllPlain(root.children, entries)
    ensures forall k :: 0 <= k < |entries| && entries[k].childIdx < |root.children| && root.Group(entries[k]) != 0 ==>
              entries[k].bits.None?
  {
    forall k | 0 <= k < |entries|
      ensures root.children[entries[k].childIdx].group != 0 ==> entries[k].bits.None?
    {
      assert Plain(root.children, entries[k]);
    }
  }

  // ----- ranking -----

  /** No estimate is below the number of results; in particular, zero means that there are none. */
  ghost predicate Estimated(children: seq<Child>) {
    forall c :: 0 <= c < |children| ==> EstimatesBound(children[c])
  }

  ghost predicate EstimatesBound(child: Child) {
    && (child.cheap.Some? ==> |child.result| <= child.cheap.value)
    && (child.estimate.Some? ==> |child.result| <= child.estimate.value)
  }

  ghost predicate SomeChildEmpty(children: seq<Child>) {
    exists c :: 0 <= c < |children| && children[c].result == {}
  }

  /** One entry for each of the first `n` children, in their order. */
  ghost predicate InOrder(children: seq<Child>, entries: seq<Ranked>, n: nat) {
    n <= |entries| && forall k :: 0 <= k < n ==> Plain(children, entries[k]) && entries[k].childIdx == k
  }

  /** The cardinality known in constant time. */
  function CheapCard(child: Child): nat {
    if child.planning then |child.result| else if child.cheap.Some? then child.cheap.value else UNKNOWN_CARDINALITY
  }

  /** The other estimate is asked only for what is not known in constant time. */
  function FullCard(child: Child): nat {
    if !child.planning && CheapCard(child) == UNKNOWN_CARDINALITY && child.estimate.Some? then child.estimate.value
    else CheapCard(child)
  }

  /** Some child is known in constant time to be small enough to be scanned, so no other estimate is asked. */
  ghost predicate Scannable(children: seq<Child>) {
    exists c :: 0 <= c < |children| && CheapCard(children[c]) <= CANDIDATE_SCAN_LIMIT
  }

  ghost function RankedCard(children: seq<Child>, child: Child): nat {
    if Scannable(children) then CheapCard(child) else FullCard(child)
  }

  function EntryWith(child: Child, card: nat, c: nat): Ranked {
    Ranked(if child.planning then Some(child.result) else None, card, c)
  }

  /**
   One entry per child: its planning bitmap, or its constant-time estimate, or for now an unknown cardinality. The
   search ends early when one of these shows an empty child.
   */
  method RankCheaply(root: AllRule, a: array<Ranked>) returns (ok: bool, bound: nat)
    requires a.Length == |root.children| && Estimated(root.children)
    modifies a
    ensures !ok ==> SomeChildEmpty(root.children)
    ensures ok ==> InOrder(root.children, a[..], a.Length)
    ensures ok <==> forall c :: 0 <= c < a.Length ==> CheapCard(root.children[c]) != 0
    ensures ok ==> (bound <= CANDIDATE_SCAN_LIMIT <==> Scannable(root.children))
    ensures ok ==> forall c: nat :: c < a.Length ==> a[c] == EntryWith(root.children[c], CheapCard(root.children[c]), c)
  {
    bound := UNKNOWN_CARDINALITY;
    var i := 0;
    while i < a.Length
      invariant 0 <= i <= a.Length && InOrder(root.children, a[..], i) && bound <= UNKNOWN_CARDINALITY
      invariant forall c :: 0 <= c < i ==> CheapCard(root.children[c]) != 0 && bound <= CheapCard(root.children[c])
      invariant bound == UNKNOWN_CARDINALITY || exists c :: 0 <= c < i && CheapCard(root.children[c]) == bound
      invariant forall c: nat :: c < i ==> a[c] == EntryWith(root.children[c], CheapCard(root.children[c]), c)
    {
      var child := root.children[i];
      assert EstimatesBound(child);
      var bits: Option<set<nat>> := if child.planning then Some(child.result) else None;
      var card := if child.planning then |child.result|
                  else if child.cheap.Some? then child.cheap.value
                  else UNKNOWN_CARDINALITY;
      if child.planning || child.cheap.Some? {
        if card == 0 {
          return false, bound;
        }
        bound := if card < bound then card else bound;
      }
      a[i] := Ranked(bits, card, i);
      i := i + 1;
    }
    ok := true;
  }

  /** Fills in the other estimates, unless some child is already known to be small enough to be scanned. */
  method RankInOrder(root: AllRule, a: array<Ranked>) returns (ok: bool)
    requires a.Length == |root.children| && Estimated(root.children)
    modifies a
    ensures !ok ==> SomeChildEmpty(root.children)
    ensures ok ==> InOrder(root.children, a[..], a.Length)
    ensures ok <==> forall c :: 0 <= c < a.Length ==> RankedCard(root.children, root.children[c]) != 0
    ensures ok ==> forall c: nat :: c < a.Length ==>
              a[c] == EntryWith(root.children[c], RankedCard(root.children, root.children[c]), c)
  {
    var bound;
    ok, bound := RankCheaply(root, a);
    if !ok || bound <= CANDIDATE_SCAN_LIMIT {
      return;
    }
    var i := 0;
    while i < a.Length
      invariant 0 <= i <= a.Length && InOrder(root.children, a[..], a.Length)
      invariant forall c: nat :: c < i ==>
                  FullCard(root.children[c]) != 0
                  && a[c] == EntryWith(root.children[c], FullCard(root.children[c]), c)
      invariant forall c: nat :: i <= c < a.Length ==>
                  a[c] == EntryWith(root.children[c], CheapCard(root.children[c]), c)
    {
      assert Plain(root.children, a[..][i]) && EstimatesBound(root.children[i]);
      var estimate := root.children[i].estimate;
      if a[i].bits.None? && a[i].card == UNKNOWN_CARDINALITY && estimate.Some? {
        if estimate.value == 0 {
          return false;
        }
        ghost var before := a[..];
        a[i] := a[i].(card := estimate.value);
        assert a[..] == before[i := a[i]];
      }
      i := i + 1;
    }
  }

  /** Ascending cardinality; schema order decides between equal ones. */
  ghost predicate RankedBefore(x: Ranked, y: Ranked) {
    x.card < y.card || (x.card == y.card && x.childIdx < y.childIdx)
  }

  /** Ordered up to `i`, except that the entry at `j` may still belong further to the front. */
  ghost predicate OrderedExcept(s: seq<Ranked>, i: nat, j: nat) {
    forall p, q :: 0 <= p < q < |s| && q <= i && q != j ==> RankedBefore(s[p], s[q])
  }

  /** The entries from `i` on are those of the children from `i` on; the others belong to earlier children. */
  ghost predicate Remaining(s: seq<Ranked>, i: nat) {
    forall k :: 0 <= k < |s| ==> if k < i then s[k].childIdx < i else s[k].childIdx == k
  }

  /** The entry of child `i` has moved forward to `j`. */
  ghost predicate Moving(s: seq<Ranked>, i: nat, j: nat) {
    && j <= i < |s| && OrderedExcept(s, i, j) && s[j].childIdx == i
    && forall k :: 0 <= k < |s| && k != j ==> if k <= i then s[k].childIdx < i else s[k].childIdx == k
  }

  lemma {:induction false} OrderForward(s: seq<Ranked>, now: seq<Ranked>, i: nat, j: nat)
    requires 0 < j <= i < |s| == |now| && OrderedExcept(s, i, j) && RankedBefore(s[j], s[j - 1])
    requires forall k :: 0 <= k < |s| ==> now[k] == s[if k == j then j - 1 else if k == j - 1 then j else k]
    ensures OrderedExcept(now, i, j - 1)
  {
    hide RankedBefore;
    forall p, q | 0 <= p < q < |s| && q <= i && q != j - 1
      ensures RankedBefore(now[p], now[q])
    {
      if q == j {
        assert p == j - 1 || RankedBefore(s[p], s[j - 1]);
      } else {
        assert RankedBefore(s[if p == j then j - 1 else if p == j - 1 then j else p], s[q]);
      }
    }
  }

  lemma {:induction false} MovedForward(s: seq<Ranked>, i: nat, j: nat)
    requires 0 < j && Moving(s, i, j) && s[j].card < s[j - 1].card
    ensures Moving(s[j := s[j - 1]][j - 1 := s[j]], i, j - 1)
    ensures multiset(s[j := s[j - 1]][j - 1 := s[j]]) == multiset(s)
  {
    MultisetSwap(s, j, j - 1);
    OrderForward(s, s[j := s[j - 1]][j - 1 := s[j]], i, j);
    hide OrderedExcept;
  }

  lemma {:induction false} InPlace(s: seq<Ranked>, i: nat, j: nat)
    requires Moving(s, i, j) && (j > 0 ==> s[j - 1].card <= s[j].card)
    ensures OrderedExcept(s, i + 1, i + 1) && Remaining(s, i + 1)
  {
    forall p, q | 0 <= p < q < |s| && q <= i
      ensures RankedBefore(s[p], s[q])
    {
      assert q == j ==> p == j - 1 || RankedBefore(s[p], s[j - 1]);
    }
  }

  /** Sorts by estimate, moving each entry in front of the larger ones before it; equal ones keep schema order. */
  method SortByCardinality(root: AllRule, a: array<Ranked>)
    requires Remaining(a[..], 0)
    modifies a
    ensures multiset(a[..]) == multiset(old(a[..])) && OrderedExcept(a[..], a.Length, a.Length)
  {
    var i := 1;
    while i < a.Length
      invariant multiset(a[..]) == multiset(old(a[..])) && 1 <= i && OrderedExcept(a[..], i, i)
      invariant i <= a.Length ==> Remaining(a[..], i)
    {
      MoveForward(root, a, i);
      i := i + 1;
    }
  }

  method MoveForward(root: AllRule, a: array<Ranked>, i: nat)
    requires i < a.Length && OrderedExcept(a[..], i, i) && Remaining(a[..], i)
    modifies a
    ensures multiset(a[..]) == multiset(old(a[..])) && OrderedExcept(a[..], i + 1, i + 1) && Remaining(a[..], i + 1)
  {
    var j := i;
    assert Moving(a[..], i, j);
    hide Moving, OrderedExcept, Remaining;
    while j > 0 && a[j].card < a[j - 1].card
      invariant 0 <= j <= i && multiset(a[..]) == multiset(old(a[..])) && Moving(a[..], i, j)
    {
      ghost var s := a[..];
      MovedForward(s, i, j);
      root.Swap(a, j, j - 1);
      assert a[..] == s[j := s[j - 1]][j - 1 := s[j]];
      j := j - 1;
    }
    InPlace(a[..], i, j);
  }

  /** One entry per child, in ascending order of the estimates and in schema order where they are equal. */
  method RankChildren(root: AllRule, a: array<Ranked>) returns (ok: bool)
    requires a.Length == |root.children| && Estimated(root.children)
    modifies a
    ensures !ok ==> forall id: nat :: !Matches(root.children, id)
    ensures ok ==> AllPlain(root.children, a[..]) && AllSound(root.children, a[..]) && Complete(root.children, a[..])
    ensures ok <==> forall c :: 0 <= c < |root.children| ==> RankedCard(root.children, root.children[c]) != 0
    ensures ok ==> OrderedExcept(a[..], a.Length, a.Length)
    ensures ok ==> forall c: nat :: c < |root.children| ==>
              EntryWith(root.children[c], RankedCard(root.children, root.children[c]), c) in a[..]
  {
    ok := RankInOrder(root, a);
    if ok {
      ghost var ranked := a[..];
      InOrderComplete(root.children, ranked);
      SortByCardinality(root, a);
      CompletePermuted(root.children, ranked, a[..]);
      forall c: nat | c < |root.children|
        ensures EntryWith(root.children[c], RankedCard(root.children, root.children[c]), c) in a[..]
      {
        assert ranked[c] in multiset(a[..]);
      }
    } else {
      var c :| 0 <= c < |root.children| && root.children[c].result == {};
      forall id: nat
        ensures !Matches(root.children, id)
      {
        assert id !in root.children[c].result;
      }
    }
  }

  // ----- class deduplication -----

  /** Keeps the first entry of every equality class; entries without a class are all kept. */
  method DeduplicateEqualityClasses(root: AllRule, a: array<Ranked>) returns (m: nat)
    requires AllPlain(root.children, a[..]) && AllSound(root.children, a[..]) && Complete(root.children, a[..])
    requires ClassesAgree(root.children)
    modifies a
    ensures m <= a.Length && (a.Length > 0 ==> m > 0)
    ensures AllPlain(root.children, a[..]) && AllSound(root.children, a[..]) && Complete(root.children, a[..m])
    ensures OnePerClass(root.children, a[..m])
  {
    ghost var before := a[..];
    ghost var kept, checked;
    m, kept, checked := CompactClasses(root, a);
    AllDeduplicated(root, before, kept, checked, a[..], m);
  }

  method CompactClasses(root: AllRule, a: array<Ranked>)
    returns (m: nat, ghost kept: seq<Ranked>, ghost checked: set<nat>)
    requires AllPlain(root.children, a[..]) && AllSound(root.children, a[..]) && ClassesAgree(root.children)
    modifies a
    ensures m <= a.Length && (a.Length > 0 ==> m > 0) && a[..m] == kept && a[m..] == old(a[..])[m..]
    ensures Deduplicated(root, old(a[..]), a.Length, kept, checked)
  {
    ghost var before := a[..];
    kept, m := [], 0;
    var seen: set<nat> := {};
    var read := 0;
    while read < a.Length
      invariant m <= read <= a.Length && (read > 0 ==> m > 0)
      invariant a[m..] == before[m..] && a[..m] == kept
      invariant Deduplicated(root, before, read, kept, seen)
    {
      assert a[read] == a[m..][read - m] == before[read];
      assert Plain(root.children, before[read]);
      var cls := root.children[a[read].childIdx].equalityClass;
      if cls != 0 && cls in seen {
        Skipped(root, before, read, kept, seen);
      } else {
        EntryKept(root, before, read, kept, seen);
        seen := seen + if cls != 0 then {cls} else {};
        root.KeepEntry(a, m, read, before, kept);
        kept, m := kept + [before[read]], m + 1;
      }
      read := read + 1;
    }
    checked := seen;
  }

  lemma {:induction false} AllDeduplicated(root: AllRule, before: seq<Ranked>, kept: seq<Ranked>, checked: set<nat>,
                                           now: seq<Ranked>, m: nat)
    requires Deduplicated(root, before, |before|, kept, checked) && Complete(root.children, before)
    requires m <= |now| == |before| && now[..m] == kept && now[m..] == before[m..]
    ensures AllPlain(root.children, now) && AllSound(root.children, now) && Complete(root.children, now[..m])
  {
    root.CompactedSame(before, kept);
    CompleteSame(root.children, before, kept);
    forall k | 0 <= k < |now|
      ensures Plain(root.children, now[k])
    {
      assert now[k] == if k < m then kept[k] else before[m..][k - m];
    }
  }

  /** The kept entries represent the first `read` ones, and the checked classes are those of the kept entries. */
  ghost predicate Deduplicated(root: AllRule, before: seq<Ranked>, read: nat, kept: seq<Ranked>, checked: set<nat>) {
    && read <= |before| && AllPlain(root.children, before) && AllSound(root.children, before)
    && AllPlain(root.children, kept) && root.Compacted(before, read, kept)
    && (forall cls: nat :: cls in checked <==> cls != 0 && HasClass(root.children, kept, cls))
    && OnePerClass(root.children, kept)
  }

  /** No equality class occurs twice. */
  ghost predicate OnePerClass(children: seq<Child>, entries: seq<Ranked>) {
    forall i, j :: 0 <= i < j < |entries| && Plain(children, entries[i]) && Plain(children, entries[j])
                   && children[entries[i].childIdx].equalityClass != 0 ==>
      children[entries[i].childIdx].equalityClass != children[entries[j].childIdx].equalityClass
  }

  lemma {:induction false} Skipped(root: AllRule, before: seq<Ranked>, read: nat, kept: seq<Ranked>, checked: set<nat>)
    requires Deduplicated(root, before, read, kept, checked) && read < |before| && ClassesAgree(root.children)
    requires Plain(root.children, before[read]) && root.children[before[read].childIdx].equalityClass in checked
    ensures Deduplicated(root, before, read + 1, kept, checked)
  {
    SameClass(root, before, read, kept, root.children[before[read].childIdx].equalityClass);
    root.KeptMore(before, read, kept, kept);
  }

  lemma {:induction false} EntryKept(root: AllRule, before: seq<Ranked>, read: nat, kept: seq<Ranked>,
                                     checked: set<nat>)
    requires Deduplicated(root, before, read, kept, checked) && read < |before| && Plain(root.children, before[read])
    requires root.children[before[read].childIdx].equalityClass !in checked
    ensures var cls := root.children[before[read].childIdx].equalityClass;
            Deduplicated(root, before, read + 1, kept + [before[read]], checked + if cls != 0 then {cls} else {})
  {
    root.KeptMore(before, read, kept, kept + [before[read]]);
    var cls := root.children[before[read].childIdx].equalityClass;
    assert cls != 0 ==> !HasClass(root.children, kept, cls);
    ClassAdded(root.children, kept, before[read]);
  }

  ghost predicate HasClass(children: seq<Child>, entries: seq<Ranked>, cls: nat) {
    exists k :: 0 <= k < |entries| && Plain(children, entries[k]) && children[entries[k].childIdx].equalityClass == cls
  }

  lemma {:induction false} ClassAdded(children: seq<Child>, kept: seq<Ranked>, entry: Ranked)
    requires Plain(children, entry)
    ensures forall cls: nat :: HasClass(children, kept + [entry], cls) <==>
              HasClass(children, kept, cls) || cls == children[entry.childIdx].equalityClass
  {
    forall cls: nat
      ensures HasClass(children, kept + [entry], cls) <==>
                HasClass(children, kept, cls) || cls == children[entry.childIdx].equalityClass
    {
      var now := kept + [entry];
      if HasClass(children, kept, cls) {
        var k :| 0 <= k < |kept| && Plain(children, kept[k]) && children[kept[k].childIdx].equalityClass == cls;
        assert now[k] == kept[k];
      }
      assert now[|kept|] == entry;
    }
  }

  lemma {:induction false} SameClass(root: AllRule, before: seq<Ranked>, read: nat, kept: seq<Ranked>, cls: nat)
    requires AllPlain(root.children, before) && AllSound(root.children, before) && read < |before|
    requires ClassesAgree(root.children) && cls != 0 && HasClass(root.children, kept, cls)
    requires Plain(root.children, before[read]) && root.children[before[read].childIdx].equalityClass == cls
    ensures root.Kept(kept, before[read])
  {
    var k :| 0 <= k < |kept| && Plain(root.children, kept[k]) && root.children[kept[k].childIdx].equalityClass == cls;
    var c, d := kept[k].childIdx, before[read].childIdx;
    assert root.children[c].result == root.children[d].result;
    assert Meaning(root.children, kept[k]) == Meaning(root.children, before[read]);
  }

  // ----- the nested search -----

  /** Fills an empty bitmap with exactly the rules that match every child. */
  method Search(root: AllRule, dst: Bitmap)
    requires root.Valid() && root.Grouped() && ClassesAgree(root.children) && Estimated(root.children) && dst.ids == {}
    modifies dst
    ensures root.children != [] ==> forall id: nat :: id in dst.ids <==> Matches(root.children, id)
    ensures root.children == [] ==> dst.ids == {}
  {
    var a := new Ranked[|root.children|](_ => Ranked(None, 0, 0));
    var ok := RankChildren(root, a);
    if !ok || a.Length == 0 {
      return;
    }
    var n := DeduplicateEqualityClasses(root, a);
    SelectInitial(root, a, n);
    PlainUngrouped(root, a[..]);
    var validate: bool := *;
    if !validate {
      ok := root.Intersect(a, n, dst);
    } else {
      assert Sound(root.children, a[..][0]);
      dst.Or(if a[0].bits.Some? then a[0].bits.value else root.children[a[0].childIdx].result);
      ghost var first, rest := a[0], a[1..n];
      HoldsOne(root.children, first);
      assert a[..n] == [first] + rest;
      ghost var source := dst.ids;
      ok := root.ValidateCandidates(a, 1, n, dst);
      HoldsRest(root.children, source, dst.ids, [first], rest);
    }
  }

  /** Moves the cheapest complete plan's source to the front. */
  method SelectInitial(root: AllRule, a: array<Ranked>, n: nat)
    requires 0 < n <= a.Length && AllPlain(root.children, a[..]) && AllSound(root.children, a[..])
    requires Complete(root.children, a[..n])
    modifies a
    ensures AllPlain(root.children, a[..]) && AllSound(root.children, a[..]) && Complete(root.children, a[..n])
  {
    var first: nat := *;
    if 0 <= first < n {
      ghost var was, all := a[..n], a[..];
      PlainSound(root.children, was);
      root.Swap(a, 0, first);
      SurvivesSwap(root.children, was, 0, first);
      assert a[..n] == was[0 := was[first]][first := was[0]];
      CompleteSame(root.children, was, a[..n]);
      forall k | 0 <= k < a.Length
        ensures Plain(root.children, a[k])
      {
        assert a[k] == all[if k == 0 then first else if k == first then 0 else k];
      }
    }
  }

  // ----- the root search -----

  /** The result values of the IDs below `bound`, in dense-ID order. */
  function Listed<ID>(bits: set<nat>, values: seq<ID>, bound: nat): (listed: seq<ID>)
    requires bound <= |values|
  {
    if bound == 0 then []
    else Listed(bits, values, bound - 1) + if bound - 1 in bits then [values[bound - 1]] else []
  }

  lemma {:induction false} ListedAgree<ID>(a: set<nat>, b: set<nat>, values: seq<ID>, bound: nat)
    requires bound <= |values| && forall id: nat :: id < bound ==> (id in a <==> id in b)
    ensures Listed(a, values, bound) == Listed(b, values, bound)
  {
    if bound > 0 {
      ListedAgree(a, b, values, bound - 1);
    }
  }

  lemma {:induction false} ListedNothing<ID>(bits: set<nat>, values: seq<ID>, bound: nat)
    requires bound <= |values| && forall id: nat :: id < bound ==> id !in bits
    ensures Listed(bits, values, bound) == []
  {
    if bound > 0 {
      ListedNothing(bits, values, bound - 1);
    }
  }

  /**
   The appended values are those of the IDs in ascending order; with one value per dense ID, as assigned on first
   insertion, each is appended once and in the order of first insertion.
   */
  lemma {:induction false} ListedInInsertionOrder<ID>(bits: set<nat>, values: seq<ID>, bound: nat)
    requires bound <= |values| && forall i, j :: 0 <= i < j < |values| ==> values[i] != values[j]
    ensures |Listed(bits, values, bound)| == |Ascending(bits, bound)|
    ensures forall k :: 0 <= k < |Ascending(bits, bound)| ==>
              Ascending(bits, bound)[k] < bound && Listed(bits, values, bound)[k] == values[Ascending(bits, bound)[k]]
    ensures forall j, k :: 0 <= j < k < |Listed(bits, values, bound)| ==>
              Listed(bits, values, bound)[j] != Listed(bits, values, bound)[k]
  {
    if bound > 0 {
      ListedInInsertionOrder(bits, values, bound - 1);
    }
    AscendingListsBitmap(bits, bound);
    forall k | 0 <= k < |Ascending(bits, bound)|
      ensures Ascending(bits, bound)[k] < bound
    {
      assert Ascending(bits, bound)[k] in Ascending(bits, bound);
    }
  }

  method AppendBitmapValues<ID>(bits: set<nat>, values: seq<ID>, result: seq<ID>) returns (appended: seq<ID>)
    ensures appended == result + Listed(bits, values, |values|)
  {
    appended := result;
    var id := 0;
    while id < |values|
      invariant 0 <= id <= |values| && appended == result + Listed(bits, values, id)
    {
      if id in bits {
        appended := appended + [values[id]];
      }
      id := id + 1;
    }
  }

  /** The rules in the answer: they match every child and no exclusion. */
  ghost function Answer(children: seq<Child>, exclusions: seq<set<nat>>, rules: nat): set<nat> {
    set id: nat | id < rules && Matches(children, id) && id !in Union(exclusions)
  }

  /** An exclusion bitmap, or nothing when there are no exclusions or the scan checks them directly. */
  method BuildAllExclusions(exclusions: seq<set<nat>>, candidates: nat) returns (excluded: Option<set<nat>>)
    ensures excluded.Some? ==> excluded.value == Union(exclusions)
    ensures excluded.None? && candidates > CANDIDATE_SCAN_LIMIT ==> exclusions == []
  {
    var direct := candidates <= DIRECT_EXCLUSION_SCAN_LIMIT && candidates <= CANDIDATE_SCAN_LIMIT;
    if exclusions == [] || direct {
      return None;
    }
    excluded := Some(Union(exclusions));
  }

  /** Every bitmap but the first is acquired; an empty or disjoint one ends the search. */
  method MaterializeAfterFirst(root: AllRule, a: array<Ranked>, n: nat) returns (ok: bool)
    requires 0 < n <= a.Length && AllSound(root.children, a[..]) && Complete(root.children, a[..n]) && a[0].bits.Some?
    modifies a
    ensures AllSound(root.children, a[..]) && Complete(root.children, a[..n]) && a[0] == old(a[0])
    ensures ok ==> forall k :: 0 <= k < n ==> a[k].bits.Some?
    ensures !ok ==> forall id: nat :: !Matches(root.children, id)
  {
    ghost var before := a[..n];
    SoundPrefix(root.children, a[..], n);
    var i := 1;
    while i < n
      invariant 1 <= i <= n && AllSound(root.children, a[..]) && AllSound(root.children, a[..n])
      invariant SameConjunction(root.children, before, a[..n])
      invariant a[..i][0] == old(a[0]) && forall k :: 0 <= k < i ==> a[..i][k].bits.Some?
    {
      ghost var done := a[..i];
      root.Materialize(a, i, n, before);
      assert a[..i + 1] == done + [a[i]];
      SoundPrefix(root.children, a[..], n);
      var prune: bool := *;
      if a[i].bits.value == {} || (i == 1 && prune && root.RangesDisjoint(a[..i][0].bits.value, a[i].bits.value)) {
        CompleteSame(root.children, before, a[..n]);
        forall id: nat
          ensures !Matches(root.children, id)
        {
          AbsentRejects(root.children, a[..n], if id in a[i].bits.value then 0 else i, id);
        }
        assert a[0] == a[..i][0];
        return false;
      }
      i := i + 1;
    }
    CompleteSame(root.children, before, a[..n]);
    forall k | 0 <= k < n
      ensures a[k].bits.Some?
    {
      assert a[k] == a[..i][k];
    }
    assert a[0] == a[..i][0];
    ok := true;
  }

  lemma {:induction false} SoundPrefix(children: seq<Child>, entries: seq<Ranked>, n: nat)
    requires AllSound(children, entries) && n <= |entries|
    ensures AllSound(children, entries[..n])
  {
  }

  lemma {:induction false} AbsentRejects(children: seq<Child>, entries: seq<Ranked>, k: nat, id: nat)
    requires AllSound(children, entries) && k < |entries| && id !in Meaning(children, entries[k])
    ensures !Survives(children, entries, id)
  {
  }

  /** Acquires the unsupported children of a small source in one batch. */
  method MaterializeBatch(root: AllRule, a: array<Ranked>, n: nat) returns (ok: bool)
    requires 0 < n <= a.Length && AllSound(root.children, a[..]) && Complete(root.children, a[..n])
    modifies a
    ensures AllSound(root.children, a[..]) && Complete(root.children, a[..n]) && a[0] == old(a[0])
    ensures !ok ==> forall id: nat :: !Matches(root.children, id)
  {
    ok := true;
    if !root.directIDComplete {
      ghost var before := a[..n];
      SoundPrefix(root.children, a[..], n);
      ok := root.MaterializeUnsupported(a, 1, n);
      SoundPrefix(root.children, a[..], n);
      assert a[0] == a[..1][0] == before[0];
      root.MeaningKept(before, a[..n]);
      CompleteSame(root.children, before, a[..n]);
      if !ok {
        var k :| 1 <= k < n && a[k].bits == Some({});
        forall id: nat
          ensures !Matches(root.children, id)
        {
          AbsentRejects(root.children, a[..n], k, id);
        }
      }
    }
  }

  /** Prepares the candidate source; a false return means that nothing matches. */
  method PrepareCandidates(root: AllRule, a: array<Ranked>, n: nat, candidates: Bitmap) returns (ok: bool)
    requires root.Valid() && root.Grouped() && 0 < n <= a.Length && candidates.ids == {}
    requires AllPlain(root.children, a[..]) && AllSound(root.children, a[..]) && Complete(root.children, a[..n])
    modifies a, candidates
    ensures AllSound(root.children, a[..]) && Complete(root.children, a[..n])
    ensures !ok ==> forall id: nat :: !Matches(root.children, id)
    ensures ok ==> a[0].bits.Some?
    ensures ok && old(a[0].card) > CANDIDATE_SCAN_LIMIT ==>
              forall id: nat :: id in candidates.ids <==> Matches(root.children, id)
    ensures ok && old(a[0].card) <= CANDIDATE_SCAN_LIMIT < a[0].card ==> forall k :: 0 <= k < n ==> a[k].bits.Some?
  {
    ghost var before := a[..n];
    SoundPrefix(root.children, a[..], n);
    if a[0].card > CANDIDATE_SCAN_LIMIT {
      PlainUngrouped(root, a[..]);
      ok := root.Intersect(a, n, candidates);
      SoundPrefix(root.children, a[..], n);
      CompleteSame(root.children, before, a[..n]);
      return;
    }
    if a[0].bits.Some? {
      ok := MaterializeBatch(root, a, n);
      return;
    }
    root.Materialize(a, 0, n, before);
    SoundPrefix(root.children, a[..], n);
    CompleteSame(root.children, before, a[..n]);
    if a[0].card <= CANDIDATE_SCAN_LIMIT {
      ok := MaterializeBatch(root, a, n);
    } else {
      ok := MaterializeAfterFirst(root, a, n);
    }
  }

  /** Intersects the bitmaps of all entries and appends the remaining values. */
  method AppendBitmapAllMatches<ID>(root: AllRule, a: array<Ranked>, n: nat, exclusions: seq<set<nat>>,
                                    excluded: Option<set<nat>>,
                                    values: seq<ID>, result: seq<ID>) returns (appended: seq<ID>)
    requires 0 < n <= a.Length && AllSound(root.children, a[..n]) && Complete(root.children, a[..n])
    requires forall k :: 0 <= k < n ==> a[k].bits.Some?
    requires excluded.Some? ==> excluded.value == Union(exclusions)
    requires excluded.None? ==> exclusions == []
    ensures appended == result + Listed(Answer(root.children, exclusions, |values|), values, |values|)
  {
    ghost var entries := a[..n];
    HoldsOne(root.children, entries[0]);
    assert entries[..1] == [entries[0]];
    var bits := a[0].bits.value;
    var i := 1;
    while i < n
      invariant 1 <= i <= n && Holds(root.children, bits, entries[..i])
    {
      if bits == {} {
        HoldsNothing(root.children, entries[..i], entries[i..]);
        assert entries == entries[..i] + entries[i..];
        i := n;
        assert entries[..n] == entries;
        break;
      }
      root.NextHeld(entries, i, bits);
      bits := bits * a[i].bits.value;
      i := i + 1;
    }
    assert entries[..n] == entries;
    if excluded.Some? {
      bits := bits - excluded.value;
    }
    appended := AppendBitmapValues(bits, values, result);
    ListedAgree(Answer(root.children, exclusions, |values|), bits, values, |values|);
  }

  /** Checks each ID of the first bitmap against the exclusions and all other entries. */
  method AppendScannedAllMatches<ID>(root: AllRule, a: array<Ranked>, n: nat, exclusions: seq<set<nat>>,
                                     excluded: Option<set<nat>>,
                                     values: seq<ID>, result: seq<ID>) returns (appended: seq<ID>)
    requires 0 < n <= a.Length && AllSound(root.children, a[..]) && Complete(root.children, a[..n]) && a[0].bits.Some?
    requires Checkable(root.children) && (excluded.Some? ==> excluded.value == Union(exclusions))
    ensures appended == result + Listed(Answer(root.children, exclusions, |values|), values, |values|)
  {
    appended := result;
    var id := 0;
    while id < |values|
      invariant 0 <= id <= |values|
      invariant appended == result + Listed(Answer(root.children, exclusions, |values|), values, id)
    {
      var matches := ScanID(root, a, n, exclusions, excluded, id);
      if matches {
        appended := appended + [values[id]];
      }
      id := id + 1;
    }
  }

  /** One ID of the scan: in the source, not excluded, and in every other entry. */
  method ScanID(root: AllRule, a: array<Ranked>, n: nat, exclusions: seq<set<nat>>, excluded: Option<set<nat>>, id: nat)
    returns (matches: bool)
    requires 0 < n <= a.Length && AllSound(root.children, a[..]) && Complete(root.children, a[..n]) && a[0].bits.Some?
    requires Checkable(root.children) && (excluded.Some? ==> excluded.value == Union(exclusions))
    ensures matches <==> Matches(root.children, id) && id !in Union(exclusions)
  {
    matches := false;
    if id in a[0].bits.value {
      var rejected: bool;
      if excluded.Some? {
        rejected := id in excluded.value;
      } else {
        rejected := InAny(exclusions, id);
      }
      if !rejected {
        matches := ScanEntries(root, a, n, id);
      }
    } else {
      AbsentRejects(root.children, a[..n], 0, id);
    }
  }

  /** A child without direct ID checks answers no; that is right because only an empty result lacks them. */
  method ScanEntries(root: AllRule, a: array<Ranked>, n: nat, id: nat) returns (matches: bool)
    requires 0 < n <= a.Length && AllSound(root.children, a[..]) && Checkable(root.children)
    requires a[0].bits.Some? && id in a[0].bits.value
    ensures AllSound(root.children, a[..n]) && (matches <==> Survives(root.children, a[..n], id))
  {
    ghost var entries := a[..n];
    var k := 1;
    while k < n
      invariant 1 <= k <= n && forall j :: 0 <= j < k ==> id in Meaning(root.children, entries[j])
    {
      assert Sound(root.children, a[..][k]) && entries[k] == a[k];
      if a[k].bits.Some? {
        if id !in a[k].bits.value {
          return false;
        }
      } else if !(root.children[a[k].childIdx].direct && id in root.children[a[k].childIdx].result) {
        assert id !in Meaning(root.children, entries[k]);
        return false;
      }
      k := k + 1;
    }
    matches := true;
  }

  /** The root search appends exactly the answer, in dense-ID order, whichever way it runs. */
  method SearchAllMatches<ID>(root: AllRule, exclusions: seq<set<nat>>, values: seq<ID>, result: seq<ID>)
    returns (appended: seq<ID>)
    requires root.Valid() && root.Grouped() && ClassesAgree(root.children) && Estimated(root.children)
             && Checkable(root.children)
    ensures root.children != [] ==>
              appended == result + Listed(Answer(root.children, exclusions, |values|), values, |values|)
    ensures root.children == [] ==> appended == result
  {
    var a := new Ranked[|root.children|](_ => Ranked(None, 0, 0));
    var ok := RankChildren(root, a);
    if !ok || a.Length == 0 {
      if !ok {
        ListedNothing(Answer(root.children, exclusions, |values|), values, |values|);
      }
      return result;
    }
    var n := DeduplicateEqualityClasses(root, a);
    var initiallyBroad := a[0].card > CANDIDATE_SCAN_LIMIT;
    var candidates := new Bitmap();
    ok := PrepareCandidates(root, a, n, candidates);
    if !ok {
      ListedNothing(Answer(root.children, exclusions, |values|), values, |values|);
      return result;
    }
    appended := Assemble(root, a, n, exclusions, values, result, initiallyBroad, candidates);
  }

  /** Turns prepared entries into appended values. */
  method Assemble<ID>(root: AllRule, a: array<Ranked>, n: nat, exclusions: seq<set<nat>>, values: seq<ID>,
                      result: seq<ID>, initiallyBroad: bool, candidates: Bitmap) returns (appended: seq<ID>)
    requires 0 < n <= a.Length && AllSound(root.children, a[..]) && Complete(root.children, a[..n]) && a[0].bits.Some?
    requires Checkable(root.children)
    requires initiallyBroad ==> forall id: nat :: id in candidates.ids <==> Matches(root.children, id)
    requires !initiallyBroad && a[0].card > CANDIDATE_SCAN_LIMIT ==> forall k :: 0 <= k < n ==> a[k].bits.Some?
    modifies candidates
    ensures appended == result + Listed(Answer(root.children, exclusions, |values|), values, |values|)
  {
    ghost var answer := Answer(root.children, exclusions, |values|);
    var excluded := BuildAllExclusions(exclusions, a[0].card);
    if a[0].card > CANDIDATE_SCAN_LIMIT {
      if initiallyBroad {
        if excluded.Some? {
          candidates.AndNot(excluded.value);
        }
        appended := AppendBitmapValues(candidates.ids, values, result);
        ListedAgree(answer, candidates.ids, values, |values|);
      } else {
        SoundPrefix(root.children, a[..], n);
        appended := AppendBitmapAllMatches(root, a, n, exclusions, excluded, values, result);
      }
    } else {
      appended := AppendScannedAllMatches(root, a, n, exclusions, excluded, values, result);
    }
  }
}
