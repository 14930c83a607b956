/**
 Build-time identities of equality postings: interned bitmap sources, the equality classes that let an All skip
 repeated operands, and the groups of children that share one wildcard bitmap.
 */
module EqualityClasses {
  import opened Bitmaps
  import opened EqualityLeaves
  import AllExecution
  import AllSearch

  const SOURCE_LIMIT: nat := 0x1_0000_0000

  // ----- interning -----

  datatype Fingerprint = Fingerprint(checksum: nat, cardinality: nat)

  datatype Interned = Interned(bits: set<nat>, id: nat)

  function Print(checksum: set<nat> -> nat, bits: set<nat>): Fingerprint {
    Fingerprint(checksum(bits), |bits|)
  }

  /** The entries filed under one fingerprint: the canonical one first, then the colliding ones. */
  ghost function Filed(canonical: map<Fingerprint, Interned>, collisions: map<Fingerprint, seq<Interned>>,
                       f: Fingerprint): seq<Interned> {
    (if f in canonical then [canonical[f]] else []) + if f in collisions then collisions[f] else []
  }

  /** The filed entries are the allocated sources, each under the fingerprint of its bitmap. */
  ghost predicate Consistent(checksum: set<nat> -> nat, canonical: map<Fingerprint, Interned>,
                             collisions: map<Fingerprint, seq<Interned>>, sources: map<nat, set<nat>>) {
    && (forall f, k :: 0 <= k < |Filed(canonical, collisions, f)| ==>
          var entry := Filed(canonical, collisions, f)[k];
          entry.id in sources && sources[entry.id] == entry.bits && Print(checksum, entry.bits) == f)
    && (forall id :: id in sources ==>
        Interned(sources[id], id) in Filed(canonical, collisions, Print(checksum, sources[id])))
    && (forall f :: f in collisions ==> f in canonical)
  }

  /** A new entry becomes the canonical one of its fingerprint, or the last collision. */
  lemma {:induction false} FiledUnder(canonical: map<Fingerprint, Interned>,
                                      collisions: map<Fingerprint, seq<Interned>>,
                                      fingerprint: Fingerprint, others: seq<Interned>, entry: Interned)
    requires others == if fingerprint in collisions then collisions[fingerprint] else []
    requires fingerprint in collisions ==> fingerprint in canonical
    ensures fingerprint !in canonical ==> forall f ::
              Filed(canonical[fingerprint := entry], collisions, f)
              == Filed(canonical, collisions, f) + if f == fingerprint then [entry] else []
    ensures fingerprint in canonical ==> forall f ::
              Filed(canonical, collisions[fingerprint := others + [entry]], f)
                == Filed(canonical, collisions, f) + if f == fingerprint then [entry] else []
  {
  }

  lemma {:induction false} SourceAdded(checksum: set<nat> -> nat, canonical: map<Fingerprint, Interned>,
                                       collisions: map<Fingerprint, seq<Interned>>,
                                       nextCanonical: map<Fingerprint, Interned>,
                                       nextCollisions: map<Fingerprint, seq<Interned>>,
                                       sources: map<nat, set<nat>>, bits: set<nat>, id: nat)
    requires Consistent(checksum, canonical, collisions, sources) && id !in sources
    requires forall f :: Filed(nextCanonical, nextCollisions, f) ==
               Filed(canonical, collisions, f) + if f == Print(checksum, bits) then [Interned(bits, id)] else []
    requires forall f :: f in nextCollisions ==> f in nextCanonical
    ensures Consistent(checksum, nextCanonical, nextCollisions, sources[id := bits])
  {
    var now := sources[id := bits];
    forall i | i in now
      ensures Interned(now[i], i) in Filed(nextCanonical, nextCollisions, Print(checksum, now[i]))
    {
      if i == id {
        var filed := Filed(nextCanonical, nextCollisions, Print(checksum, bits));
        assert filed[|filed| - 1] == Interned(bits, id);
      }
    }
  }

  /** Replaces equal bitmaps by one source. The checksum is an arbitrary function; collisions are compared. */
  class BitmapInterner {
    const checksum: set<nat> -> nat
    var canonical: map<Fingerprint, Interned>
    var collisions: map<Fingerprint, seq<Interned>>
    var nextID: nat

    /** The bitmap behind each allocated source ID. */
    ghost var sources: map<nat, set<nat>>

    ghost predicate Valid()
      reads this
    {
      && 0 <= nextID < SOURCE_LIMIT && |sources| == (if nextID == 0 then SOURCE_LIMIT else nextID) - 1
      && (forall id :: id in sources ==> 0 < id < SOURCE_LIMIT && (nextID != 0 ==> id < nextID))
      && (forall i, j :: i in sources && j in sources && sources[i] == sources[j] ==> i == j)
      && Consistent(checksum, canonical, collisions, sources)
    }

    constructor (checksum: set<nat> -> nat)
      ensures Valid() && sources == map[] && this.checksum == checksum
    {
      this.checksum := checksum;
      canonical, collisions, nextID, sources := map[], map[], 1, map[];
    }

    /**
     The source of a bitmap; none when the 32-bit IDs are used up. An already known bitmap keeps its source, whatever
     the checksum function does.
     */
    method InternSource(bits: set<nat>) returns (id: Option<nat>)
      requires Valid()
      modifies this
      ensures id.None? ==>
                |sources| == SOURCE_LIMIT - 1 && sources == old(sources)
                && forall i :: i in sources ==> sources[i] != bits
      ensures id.Some? ==> Valid() && id.value != 0 && id.value in sources && sources[id.value] == bits
      ensures id.Some? ==> sources == old(sources)[id.value := bits]
      ensures id.Some? && id.value in old(sources) ==> old(sources)[id.value] == bits
    {
      hide Consistent, Print;
      id := Lookup(bits);
      if id.Some? {
        assert sources == sources[id.value := bits];
        return;
      }
      var fingerprint := Print(checksum, bits);
      var others := if fingerprint in collisions then collisions[fingerprint] else [];
      id := File(bits, fingerprint, others);
    }

    /** The source of a bitmap that is already filed. */
    method Lookup(bits: set<nat>) returns (id: Option<nat>)
      requires Valid()
      ensures id.Some? ==> id.value != 0 && id.value in sources && sources[id.value] == bits
      ensures id.None? ==> forall i :: i in sources ==> sources[i] != bits
    {
      var fingerprint := Print(checksum, bits);
      ghost var filed := Filed(canonical, collisions, fingerprint);
      if fingerprint in canonical {
        assert filed[0] == canonical[fingerprint];
        if canonical[fingerprint].bits == bits {
          return Some(canonical[fingerprint].id);
        }
      }
      var others := if fingerprint in collisions then collisions[fingerprint] else [];
      var k := FindBits(others, bits);
      if k < |others| {
        assert filed[k + 1] == others[k];
        return Some(others[k].id);
      }
      id := None;
      assert forall i :: i in sources && sources[i] == bits ==> Interned(bits, i) in filed;
    }

    /** The position of the bitmap among colliding entries, or their number. */
    static method FindBits(others: seq<Interned>, bits: set<nat>) returns (k: nat)
      ensures k <= |others| && (k < |others| ==> others[k].bits == bits)
      ensures forall j :: 0 <= j < k ==> others[j].bits != bits
    {
      k := 0;
      while k < |others| && others[k].bits != bits
        invariant 0 <= k <= |others| && forall j :: 0 <= j < k ==> others[j].bits != bits
        decreases |others| - k
      {
        k := k + 1;
      }
    }

    /** Files an unknown bitmap under a new source ID. */
    method File(bits: set<nat>, fingerprint: Fingerprint, others: seq<Interned>) returns (id: Option<nat>)
      requires Valid() && fingerprint == Print(checksum, bits) && forall i :: i in sources ==> sources[i] != bits
      requires others == if fingerprint in collisions then collisions[fingerprint] else []
      modifies this
      ensures id.None? ==> |sources| == SOURCE_LIMIT - 1 && sources == old(sources)
      ensures id.Some? ==>
                Valid() && id.value != 0 && id.value !in old(sources) && sources == old(sources)[id.value := bits]
    {
      hide Consistent, Print, Filed;
      id := Allocate();
      if id.Some? {
        Publish(bits, fingerprint, others, id.value);
      }
    }

    method Publish(bits: set<nat>, fingerprint: Fingerprint, others: seq<Interned>, id: nat)
      requires Consistent(checksum, canonical, collisions, sources) && fingerprint == Print(checksum, bits)
               && id !in sources
      requires others == if fingerprint in collisions then collisions[fingerprint] else []
      modifies this`canonical, this`collisions, this`sources
      ensures Consistent(checksum, canonical, collisions, sources) && sources == old(sources)[id := bits]
    {
      var entry := Interned(bits, id);
      ghost var wasCanonical, wasCollisions := canonical, collisions;
      FiledUnder(canonical, collisions, fingerprint, others, entry);
      if fingerprint !in canonical {
        canonical := canonical[fingerprint := entry];
      } else {
        collisions := collisions[fingerprint := others + [entry]];
      }
      SourceAdded(checksum, wasCanonical, wasCollisions, canonical, collisions, sources, bits, id);
      sources := sources[id := bits];
    }

    /** An unused ID. The counter wraps to zero after the last one, which is detected on the next allocation. */
    method Allocate() returns (id: Option<nat>)
      requires Valid()
      modifies this`nextID
      ensures id.None? <==> old(nextID) == 0
      ensures id.Some? ==> id.value == old(nextID) && id.value !in sources && nextID == (id.value + 1) % SOURCE_LIMIT
    {
      var next := nextID;
      nextID := (nextID + 1) % SOURCE_LIMIT;
      id := if next == 0 then None else Some(next);
    }
  }

  /** Interning a whole index: sources are equal exactly when the bitmaps are. */
  method InternAll(interner: BitmapInterner, bitmaps: seq<set<nat>>) returns (ids: seq<nat>, complete: bool)
    requires interner.Valid()
    modifies interner
    ensures |ids| <= |bitmaps| && (complete <==> |ids| == |bitmaps|)
    ensures !complete ==>
              |interner.sources| == SOURCE_LIMIT - 1
              && forall i :: i in interner.sources ==> interner.sources[i] != bitmaps[|ids|]
    ensures forall k :: 0 <= k < |ids| ==> ids[k] != 0
    ensures forall j, k :: 0 <= j < k < |ids| ==> (ids[j] == ids[k] <==> bitmaps[j] == bitmaps[k])
  {
    hide Consistent;
    ids, complete := [], true;
    while |ids| < |bitmaps|
      invariant |ids| <= |bitmaps| && interner.Valid() && complete
      invariant forall k :: 0 <= k < |ids| ==>
                  ids[k] != 0 && ids[k] in interner.sources && interner.sources[ids[k]] == bitmaps[k]
      decreases |bitmaps| - |ids|
    {
      var id := interner.InternSource(bitmaps[|ids|]);
      if id.None? {
        complete := false;
        return;
      }
      ids := ids + [id.value];
    }
  }

  /** The sources of one build only grow, and stand for bitmaps of the index. */
  ghost predicate Grew(before: map<nat, set<nat>>, now: map<nat, set<nat>>, bitmaps: set<set<nat>>) {
    && (forall id :: id in before ==> id in now && now[id] == before[id])
    && (forall id :: id in now ==> now[id] in bitmaps)
  }

  /** Every one of the bitmaps has a source. */
  ghost predicate Holds(known: map<nat, set<nat>>, bitmaps: set<set<nat>>) {
    forall b :: b in bitmaps ==> exists id :: id in known && known[id] == b
  }

  lemma {:induction false} HoldsStays(before: map<nat, set<nat>>, now: map<nat, set<nat>>, bitmaps: set<set<nat>>,
                                      part: set<set<nat>>)
    requires Grew(before, now, bitmaps) && Holds(before, part)
    ensures Holds(now, part)
  {
    forall b | b in part
      ensures exists id :: id in now && now[id] == b
    {
      var id :| id in before && before[id] == b;
      assert id in now && now[id] == b;
    }
  }

  lemma {:induction false} LeafHolds(known: map<nat, set<nat>>, leaf: Stored, sourced: SourcedLeaf)
    requires InternedAs(known, leaf, sourced) && |leaf.bits| == |leaf.compact|
    ensures Holds(known, BitmapsOf(leaf))
  {
    forall b | b in BitmapsOf(leaf)
      ensures exists id :: id in known && known[id] == b
    {
      if b == leaf.wildcard {
        assert sourced.wildcardSource in known;
      } else {
        var k :| 0 <= k < |leaf.bits| && !leaf.compact[k] && leaf.bits[k] == b;
        assert sourced.sources[k] in known;
      }
    }
  }

  /** Different sources stand for different bitmaps, so there are at least as many bitmaps. */
  lemma {:induction false} SourcesBounded(sources: map<nat, set<nat>>, bitmaps: set<set<nat>>)
    requires forall i, j :: i in sources && j in sources && sources[i] == sources[j] ==> i == j
    requires forall id :: id in sources ==> sources[id] in bitmaps
    ensures |sources| <= |bitmaps|
  {
    if sources != map[] {
      var id :| id in sources;
      SourcesBounded(sources - {id}, bitmaps - {sources[id]});
      assert |sources - {id}| == |sources| - 1 by { assert (sources - {id}).Keys == sources.Keys - {id}; }
    }
  }

  /** The source of one bitmap of the index. It is refused only when the index has 2^32 different bitmaps. */
  method InternOne(interner: BitmapInterner, bits: set<nat>, ghost bitmaps: set<set<nat>>) returns (id: Option<nat>)
    requires interner.Valid() && bits in bitmaps && Grew(map[], interner.sources, bitmaps)
    modifies interner
    ensures id.None? ==> |bitmaps| >= SOURCE_LIMIT
    ensures id.Some? ==> interner.Valid() && Grew(old(interner.sources), interner.sources, bitmaps)
    ensures id.Some? ==> id.value != 0 && id.value in interner.sources && interner.sources[id.value] == bits
  {
    hide Consistent;
    id := interner.InternSource(bits);
    if id.None? {
      SourcesBounded(interner.sources, bitmaps - {bits});
    }
  }

  method InternOthers(interner: BitmapInterner, others: seq<set<nat>>, ghost bitmaps: set<set<nat>>)
    returns (complete: bool)
    requires interner.Valid() && Grew(map[], interner.sources, bitmaps)
             && forall k :: 0 <= k < |others| ==> others[k] in bitmaps
    modifies interner
    ensures !complete ==> |bitmaps| >= SOURCE_LIMIT
    ensures complete ==> interner.Valid() && Grew(old(interner.sources), interner.sources, bitmaps)
    ensures complete ==> Holds(interner.sources, set b | b in others)
  {
    hide BitmapInterner.Valid;
    var k := 0;
    while k < |others|
      invariant 0 <= k <= |others| && interner.Valid() && Grew(old(interner.sources), interner.sources, bitmaps)
      invariant Holds(interner.sources, set b | b in others[..k])
    {
      ghost var before := interner.sources;
      var id := InternOne(interner, others[k], bitmaps);
      if id.None? {
        return false;
      }
      ghost var done, more := others[..k], others[..k + 1];
      HoldsStays(before, interner.sources, bitmaps, set b | b in done);
      assert id.value in interner.sources && interner.sources[id.value] == others[k];
      assert more == done + [others[k]];
      assert (set b | b in more) == (set b | b in done) + {others[k]};
      k := k + 1;
    }
    assert others[..k] == others;
    complete := true;
  }

  // ----- equality classes -----

  /** An equality leaf with its sources: posting `k` is `bits[k]`, with source 0 when it is kept as an ID list. */
  datatype SourcedLeaf = SourcedLeaf(wildcard: set<nat>, wildcardSource: nat, bits: seq<set<nat>>, sources: seq<nat>)

  /** A physical result: the wildcard bitmap alone, or together with one posting. */
  datatype Pair = Pair(wildcard: nat, posting: nat)

  ghost predicate Aligned(leaf: SourcedLeaf) {
    |leaf.bits| == |leaf.sources| && leaf.wildcardSource != 0
  }

  function Pairs(leaf: SourcedLeaf): seq<Pair> {
    [Pair(leaf.wildcardSource, 0)] + PostingPairs(leaf.wildcardSource, leaf.sources)
  }

  function PostingPairs(wildcard: nat, sources: seq<nat>): seq<Pair> {
    if sources == [] then []
    else (if sources[0] != 0 then [Pair(wildcard, sources[0])] else []) + PostingPairs(wildcard, sources[1..])
  }

  /** How many of the first `n` children own the pair. */
  function Owners(children: seq<Option<SourcedLeaf>>, pair: Pair, n: nat): nat
    requires n <= |children|
  {
    if n == 0 then 0
    else Owners(children, pair, n - 1) + if children[n - 1].Some? && pair in Pairs(children[n - 1].value) then 1 else 0
  }

  datatype Occurrence = Occurrence(lastOwner: nat, owners: nat)

  ghost predicate Counted(children: seq<Option<SourcedLeaf>>, occurrences: map<Pair, Occurrence>, n: nat,
                          visited: seq<Pair>)
    requires n <= |children|
  {
    forall pair: Pair ::
      && (pair in occurrences <==> Owners(children, pair, n) > 0 || pair in visited)
      && (pair in occurrences ==>
            && occurrences[pair].owners == Owners(children, pair, n) + (if pair in visited then 1 else 0)
            && occurrences[pair].lastOwner <= n + 1 && (occurrences[pair].lastOwner == n + 1 <==> pair in visited))
  }

  method CountOwners(children: seq<Option<SourcedLeaf>>) returns (occurrences: map<Pair, Occurrence>)
    ensures Counted(children, occurrences, |children|, [])
  {
    occurrences := map[];
    assert Counted(children, occurrences, 0, []);
    hide Counted, Pairs;
    var i := 0;
    while i < |children|
      invariant 0 <= i <= |children| && Counted(children, occurrences, i, [])
    {
      if children[i].Some? {
        var pairs := Pairs(children[i].value);
        var j := 0;
        while j < |pairs|
          invariant 0 <= j <= |pairs| && Counted(children, occurrences, i, pairs[..j])
        {
          var entry := if pairs[j] in occurrences then occurrences[pairs[j]] else Occurrence(0, 0);
          ghost var was := occurrences;
          if entry.lastOwner != i + 1 {
            occurrences := occurrences[pairs[j] := Occurrence(i + 1, entry.owners + 1)];
          }
          PairVisited(children, was, occurrences, i, pairs, j);
          j := j + 1;
        }
        assert pairs[..|pairs|] == pairs;
      }
      OwnerDone(children, occurrences, i);
      i := i + 1;
    }
  }

  lemma {:induction false} OwnerDone(children: seq<Option<SourcedLeaf>>, occurrences: map<Pair, Occurrence>, n: nat)
    requires n < |children|
    requires Counted(children, occurrences, n, if children[n].Some? then Pairs(children[n].value) else [])
    ensures Counted(children, occurrences, n + 1, [])
  {
  }

  lemma {:induction false} PairVisited(children: seq<Option<SourcedLeaf>>, was: map<Pair, Occurrence>,
                                       now: map<Pair, Occurrence>, n: nat, pairs: seq<Pair>, j: nat)
    requires n <= |children| && j < |pairs| && Counted(children, was, n, pairs[..j])
    requires var entry := if pairs[j] in was then was[pairs[j]] else Occurrence(0, 0);
             now == if entry.lastOwner != n + 1 then was[pairs[j] := Occurrence(n + 1, entry.owners + 1)] else was
    ensures Counted(children, now, n, pairs[..j + 1])
  {
    assert pairs[..j + 1] == pairs[..j] + [pairs[j]];
  }

  /** Numbers the pairs that at least two children own. */
  method CompileClasses(children: seq<Option<SourcedLeaf>>) returns (classes: map<Pair, nat>, count: nat)
    ensures forall pair: Pair :: pair in classes <==> Owners(children, pair, |children|) >= 2
    ensures forall pair :: pair in classes ==> 1 <= classes[pair] <= count
    ensures forall p, q :: p in classes && q in classes && classes[p] == classes[q] ==> p == q
  {
    var occurrences := CountOwners(children);
    classes, count := map[], 0;
    var rest := set pair | pair in occurrences && occurrences[pair].owners >= 2;
    ghost var all := rest;
    while rest != {}
      invariant rest <= all && classes.Keys == all - rest
      invariant forall pair :: pair in classes ==> 1 <= classes[pair] <= count
      invariant forall p, q :: p in classes && q in classes && classes[p] == classes[q] ==> p == q
      decreases rest
    {
      var pair :| pair in rest;
      count := count + 1;
      classes := classes[pair := count];
      rest := rest - {pair};
    }
  }

  function ClassOf(classes: map<Pair, nat>, pair: Pair): nat {
    if pair in classes then classes[pair] else 0
  }

  /** The class assigned to the leaf's result; a posting without a bitmap has none. */
  function ResultClass(classes: map<Pair, nat>, leaf: SourcedLeaf, posting: Option<nat>): nat
    requires posting.Some? ==> posting.value < |leaf.sources|
  {
    if posting.None? then ClassOf(classes, Pair(leaf.wildcardSource, 0))
    else if leaf.sources[posting.value] != 0 then ClassOf(classes,
                                                          Pair(leaf.wildcardSource, leaf.sources[posting.value]))
    else 0
  }

  function Result(leaf: SourcedLeaf, posting: Option<nat>): set<nat>
    requires posting.Some? ==> posting.value < |leaf.bits|
  {
    leaf.wildcard + if posting.Some? then leaf.bits[posting.value] else {}
  }

  /** Sources come from one interner. */
  ghost predicate SourcesOf(known: map<nat, set<nat>>, leaf: SourcedLeaf) {
    && Aligned(leaf) && leaf.wildcardSource in known && known[leaf.wildcardSource] == leaf.wildcard
    && (forall k :: 0 <= k < |leaf.sources| && leaf.sources[k] != 0 ==>
          leaf.sources[k] in known && known[leaf.sources[k]] == leaf.bits[k])
  }

  /** The bitmaps that interning a leaf replaces: its wildcard and the postings that are not kept as ID lists. */
  ghost function BitmapsOf(leaf: Stored): set<set<nat>>
    requires |leaf.bits| == |leaf.compact|
  {
    {leaf.wildcard} + set k | 0 <= k < |leaf.bits| && !leaf.compact[k] :: leaf.bits[k]
  }

  ghost predicate InternedAs(known: map<nat, set<nat>>, leaf: Stored, sourced: SourcedLeaf) {
    && SourcesOf(known, sourced) && sourced.wildcard == leaf.wildcard && sourced.bits == leaf.bits
    && |sourced.sources| == |leaf.compact|
         && forall k :: 0 <= k < |leaf.compact| ==> (sourced.sources[k] == 0 <==> leaf.compact[k])
  }

  lemma {:induction false} InternedStays(before: map<nat, set<nat>>, now: map<nat, set<nat>>, bitmaps: set<set<nat>>,
                                         leaf: Stored, sourced: SourcedLeaf)
    requires Grew(before, now, bitmaps) && InternedAs(before, leaf, sourced)
    ensures InternedAs(now, leaf, sourced)
  {
  }

  method InternLeaf(interner: BitmapInterner, leaf: Stored, ghost bitmaps: set<set<nat>>)
    returns (sourced: Option<SourcedLeaf>)
    requires interner.Valid() && Grew(map[], interner.sources, bitmaps)
    requires |leaf.bits| == |leaf.compact| && BitmapsOf(leaf) <= bitmaps
    modifies interner
    ensures sourced.None? ==> |bitmaps| >= SOURCE_LIMIT
    ensures sourced.Some? ==> interner.Valid() && Grew(old(interner.sources), interner.sources, bitmaps)
    ensures sourced.Some? ==> InternedAs(interner.sources, leaf, sourced.value)
  {
    hide BitmapInterner.Valid;
    var wildcardSource := InternOne(interner, leaf.wildcard, bitmaps);
    if wildcardSource.None? {
      return None;
    }
    var sources: seq<nat> := [];
    while |sources| < |leaf.bits|
      invariant |sources| <= |leaf.bits| && interner.Valid() && Grew(old(interner.sources), interner.sources, bitmaps)
      invariant wildcardSource.value in interner.sources && interner.sources[wildcardSource.value] == leaf.wildcard
      invariant forall k :: 0 <= k < |sources| ==> (sources[k] == 0 <==> leaf.compact[k])
      invariant forall k :: 0 <= k < |sources| && sources[k] != 0 ==>
                  sources[k] in interner.sources && interner.sources[sources[k]] == leaf.bits[k]
      decreases |leaf.bits| - |sources|
    {
      if leaf.compact[|sources|] {
        sources := sources + [0];
      } else {
        var id := InternOne(interner, leaf.bits[|sources|], bitmaps);
        if id.None? {
          return None;
        }
        sources := sources + [id.value];
      }
    }
    sourced := Some(SourcedLeaf(leaf.wildcard, wildcardSource.value, leaf.bits, sources));
  }

  /** Equal classes at a query stand for equal pairs of interned bitmaps, hence for equal results. */
  lemma {:induction false} SameClassSameResult(known: map<nat, set<nat>>, classes: map<Pair, nat>,
                                               left: SourcedLeaf, p: Option<nat>, right: SourcedLeaf, q: Option<nat>)
    requires SourcesOf(known, left) && SourcesOf(known, right)
    requires p.Some? ==> p.value < |left.bits|
    requires q.Some? ==> q.value < |right.bits|
    requires forall pair :: pair in classes ==> classes[pair] != 0
    requires forall a, b :: a in classes && b in classes && classes[a] == classes[b] ==> a == b
    requires ResultClass(classes, left, p) == ResultClass(classes, right, q) != 0
    ensures Result(left, p) == Result(right, q)
  {
    var a := Pair(left.wildcardSource, if p.None? then 0 else left.sources[p.value]);
    var b := Pair(right.wildcardSource, if q.None? then 0 else right.sources[q.value]);
    assert classes[a] == classes[b] && a == b;
  }

  /** At one query: `postings[c]` is the posting that child `c` finds, if it is an equality. */
  ghost predicate QueriedAs(leaves: seq<Option<SourcedLeaf>>, postings: seq<Option<nat>>, classes: map<Pair, nat>,
                            children: seq<AllExecution.Child>) {
    && |leaves| == |postings| == |children|
    && (forall c :: 0 <= c < |children| ==>
          if leaves[c].Some? then
            && (postings[c].Some? ==> postings[c].value < |leaves[c].value.bits| == |leaves[c].value.sources|)
            && children[c].result == Result(leaves[c].value, postings[c])
            && children[c].equalityClass == ResultClass(classes, leaves[c].value, postings[c])
          else
            children[c].equalityClass == 0)
  }

  /** Two children with the same class at a query have the same result there, so the second may be dropped. */
  lemma {:induction false} ClassesDecideResults(leaves: seq<Option<SourcedLeaf>>, postings: seq<Option<nat>>,
                                                classes: map<Pair, nat>,
                                                children: seq<AllExecution.Child>, known: map<nat, set<nat>>)
    requires QueriedAs(leaves, postings, classes, children)
    requires forall c :: 0 <= c < |leaves| && leaves[c].Some? ==> SourcesOf(known, leaves[c].value)
    requires forall pair :: pair in classes ==> classes[pair] != 0
    requires forall p, q :: p in classes && q in classes && classes[p] == classes[q] ==> p == q
    ensures AllSearch.ClassesAgree(children)
  {
    forall c, d | 0 <= c < d < |children| && children[c].equalityClass == children[d].equalityClass != 0
      ensures children[c].result == children[d].result
    {
      SameClassSameResult(known, classes, leaves[c].value, postings[c], leaves[d].value, postings[d]);
    }
  }

  // ----- shared wildcards -----

  /** What an equality child contributes: the pointer of its interned wildcard, and whether that is empty. */
  datatype Wildcard = Wildcard(pointer: nat, empty: bool)

  predicate Shares(children: seq<Option<Wildcard>>, c: nat, d: nat)
    requires c < |children| && d < |children|
  {
    children[c].Some? && children[d].Some? && !children[c].value.empty
      && children[c].value.pointer == children[d].value.pointer
  }

  /** A non-empty wildcard child, whose pointer is therefore worth remembering. */
  predicate Shareable(child: Option<Wildcard>) {
    child.Some? && !child.value.empty
  }

  /**
   The state after `i` children: the first child of each wildcard is known, a child belongs to the group of the first
   child of its wildcard, and such a first child has a group as soon as another child shares its wildcard.
   */
  ghost predicate GroupedUpTo(children: seq<Option<Wildcard>>, i: nat, groups: seq<nat>, first: map<nat, nat>,
                              next: nat) {
    && i <= |children| == |groups| && next > 0
    && (forall c {:trigger groups[c]} :: 0 <= c < |groups| ==>
        groups[c] < next && (groups[c] != 0 ==> c < i && Shareable(children[c])))
    && (forall p :: p in first ==> first[p] < i && children[first[p]] == Some(Wildcard(p, false)))
    && (forall c :: 0 <= c < i && Shareable(children[c]) ==>
          var p := children[c].value.pointer;
          p in first && first[p] <= c && groups[c] == groups[first[p]] && (first[p] < c ==> groups[c] != 0))
    && (forall p, q :: p in first && q in first && groups[first[p]] == groups[first[q]] != 0 ==> p == q)
  }

  lemma {:induction false} FirstSeen(children: seq<Option<Wildcard>>, i: nat, groups: seq<nat>, first: map<nat, nat>,
                                     next: nat)
    requires GroupedUpTo(children, i, groups, first, next) && i < |children| && Shareable(children[i])
    requires children[i].value.pointer !in first
    ensures GroupedUpTo(children, i + 1, groups, first[children[i].value.pointer := i], next)
  {
  }

  lemma {:induction false} GroupStarted(children: seq<Option<Wildcard>>, i: nat, groups: seq<nat>,
                                        first: map<nat, nat>, next: nat, p: nat)
    requires GroupedUpTo(children, i, groups, first, next) && p in first && groups[first[p]] == 0
    ensures GroupedUpTo(children, i, groups[first[p] := next], first, next + 1)
  {
    forall c | 0 <= c < i && Shareable(children[c])
      ensures var q := children[c].value.pointer;
              var now := groups[first[p] := next];
              now[c] == now[first[q]] && (first[q] < c ==> now[c] != 0)
    {
    }
  }

  lemma {:induction false} GroupJoined(children: seq<Option<Wildcard>>, i: nat, groups: seq<nat>, first: map<nat, nat>,
                                       next: nat)
    requires GroupedUpTo(children, i, groups, first, next) && i < |children| && Shareable(children[i])
    requires children[i].value.pointer in first && groups[first[children[i].value.pointer]] != 0
    ensures GroupedUpTo(children, i + 1, groups[i := groups[first[children[i].value.pointer]]], first, next)
  {
  }

  lemma {:induction false} GroupsExact(children: seq<Option<Wildcard>>, groups: seq<nat>, first: map<nat, nat>,
                                       next: nat, c: nat, d: nat)
    requires GroupedUpTo(children, |children|, groups, first, next) && c < d < |children|
    requires children[c].Some? && children[d].Some? && children[c].value.pointer == children[d].value.pointer ==>
               children[c].value.empty == children[d].value.empty
    ensures groups[c] == groups[d] != 0 <==> Shares(children, c, d)
  {
    assert groups[c] < next && groups[d] < next;
  }

  /** Groups the children that share a non-empty wildcard; a child that shares with nobody has no group. */
  method PrepareSharedWildcardGroups(children: seq<Option<Wildcard>>) returns (groups: seq<nat>)
    requires forall c, d :: 0 <= c < d < |children| && children[c].Some? && children[d].Some? ==>
               (children[c].value.pointer == children[d].value.pointer ==>
                children[c].value.empty == children[d].value.empty)
    ensures |groups| == |children|
    ensures forall c, d :: 0 <= c < d < |children| ==> (groups[c] == groups[d] != 0 <==> Shares(children, c, d))
    ensures forall c :: 0 <= c < |children| && groups[c] != 0 ==> Shareable(children[c])
  {
    groups := seq(|children|, _ => 0);
    var firstByWildcard: map<nat, nat> := map[];
    var nextGroup := 1;
    var i := 0;
    while i < |children|
      invariant 0 <= i <= |children| && GroupedUpTo(children, i, groups, firstByWildcard, nextGroup)
    {
      if Shareable(children[i]) {
        var pointer := children[i].value.pointer;
        if pointer !in firstByWildcard {
          FirstSeen(children, i, groups, firstByWildcard, nextGroup);
          firstByWildcard := firstByWildcard[pointer := i];
        } else {
          var first := firstByWildcard[pointer];
          if groups[first] == 0 {
            GroupStarted(children, i, groups, firstByWildcard, nextGroup, pointer);
            groups := groups[first := nextGroup];
            nextGroup := nextGroup + 1;
          }
          GroupJoined(children, i, groups, firstByWildcard, nextGroup);
          groups := groups[i := groups[first]];
        }
      }
      i := i + 1;
    }
    forall c, d | 0 <= c < d < |children|
      ensures groups[c] == groups[d] != 0 <==> Shares(children, c, d)
    {
      GroupsExact(children, groups, firstByWildcard, nextGroup, c, d);
    }
  }
}
