/**
 Trees of lossy policies: what they use, which limits they must meet, and which steps of their leaves a limit needs.
 */
module LossyTrees {
  import opened Bitmaps

  const MEMORY_LIMIT: nat := 0xFFFF_FFFF_FFFF_FFFF

  /** A compiled build tree. `Details` records a policy limit, if any, and the usage found by the last refresh. */
  datatype Tree =
    | Adaptive(leaf: nat)
    | Fixed(usage: nat)
    | All(children: Forest)
    | Inspect(child: Tree)
    | Details(child: Tree, limit: Option<nat>, recorded: nat)

  datatype Forest = Empty | Grown(first: Tree, rest: Forest)

  function LeavesOf(tree: Tree): set<nat> {
    match tree
    case Adaptive(leaf) => {leaf}
    case Fixed(_) => {}
    case All(children) => LeavesOfAll(children)
    case Inspect(child) => LeavesOf(child)
    case Details(child, _, _) => LeavesOf(child)
  }

  function LeavesOfAll(forest: Forest): set<nat> {
    match forest
    case Empty => {}
    case Grown(first, rest) => LeavesOf(first) + LeavesOfAll(rest)
  }

  /** No leaf belongs to two subtrees. */
  ghost predicate Separate(tree: Tree) {
    match tree
    case Adaptive(_) => true
    case Fixed(_) => true
    case All(children) => SeparateAll(children)
    case Inspect(child) => Separate(child)
    case Details(child, _, _) => Separate(child)
  }

  ghost predicate SeparateAll(forest: Forest) {
    match forest
    case Empty => true
    case Grown(first, rest) => Separate(first) && SeparateAll(rest) && LeavesOf(first) !! LeavesOfAll(rest)
  }

  function At(usages: seq<nat>, leaf: nat): nat {
    if leaf < |usages| then usages[leaf] else 0
  }

  ghost predicate AgreeOn(leaves: set<nat>, a: seq<nat>, b: seq<nat>) {
    forall leaf: nat :: leaf in leaves ==> At(a, leaf) == At(b, leaf)
  }

  /** The accounted bytes of a tree, given the usage of each leaf. */
  function Bytes(tree: Tree, usages: seq<nat>): nat
  {
    match tree
    case Adaptive(leaf) => At(usages, leaf)
    case Fixed(usage) => usage
    case All(children) => BytesOfAll(children, usages)
    case Inspect(child) => Bytes(child, usages)
    case Details(child, _, _) => Bytes(child, usages)
  }

  function BytesOfAll(forest: Forest, usages: seq<nat>): nat
  {
    match forest
    case Empty => 0
    case Grown(first, rest) => Bytes(first, usages) + BytesOfAll(rest, usages)
  }

  lemma {:induction false} BytesAgree(tree: Tree, a: seq<nat>, b: seq<nat>)
    requires AgreeOn(LeavesOf(tree), a, b)
    ensures Bytes(tree, a) == Bytes(tree, b)
  {
    match tree
    case Adaptive(_) =>
    case Fixed(_) =>
    case All(children) => BytesOfAllAgree(children, a, b);
    case Inspect(child) => BytesAgree(child, a, b);
    case Details(child, _, _) => BytesAgree(child, a, b);
  }

  lemma {:induction false} BytesOfAllAgree(forest: Forest, a: seq<nat>, b: seq<nat>)
    requires AgreeOn(LeavesOfAll(forest), a, b)
    ensures BytesOfAll(forest, a) == BytesOfAll(forest, b)
  {
    match forest
    case Empty =>
    case Grown(first, rest) =>
      BytesAgree(first, a, b);
      BytesOfAllAgree(rest, a, b);
  }

  /** Every policy node records its usage and is within its limit. */
  ghost predicate Settled(tree: Tree, usages: seq<nat>)
  {
    match tree
    case Adaptive(_) => true
    case Fixed(_) => true
    case All(children) => SettledAll(children, usages)
    case Inspect(child) => Settled(child, usages)
    case Details(child, limit, recorded) =>
      Settled(child, usages) && recorded == Bytes(child, usages) && (limit.Some? ==> recorded <= limit.value)
  }

  ghost predicate SettledAll(forest: Forest, usages: seq<nat>)
  {
    match forest
    case Empty => true
    case Grown(first, rest) => Settled(first, usages) && SettledAll(rest, usages)
  }

  lemma {:induction false} SettledAgree(tree: Tree, a: seq<nat>, b: seq<nat>)
    requires AgreeOn(LeavesOf(tree), a, b)
    ensures Settled(tree, a) == Settled(tree, b)
  {
    match tree
    case Adaptive(_) =>
    case Fixed(_) =>
    case All(children) => SettledAllAgree(children, a, b);
    case Inspect(child) => SettledAgree(child, a, b);
    case Details(child, _, _) =>
      SettledAgree(child, a, b);
      BytesAgree(child, a, b);
  }

  lemma {:induction false} SettledAllAgree(forest: Forest, a: seq<nat>, b: seq<nat>)
    requires AgreeOn(LeavesOfAll(forest), a, b)
    ensures SettledAll(forest, a) == SettledAll(forest, b)
  {
    match forest
    case Empty =>
    case Grown(first, rest) =>
      SettledAgree(first, a, b);
      SettledAllAgree(rest, a, b);
  }

  // ----- limits -----

  /** Every policy node is within its limit, or within its soft target. */
  ghost predicate Fits(tree: Tree, usages: seq<nat>, soft: bool) {
    match tree
    case Adaptive(_) => true
    case Fixed(_) => true
    case All(children) => FitsAll(children, usages, soft)
    case Inspect(child) => Fits(child, usages, soft)
    case Details(child, limit, _) =>
      Fits(child, usages, soft) && (limit.Some? ==> Bytes(child, usages) <= Allowed(limit.value, soft))
  }

  ghost predicate FitsAll(forest: Forest, usages: seq<nat>, soft: bool) {
    match forest
    case Empty => true
    case Grown(first, rest) => Fits(first, usages, soft) && FitsAll(rest, usages, soft)
  }

  ghost function Allowed(limit: nat, soft: bool): nat {
    if soft then BuildTarget(limit) else limit
  }

  lemma {:induction false} FitsAgree(tree: Tree, a: seq<nat>, b: seq<nat>, soft: bool)
    requires AgreeOn(LeavesOf(tree), a, b)
    ensures Fits(tree, a, soft) == Fits(tree, b, soft)
  {
    match tree
    case Adaptive(_) =>
    case Fixed(_) =>
    case All(children) => FitsAllAgree(children, a, b, soft);
    case Inspect(child) => FitsAgree(child, a, b, soft);
    case Details(child, _, _) =>
      FitsAgree(child, a, b, soft);
      BytesAgree(child, a, b);
  }

  lemma {:induction false} FitsAllAgree(forest: Forest, a: seq<nat>, b: seq<nat>, soft: bool)
    requires AgreeOn(LeavesOfAll(forest), a, b)
    ensures FitsAll(forest, a, soft) == FitsAll(forest, b, soft)
  {
    match forest
    case Empty =>
    case Grown(first, rest) =>
      FitsAgree(first, a, b, soft);
      FitsAllAgree(rest, a, b, soft);
  }

  lemma {:induction false} SettledFits(tree: Tree, usages: seq<nat>)
    requires Settled(tree, usages)
    ensures Fits(tree, usages, false)
  {
    match tree
    case Adaptive(_) =>
    case Fixed(_) =>
    case All(children) => SettledAllFits(children, usages);
    case Inspect(child) => SettledFits(child, usages);
    case Details(child, _, _) => SettledFits(child, usages);
  }

  lemma {:induction false} SettledAllFits(forest: Forest, usages: seq<nat>)
    requires SettledAll(forest, usages)
    ensures FitsAll(forest, usages, false)
  {
    match forest
    case Empty =>
    case Grown(first, rest) =>
      SettledFits(first, usages);
      SettledAllFits(rest, usages);
  }

  /** The soft target of a build-pressure checkpoint: the largest 64-bit value up to 125 percent of the limit. */
  function BuildTarget(limit: nat): (target: nat)
    ensures limit <= MEMORY_LIMIT ==> limit <= target
    ensures target <= MEMORY_LIMIT && 100 * target <= 125 * limit
    ensures target < MEMORY_LIMIT ==> 100 * (target + 1) > 125 * limit
  {
    var headroom := limit / 4;
    if MEMORY_LIMIT - limit < headroom then MEMORY_LIMIT else limit + headroom
  }

  /** Every nested node gets the smallest limit above it. */
  function Clamp(tree: Tree, limit: nat): Tree {
    match tree
    case Adaptive(_) => tree
    case Fixed(_) => tree
    case All(children) => All(ClampAll(children, limit))
    case Inspect(child) => Inspect(Clamp(child, limit))
    case Details(child, own, recorded) =>
      var effective := if own.Some? && own.value < limit then own.value else limit;
      Details(Clamp(child, effective), Some(effective), recorded)
  }

  function ClampAll(forest: Forest, limit: nat): Forest {
    match forest
    case Empty => Empty
    case Grown(first, rest) => Grown(Clamp(first, limit), ClampAll(rest, limit))
  }

  lemma {:induction false} ClampLeaves(tree: Tree, limit: nat)
    ensures LeavesOf(Clamp(tree, limit)) == LeavesOf(tree) && Separate(Clamp(tree, limit)) == Separate(tree)
  {
    match tree
    case Adaptive(_) =>
    case Fixed(_) =>
    case All(children) => ClampAllLeaves(children, limit);
    case Inspect(child) => ClampLeaves(child, limit);
    case Details(child, own, _) => ClampLeaves(child, if own.Some? && own.value < limit then own.value else limit);
  }

  lemma {:induction false} ClampAllLeaves(forest: Forest, limit: nat)
    ensures LeavesOfAll(ClampAll(forest, limit)) == LeavesOfAll(forest)
            && SeparateAll(ClampAll(forest, limit)) == SeparateAll(forest)
  {
    match forest
    case Empty =>
    case Grown(first, rest) =>
      ClampLeaves(first, limit);
      ClampAllLeaves(rest, limit);
  }

  /** Clamping a settled tree that fits leaves every node within its smaller limit. */
  lemma {:induction false} ClampSettled(tree: Tree, limit: nat, usages: seq<nat>)
    requires Settled(tree, usages) && Bytes(tree, usages) <= limit
    ensures Bytes(Clamp(tree, limit), usages) == Bytes(tree, usages) && Settled(Clamp(tree, limit), usages)
  {
    match tree
    case Adaptive(_) =>
    case Fixed(_) =>
    case All(children) => ClampAllSettled(children, limit, usages);
    case Inspect(child) => ClampSettled(child, limit, usages);
    case Details(child, own, recorded) =>
      ClampSettled(child, if own.Some? && own.value < limit then own.value else limit, usages);
  }

  lemma {:induction false} ClampAllSettled(forest: Forest, limit: nat, usages: seq<nat>)
    requires SettledAll(forest, usages) && BytesOfAll(forest, usages) <= limit
    ensures BytesOfAll(ClampAll(forest, limit), usages) == BytesOfAll(forest, usages)
    ensures SettledAll(ClampAll(forest, limit), usages)
  {
    match forest
    case Empty =>
    case Grown(first, rest) =>
      ClampSettled(first, limit, usages);
      ClampAllSettled(rest, limit, usages);
  }

  /** No limit anywhere below a clamped node exceeds the limit above it. */
  ghost predicate LimitsNest(tree: Tree, limit: nat) {
    match tree
    case Adaptive(_) => true
    case Fixed(_) => true
    case All(children) => LimitsNestAll(children, limit)
    case Inspect(child) => LimitsNest(child, limit)
    case Details(child, own, _) => own.Some? && own.value <= limit && LimitsNest(child, own.value)
  }

  ghost predicate LimitsNestAll(forest: Forest, limit: nat) {
    match forest
    case Empty => true
    case Grown(first, rest) => LimitsNest(first, limit) && LimitsNestAll(rest, limit)
  }

  lemma {:induction false} ClampNests(tree: Tree, limit: nat)
    ensures LimitsNest(Clamp(tree, limit), limit)
  {
    match tree
    case Adaptive(_) =>
    case Fixed(_) =>
    case All(children) => ClampAllNests(children, limit);
    case Inspect(child) => ClampNests(child, limit);
    case Details(child, own, _) => ClampNests(child, if own.Some? && own.value < limit then own.value else limit);
  }

  lemma {:induction false} ClampAllNests(forest: Forest, limit: nat)
    ensures LimitsNestAll(ClampAll(forest, limit), limit)
  {
    match forest
    case Empty =>
    case Grown(first, rest) =>
      ClampNests(first, limit);
      ClampAllNests(rest, limit);
  }

  /** A clamped tree is within its limits exactly if the tree is: clamping neither loosens nor tightens. */
  lemma {:induction false} ClampMeaning(tree: Tree, limit: nat, usages: seq<nat>)
    requires Bytes(tree, usages) <= limit
    ensures Bytes(Clamp(tree, limit), usages) == Bytes(tree, usages)
    ensures Fits(Clamp(tree, limit), usages, false) <==> Fits(tree, usages, false)
  {
    match tree
    case Adaptive(_) =>
    case Fixed(_) =>
    case All(children) => ClampAllMeaning(children, limit, usages);
    case Inspect(child) => ClampMeaning(child, limit, usages);
    case Details(child, own, _) =>
      ClampBytes(child, if own.Some? && own.value < limit then own.value else limit, usages);
      if own.None? || Bytes(child, usages) <= own.value {
        ClampMeaning(child, if own.Some? && own.value < limit then own.value else limit, usages);
      }
  }

  lemma {:induction false} ClampAllMeaning(forest: Forest, limit: nat, usages: seq<nat>)
    requires BytesOfAll(forest, usages) <= limit
    ensures BytesOfAll(ClampAll(forest, limit), usages) == BytesOfAll(forest, usages)
    ensures FitsAll(ClampAll(forest, limit), usages, false) <==> FitsAll(forest, usages, false)
  {
    match forest
    case Empty =>
    case Grown(first, rest) =>
      ClampMeaning(first, limit, usages);
      ClampAllMeaning(rest, limit, usages);
  }

  lemma {:induction false} ClampBytes(tree: Tree, limit: nat, usages: seq<nat>)
    ensures Bytes(Clamp(tree, limit), usages) == Bytes(tree, usages)
  {
    match tree
    case Adaptive(_) =>
    case Fixed(_) =>
    case All(children) => ClampAllBytes(children, limit, usages);
    case Inspect(child) => ClampBytes(child, limit, usages);
    case Details(child, own, _) =>
      ClampBytes(child, if own.Some? && own.value < limit then own.value else limit, usages);
  }

  lemma {:induction false} ClampAllBytes(forest: Forest, limit: nat, usages: seq<nat>)
    ensures BytesOfAll(ClampAll(forest, limit), usages) == BytesOfAll(forest, usages)
  {
    match forest
    case Empty =>
    case Grown(first, rest) =>
      ClampBytes(first, limit, usages);
      ClampAllBytes(rest, limit, usages);
  }

  // ----- the leaves in order -----

  /** The leaves of a tree from left to right. */
  ghost function Order(tree: Tree): seq<nat> {
    match tree
    case Adaptive(leaf) => [leaf]
    case Fixed(_) => []
    case All(children) => OrderOfAll(children)
    case Inspect(child) => Order(child)
    case Details(child, _, _) => Order(child)
  }

  ghost function OrderOfAll(forest: Forest): seq<nat> {
    match forest
    case Empty => []
    case Grown(first, rest) => Order(first) + OrderOfAll(rest)
  }

  lemma {:induction false} OrderLists(tree: Tree)
    ensures forall leaf :: leaf in Order(tree) <==> leaf in LeavesOf(tree)
  {
    match tree
    case Adaptive(_) =>
    case Fixed(_) =>
    case All(children) => OrderOfAllLists(children);
    case Inspect(child) => OrderLists(child);
    case Details(child, _, _) => OrderLists(child);
  }

  lemma {:induction false} OrderOfAllLists(forest: Forest)
    ensures forall leaf :: leaf in OrderOfAll(forest) <==> leaf in LeavesOfAll(forest)
  {
    match forest
    case Empty =>
    case Grown(first, rest) =>
      OrderLists(first);
      OrderOfAllLists(rest);
  }

  // ----- what a refresh keeps -----

  /** The tree with the recorded usages removed: what a refresh does not change. */
  ghost function Shape(tree: Tree): Tree {
    match tree
    case Adaptive(_) => tree
    case Fixed(_) => tree
    case All(children) => All(ShapeOfAll(children))
    case Inspect(child) => Inspect(Shape(child))
    case Details(child, limit, _) => Details(Shape(child), limit, 0)
  }

  ghost function ShapeOfAll(forest: Forest): Forest {
    match forest
    case Empty => Empty
    case Grown(first, rest) => Grown(Shape(first), ShapeOfAll(rest))
  }

  lemma {:induction false} ShapeDecides(tree: Tree)
    ensures LeavesOf(Shape(tree)) == LeavesOf(tree) && Separate(Shape(tree)) == Separate(tree)
    ensures Order(Shape(tree)) == Order(tree)
  {
    match tree
    case Adaptive(_) =>
    case Fixed(_) =>
    case All(children) => ShapeOfAllDecides(children);
    case Inspect(child) => ShapeDecides(child);
    case Details(child, _, _) => ShapeDecides(child);
  }

  lemma {:induction false} ShapeOfAllDecides(forest: Forest)
    ensures LeavesOfAll(ShapeOfAll(forest)) == LeavesOfAll(forest)
            && SeparateAll(ShapeOfAll(forest)) == SeparateAll(forest)
    ensures OrderOfAll(ShapeOfAll(forest)) == OrderOfAll(forest)
  {
    match forest
    case Empty =>
    case Grown(first, rest) =>
      ShapeDecides(first);
      ShapeOfAllDecides(rest);
  }

  lemma {:induction false} SameShape(a: Tree, b: Tree)
    requires Shape(a) == Shape(b)
    ensures LeavesOf(a) == LeavesOf(b) && Separate(a) == Separate(b) && Order(a) == Order(b)
  {
    ShapeDecides(a);
    ShapeDecides(b);
  }

  lemma {:induction false} ShapeMeasures(tree: Tree, usages: seq<nat>, soft: bool)
    ensures Bytes(Shape(tree), usages) == Bytes(tree, usages)
    ensures Fits(Shape(tree), usages, soft) == Fits(tree, usages, soft)
  {
    match tree
    case Adaptive(_) =>
    case Fixed(_) =>
    case All(children) => ShapeOfAllMeasures(children, usages, soft);
    case Inspect(child) => ShapeMeasures(child, usages, soft);
    case Details(child, _, _) => ShapeMeasures(child, usages, soft);
  }

  lemma {:induction false} ShapeOfAllMeasures(forest: Forest, usages: seq<nat>, soft: bool)
    ensures BytesOfAll(ShapeOfAll(forest), usages) == BytesOfAll(forest, usages)
    ensures FitsAll(ShapeOfAll(forest), usages, soft) == FitsAll(forest, usages, soft)
  {
    match forest
    case Empty =>
    case Grown(first, rest) =>
      ShapeMeasures(first, usages, soft);
      ShapeOfAllMeasures(rest, usages, soft);
  }

  lemma {:induction false} SameMeasures(a: Tree, b: Tree, usages: seq<nat>, soft: bool)
    requires Shape(a) == Shape(b)
    ensures Bytes(a, usages) == Bytes(b, usages) && Fits(a, usages, soft) == Fits(b, usages, soft)
  {
    ShapeMeasures(a, usages, soft);
    ShapeMeasures(b, usages, soft);
  }

  /** A leaf uses no more than the tree it belongs to. */
  lemma {:induction false} LeafBytes(tree: Tree, usages: seq<nat>, leaf: nat)
    requires leaf in LeavesOf(tree)
    ensures At(usages, leaf) <= Bytes(tree, usages)
  {
    match tree
    case Adaptive(_) =>
    case All(children) => LeafBytesOfAll(children, usages, leaf);
    case Inspect(child) => LeafBytes(child, usages, leaf);
    case Details(child, _, _) => LeafBytes(child, usages, leaf);
  }

  lemma {:induction false} LeafBytesOfAll(forest: Forest, usages: seq<nat>, leaf: nat)
    requires leaf in LeavesOfAll(forest)
    ensures At(usages, leaf) <= BytesOfAll(forest, usages)
  {
    match forest
    case Grown(first, rest) =>
      if leaf in LeavesOf(first) {
        LeafBytes(first, usages, leaf);
      } else {
        LeafBytesOfAll(rest, usages, leaf);
      }
  }

  /** Smaller leaves make a tree smaller, and limits stay met. */
  lemma {:induction false} Shrunk(tree: Tree, before: seq<nat>, now: seq<nat>, soft: bool)
    requires forall leaf: nat :: At(now, leaf) <= At(before, leaf)
    ensures Bytes(tree, now) <= Bytes(tree, before) && (Fits(tree, before, soft) ==> Fits(tree, now, soft))
  {
    match tree
    case Adaptive(_) =>
    case Fixed(_) =>
    case All(children) => ShrunkAll(children, before, now, soft);
    case Inspect(child) => Shrunk(child, before, now, soft);
    case Details(child, _, _) => Shrunk(child, before, now, soft);
  }

  lemma {:induction false} ShrunkAll(forest: Forest, before: seq<nat>, now: seq<nat>, soft: bool)
    requires forall leaf: nat :: At(now, leaf) <= At(before, leaf)
    ensures BytesOfAll(forest, now) <= BytesOfAll(forest, before)
    ensures FitsAll(forest, before, soft) ==> FitsAll(forest, now, soft)
  {
    match forest
    case Empty =>
    case Grown(first, rest) =>
      Shrunk(first, before, now, soft);
      ShrunkAll(rest, before, now, soft);
  }

  /** The refreshed tree: same shape, settled, and its usage. */
  ghost predicate Settles(tree: Tree, now: Tree, usage: nat, usages: seq<nat>) {
    Shape(now) == Shape(tree) && Settled(now, usages) && usage == Bytes(now, usages)
  }

  lemma {:induction false} SettlesEmpty(usages: seq<nat>)
    ensures Settles(All(Empty), All(Empty), 0, usages)
  {
  }

  lemma {:induction false} SettlesGrown(first: Tree, head: Tree, headUsage: nat, rest: Forest, tail: Forest,
                                        tailUsage: nat, between: seq<nat>, now: seq<nat>)
    requires Settles(first, head, headUsage, between) && Settles(All(rest), All(tail), tailUsage, now)
    requires AgreeOn(LeavesOf(first), between, now)
    ensures Settles(All(Grown(first, rest)), All(Grown(head, tail)), headUsage + tailUsage, now)
  {
    SameShape(head, first);
    SettledAgree(head, between, now);
    BytesAgree(head, between, now);
  }

  // ----- what compiling keeps -----

  /** Every leaf of the schema has a lossy representation. */
  ghost predicate Supported(schema: Tree) {
    match schema
    case Adaptive(_) => true
    case Fixed(_) => false
    case All(children) => SupportedAll(children)
    case Inspect(child) => Supported(child)
    case Details(child, _, _) => Supported(child)
  }

  ghost predicate SupportedAll(forest: Forest) {
    match forest
    case Empty => true
    case Grown(first, rest) => Supported(first) && SupportedAll(rest)
  }

  /** Whatever the leaves use, the compiled tree uses as much as the schema, and its limits ask for the same. */
  ghost predicate Represents(compiled: Tree, schema: Tree) {
    && LeavesOf(compiled) == LeavesOf(schema) && (Separate(schema) ==> Separate(compiled))
    && forall usages: seq<nat> ::
         && Bytes(compiled, usages) == Bytes(schema, usages)
         && (Fits(compiled, usages, false) <==> Fits(schema, usages, false))
  }

  /** A compiled schema is supported, stands for the schema and fits. */
  ghost predicate Compiles(compiled: Tree, schema: Tree, usages: seq<nat>) {
    Supported(schema) && Represents(compiled, schema) && Fits(compiled, usages, false)
  }

  lemma {:induction false} CompiledMeasures(compiled: Tree, schema: Tree, earlier: seq<nat>, usages: seq<nat>)
    requires Compiles(compiled, schema, earlier)
    ensures Supported(schema) && Fits(compiled, earlier, false)
    ensures LeavesOf(compiled) == LeavesOf(schema) && (Separate(schema) ==> Separate(compiled))
    ensures Bytes(compiled, usages) == Bytes(schema, usages)
    ensures Fits(compiled, usages, false) <==> Fits(schema, usages, false)
  {
  }

  lemma {:induction false} CompilesLeaf(leaf: nat, usage: nat, usages: seq<nat>)
    ensures Compiles(Details(Adaptive(leaf), None, usage), Adaptive(leaf), usages)
  {
    var compiled := Details(Adaptive(leaf), None, usage);
    forall any: seq<nat>
      ensures Bytes(compiled, any) == Bytes(Adaptive(leaf), any)
      ensures Fits(compiled, any, false) <==> Fits(Adaptive(leaf), any, false)
    {
      assert Fits(Adaptive(leaf), any, false);
    }
  }

  lemma {:induction false} CompilesEmpty(usages: seq<nat>)
    ensures Compiles(All(Empty), All(Empty), usages)
  {
  }

  lemma {:induction false} CompilesGrown(head: Tree, first: Tree, tail: Forest, rest: Forest, between: seq<nat>,
                                         now: seq<nat>)
    requires Compiles(head, first, between) && Compiles(All(tail), All(rest), now)
    requires AgreeOn(LeavesOf(first), between, now)
    ensures Compiles(All(Grown(head, tail)), All(Grown(first, rest)), now)
  {
    FitsAgree(head, between, now, false);
    forall usages: seq<nat>
      ensures Bytes(All(Grown(head, tail)), usages) == Bytes(All(Grown(first, rest)), usages)
      ensures Fits(All(Grown(head, tail)), usages, false) <==> Fits(All(Grown(first, rest)), usages, false)
    {
      assert Bytes(All(tail), usages) == Bytes(All(rest), usages);
      assert Fits(All(tail), usages, false) <==> Fits(All(rest), usages, false);
      assert Bytes(head, usages) == Bytes(first, usages);
      assert Fits(head, usages, false) <==> Fits(first, usages, false);
    }
    GrownParts(head, tail);
    GrownParts(first, rest);
  }

  lemma {:induction false} GrownParts(first: Tree, rest: Forest)
    ensures LeavesOf(All(Grown(first, rest))) == LeavesOf(first) + LeavesOf(All(rest))
    ensures Separate(All(Grown(first, rest))) <==>
              Separate(first) && Separate(All(rest)) && LeavesOf(first) !! LeavesOf(All(rest))
    ensures forall usages: seq<nat>, soft :: Fits(All(Grown(first, rest)), usages, soft) <==>
              Fits(first, usages, soft) && Fits(All(rest), usages, soft)
  {
    forall usages: seq<nat>, soft
      ensures Fits(All(Grown(first, rest)), usages, soft) <==>
                Fits(first, usages, soft) && Fits(All(rest), usages, soft)
    {
      assert FitsAll(Grown(first, rest), usages, soft) <==> Fits(first, usages, soft) && FitsAll(rest, usages, soft);
    }
  }

  /** A Details node without a limit stands for its child, below an Inspect node or not. */
  lemma {:induction false} CompilesObserved(inner: Tree, child: Tree, recorded: nat, usage: nat, usages: seq<nat>)
    requires Compiles(inner, child, usages)
    ensures Compiles(Inspect(Details(inner, None, usage)), Inspect(child), usages)
    ensures Compiles(inner, Details(child, None, recorded), usages)
  {
    var compiled, observed := Inspect(Details(inner, None, usage)), Details(child, None, recorded);
    forall any: seq<nat>
      ensures Bytes(compiled, any) == Bytes(Inspect(child), any)
      ensures Fits(compiled, any, false) <==> Fits(Inspect(child), any, false)
      ensures Bytes(inner, any) == Bytes(observed, any) && (Fits(inner, any, false) <==> Fits(observed, any, false))
    {
      assert Bytes(inner, any) == Bytes(child, any) && (Fits(inner, any, false) <==> Fits(child, any, false));
      assert Fits(Details(inner, None, usage), any, false) <==> Fits(inner, any, false);
    }
  }

  /** A policy hands its limit down without changing what its tree asks for. */
  lemma {:induction false} CompilesPolicy(inner: Tree, child: Tree, schema: Tree, limit: nat, recorded: nat, usage: nat,
                                          earlier: seq<nat>, usages: seq<nat>)
    requires Compiles(child, schema, earlier) && Settles(child, inner, usage, usages) && usage <= limit
    ensures var compiled := Details(Clamp(inner, limit), Some(limit), usage);
            && Compiles(compiled, Details(schema, Some(limit), recorded), usages)
            && Settled(compiled, usages) && LimitsNest(compiled, limit) && Bytes(compiled, usages) <= limit
  {
    var compiled, policy := Details(Clamp(inner, limit), Some(limit), usage), Details(schema, Some(limit), recorded);
    SameShape(inner, child);
    ClampLeaves(inner, limit);
    ClampSettled(inner, limit, usages);
    ClampNests(inner, limit);
    SettledFits(compiled, usages);
    forall any: seq<nat>
      ensures Bytes(compiled, any) == Bytes(policy, any) && (Fits(compiled, any, false) <==> Fits(policy, any, false))
    {
      PolicyMeaning(inner, child, limit, any);
      CompiledMeasures(child, schema, earlier, any);
    }
  }

  lemma {:induction false} PolicyMeaning(inner: Tree, child: Tree, limit: nat, usages: seq<nat>)
    requires Shape(inner) == Shape(child)
    ensures Bytes(Clamp(inner, limit), usages) == Bytes(child, usages)
    ensures Bytes(child, usages) <= limit ==>
              (Fits(Clamp(inner, limit), usages, false) <==> Fits(child, usages, false))
  {
    SameMeasures(inner, child, usages, false);
    ClampBytes(inner, limit, usages);
    if Bytes(inner, usages) <= limit {
      ClampMeaning(inner, limit, usages);
    }
  }
}
