/**
 The block arrays of an ordered leaf under memory pressure. A preview is built in the array of the generation before the
 current one; applying it clears the current array and keeps it for the next preview.
 */
module OrderedBuffers {
  import opened Bitmaps
  import opened OrderedItems
  import opened OrderedBlocks
  import opened OrderedIndexes
  import opened OrderedRebuild

  datatype Preview<V> = Preview(buffer: array<Block<V>>, count: nat)

  class BlockBuffers<V(!new)> {
    var live: array<Block<V>>
    var count: nat
    var scratch: array?<Block<V>>
    var preview: Option<Preview<V>>

    /** The live array, the preview and the spare array are three different ones. */
    ghost predicate Valid()
      reads this
    {
      && count <= live.Length && scratch != live
      && (preview.Some? ==> preview.value.buffer != live && preview.value.buffer != scratch
                            && preview.value.count <= preview.value.buffer.Length)
    }

    ghost function Live(): seq<Block<V>>
      requires Valid()
      reads this, live
    {
      live[..count]
    }

    ghost function Previewed(): seq<Block<V>>
      requires Valid() && preview.Some?
      reads this, preview.value.buffer
    {
      preview.value.buffer[..preview.value.count]
    }

    constructor (blocks: seq<Block<V>>)
      ensures Valid() && Live() == blocks && preview.None?
    {
      live := new Block<V>[|blocks|](k requires 0 <= k < |blocks| => blocks[k]);
      count, scratch, preview := |blocks|, null, None;
      new;
      assert live[..count] == blocks;
    }

    /** The spare array if it is large enough, otherwise a new one; either way it is spare no longer. */
    method TakeScratch() returns (buffer: array<Block<V>>)
      requires Valid()
      modifies this`scratch
      ensures Valid() && scratch == null && buffer.Length >= count && buffer != live
      ensures if old(scratch) != null && old(scratch).Length >= count then buffer == old(scratch) else fresh(buffer)
    {
      if scratch == null || scratch.Length < count {
        buffer := new Block<V>[count](_ => Block([], {}));
      } else {
        buffer := scratch;
      }
      scratch := null;
    }

    /** Copies the live blocks and puts the replacement in the place of `n` of them; an emptied block is closed up. */
    method Fill(buffer: array<Block<V>>, b: nat, n: nat, replacement: seq<Block<V>>)
      requires Valid() && buffer != live && buffer.Length >= count
      requires b + n <= count && 0 < |replacement| <= n
      modifies buffer
      ensures buffer[..count - n + |replacement|] == Spliced(Live(), b, n, replacement)
    {
      ghost var blocks := Live();
      Overwrite(buffer, b, replacement);
      ghost var copied := buffer[..count];
      assert live[..b] == blocks[..b] && live[b + |replacement|..count] == blocks[b + |replacement|..];
      CopiedParts(blocks, b, n, replacement, copied);
      assert buffer[..b + |replacement|] == copied[..b + |replacement|] && buffer[b + n..count] == copied[b + n..];
      CloseUp(buffer, b + |replacement|, n - |replacement|, count);
    }

    method Overwrite(buffer: array<Block<V>>, b: nat, replacement: seq<Block<V>>)
      requires Valid() && buffer != live && buffer.Length >= count && b + |replacement| <= count
      modifies buffer
      ensures buffer[..count] == live[..b] + replacement + live[b + |replacement|..count]
    {
      forall k | 0 <= k < count {
        buffer[k] := live[k];
      }
      assert buffer[..count] == live[..count];
      forall k | 0 <= k < |replacement| {
        buffer[b + k] := replacement[k];
      }
    }

    /** Moves everything behind a gap forward. */
    static method CloseUp(buffer: array<Block<V>>, from: nat, gap: nat, total: nat)
      requires from + gap <= total <= buffer.Length
      modifies buffer
      ensures buffer[..total - gap] == old(buffer[..from]) + old(buffer[from + gap..total])
    {
      var k := from;
      while k + gap < total
        invariant from <= k <= total - gap
        invariant forall j :: 0 <= j < from || k + gap <= j < total ==> buffer[j] == old(buffer[j])
        invariant forall j :: from <= j < k ==> buffer[j] == old(buffer[j + gap])
      {
        buffer[k] := buffer[k + gap];
        k := k + 1;
      }
    }

    /** Prepares the generation in which the replacement stands for `n` blocks; the current one is not touched. */
    method Prepare(b: nat, n: nat, replacement: seq<Block<V>>)
      requires Valid() && b + n <= count && 0 < |replacement| <= n
      modifies this`scratch, this`preview, if scratch == null then {} else {scratch}
      ensures Valid() && live == old(live) && count == old(count) && Live() == old(Live())
      ensures preview.Some? && Previewed() == Spliced(Live(), b, n, replacement)
    {
      var buffer := TakeScratch();
      Fill(buffer, b, n, replacement);
      preview := Some(Preview(buffer, count - n + |replacement|));
    }

    /** The preview becomes current; the array of the replaced generation is cleared and becomes the spare one. */
    method Apply()
      requires Valid() && preview.Some?
      modifies this, live
      ensures Valid() && preview.None? && Live() == old(Previewed())
      ensures scratch == old(live) && forall k :: 0 <= k < scratch.Length ==> scratch[k] == Block([], {})
    {
      var previous := live;
      ghost var next := Previewed();
      live, count, preview := preview.value.buffer, preview.value.count, None;
      var k := 0;
      while k < previous.Length
        modifies previous
        invariant 0 <= k <= previous.Length && live[..count] == next
        invariant forall j :: 0 <= j < k ==> previous[j] == Block([], {})
      {
        previous[k] := Block([], {});
        k := k + 1;
      }
      scratch := previous;
    }

    /** A late insert drops the preview and changes the live blocks, in place as long as they fit. */
    method Insert(blocks: seq<Block<V>>)
      requires Valid()
      modifies this`live, this`count, this`preview, live
      ensures Valid() && preview.None? && Live() == blocks && scratch == old(scratch)
      ensures scratch != null ==> scratch[..] == old(scratch[..])
    {
      preview := None;
      if |blocks| > live.Length {
        live := new Block<V>[|blocks|](_ => Block([], {}));
      }
      count := |blocks|;
      forall k | 0 <= k < |blocks| {
        live[k] := blocks[k];
      }
      assert live[..count] == blocks;
    }
  }

  lemma {:induction false} CopiedParts<V>(blocks: seq<Block<V>>, b: nat, n: nat, replacement: seq<Block<V>>,
                                          copied: seq<Block<V>>)
    requires b + n <= |blocks| && |replacement| <= n
    requires copied == blocks[..b] + replacement + blocks[b + |replacement|..]
    ensures copied[..b + |replacement|] + copied[b + n..] == Spliced(blocks, b, n, replacement)
  {
  }

  /** A step prepared from a merge plan and applied leaves exactly the merged boundaries in the live array. */
  lemma {:induction false} StepIsMerge<V(!new)>(compare: (V, V) -> int, blocks: seq<Block<V>>, position: nat, b: nat,
                                                count: nat, replacement: seq<Block<V>>, k: nat, upward: bool)
    requires Sized(blocks) && Aggregated(blocks) && Sorted(compare, Flat(blocks)) && NoEmptyPosting(Flat(blocks))
    requires IsMergePlan(blocks, position, upward, b, count, replacement, k)
    ensures position + 1 < |Flat(blocks)|
    ensures Flat(Spliced(blocks, b, count, replacement)) == Merged(Flat(blocks), position, upward)
  {
    SplicedReady(compare, blocks, position, b, count, replacement, k, upward);
  }
}
