/**
 * The pooled reference-count allocator of lib/runtime/source/DDP/ddprefcount.c.
 *
 * Reference counts live in blocks of 64 cells. Each block carries a 64-bit
 * `used` bitmap, and the blocks form a doubly linked chain that starts at
 * `refc_root`. Memory is modelled as a map from block addresses to block
 * records, standing in for the general allocator's heap, and a handed-out
 * count is the address of cell `slot` of block `block`. The chain order is
 * kept as ghost state beside the links, and the pool's invariant ties the
 * two together.
 */
module RefCount {
  import opened Bitmap
  import opened Wrappers

  /** The address of a `RefcBlock`. */
  type BlockId = nat

  /** A `RefcBlock`: its links, its bitmap and its 64 counts. */
  datatype RefcBlock = RefcBlock(prev: Option<BlockId>, next: Option<BlockId>, used: Word, refcounts: seq<int>)

  /** `&block->refcounts[slot]`; an address handed back by a caller may name any slot. */
  datatype Refc = Refc(block: BlockId, slot: int)

  /** What `ddp_free_refcount` ends with: done, or `ddp_runtime_error(code, msg)`. */
  datatype Outcome = Done | RuntimeError(code: int, msg: string)

  /** The block `new_refc_block(prev)` initialises. */
  function FreshBlock(prev: Option<BlockId>): RefcBlock {
    RefcBlock(prev, None, ALL_FREE, Fill(LANES, 0))
  }

  /** The heap after `new_refc_block(prev)` has placed a new block at b. */
  function Attach(heap: map<BlockId, RefcBlock>, prev: Option<BlockId>, b: BlockId): map<BlockId, RefcBlock>
    requires prev.Some? ==> prev.value in heap
  {
    var linked := if prev.Some? then heap[prev.value := heap[prev.value].(next := Some(b))] else heap;
    linked[b := FreshBlock(prev)]
  }

  /**
   * The heap after `free_refc` has unlinked and freed block b: its
   * predecessor's `next` and its successor's `prev` skip over it.
   */
  function Unlink(heap: map<BlockId, RefcBlock>, b: BlockId): map<BlockId, RefcBlock>
    requires b in heap
  {
    var blk := heap[b];
    var h1 := if blk.prev.Some? && blk.prev.value in heap then heap[blk.prev.value := heap[blk.prev.value].(next := blk.next)] else heap;
    var h2 := if blk.next.Some? && blk.next.value in h1 then h1[blk.next.value := h1[blk.next.value].(prev := blk.prev)] else h1;
    h2 - {b}
  }

  /** `refc_in_block`: the address lies in `[&refcounts[0], &refcounts[63]]` of block b. */
  predicate RefcInBlock(r: Refc, b: BlockId) {
    r.block == b && 0 <= r.slot <= 63
  }

  // ---------------------------------------------------------------------
  // The pool invariant, over plain values.

  /** Block i of the chain is linked to its neighbours in the chain. */
  ghost predicate Linked(heap: map<BlockId, RefcBlock>, chain: seq<BlockId>, i: int)
    requires 0 <= i < |chain| && chain[i] in heap
  {
    var blk := heap[chain[i]];
    && blk.prev == (if i == 0 then None else Some(chain[i - 1]))
    && blk.next == (if i == |chain| - 1 then None else Some(chain[i + 1]))
    && |blk.refcounts| == LANES
  }

  /** No block appears twice on the chain. */
  ghost predicate Distinct(chain: seq<BlockId>) {
    forall i, j | 0 <= i < j < |chain| :: chain[i] != chain[j]
  }

  /** b is one of the blocks the pool has allocated and not freed. */
  ghost predicate Owned(heap: map<BlockId, RefcBlock>, b: BlockId) {
    b in heap
  }

  /** Every allocated block is on the chain. */
  ghost predicate Covers(heap: map<BlockId, RefcBlock>, chain: seq<BlockId>) {
    forall b {:trigger Owned(heap, b)} | Owned(heap, b) :: b in chain
  }

  /** Every block on the chain is allocated and linked to its neighbours. */
  ghost predicate AllLinked(heap: map<BlockId, RefcBlock>, chain: seq<BlockId>) {
    && (forall i | 0 <= i < |chain| :: chain[i] in heap)
    && (forall i {:trigger Linked(heap, chain, i)} | 0 <= i < |chain| :: Linked(heap, chain, i))
  }

  /**
   * The chain lists every allocated block once, in link order from the root;
   * every address on it is below the allocator's next fresh address.
   */
  ghost predicate Wf(root: Option<BlockId>, heap: map<BlockId, RefcBlock>, chain: seq<BlockId>, top: nat) {
    && Distinct(chain)
    && Covers(heap, chain)
    && (forall b | b in heap :: b < top)
    && root == (if |chain| == 0 then None else Some(chain[0]))
    && AllLinked(heap, chain)
  }

  /** The cells handed out: bit `slot` of block `block` is set. */
  ghost function IssuedIn(heap: map<BlockId, RefcBlock>): set<Refc> {
    set b, s | b in heap && 0 <= s < 64 && heap[b].used[s] :: Refc(b, s)
  }

  /** The last block of the chain, which `new_refc_block` links after. */
  function Last(chain: seq<BlockId>): Option<BlockId> {
    if |chain| == 0 then None else Some(chain[|chain| - 1])
  }

  /**
   * The index of the first block from position k on whose bitmap is not
   * `ALL_USED`, or `|chain|` when every one of them is full.
   */
  ghost function FirstNonFull(heap: map<BlockId, RefcBlock>, chain: seq<BlockId>, k: int): (r: int)
    requires 0 <= k <= |chain|
    requires forall i | 0 <= i < |chain| :: chain[i] in heap
    ensures k <= r <= |chain|
    ensures forall i | k <= i < r :: heap[chain[i]].used == ALL_USED
    ensures r < |chain| ==> heap[chain[r]].used != ALL_USED
    decreases |chain| - k
  {
    if k == |chain| then k
    else if heap[chain[k]].used != ALL_USED then k
    else FirstNonFull(heap, chain, k + 1)
  }

  // ---------------------------------------------------------------------
  // The invariant survives the three ways the chain changes.

  /** Appending a fresh block after the last keeps the invariant. */
  lemma {:induction false} AppendKeepsWf(root: Option<BlockId>, heap: map<BlockId, RefcBlock>, chain: seq<BlockId>, top: nat)
    requires Wf(root, heap, chain, top)
    ensures Wf(if |chain| == 0 then Some(top) else root, Attach(heap, Last(chain), top), chain + [top], top + 1)
  {
    var h := Attach(heap, Last(chain), top);
    var c := chain + [top];
    assert top !in heap;
    forall i | 0 <= i < |c|
      ensures c[i] in h && Linked(h, c, i)
    {
      if i < |chain| - 1 {
        assert h[c[i]] == heap[chain[i]];
        assert Linked(heap, chain, i);
      } else if i == |chain| - 1 {
        assert Linked(heap, chain, i);
      }
    }
    forall b | Owned(h, b)
      ensures b in c
    {
      if b != top {
        assert Owned(heap, b);
      }
    }
  }

  /** Only the bitmap of b changes: the invariant holds on. */
  lemma {:induction false} SetUsedKeepsWf(root: Option<BlockId>, heap: map<BlockId, RefcBlock>, chain: seq<BlockId>, top: nat, b: BlockId, u: Word)
    requires Wf(root, heap, chain, top) && b in heap
    ensures Wf(root, heap[b := heap[b].(used := u)], chain, top)
  {
    var h := heap[b := heap[b].(used := u)];
    forall i | 0 <= i < |chain|
      ensures Linked(h, chain, i)
    {
      assert Linked(heap, chain, i);
    }
    forall x | Owned(h, x)
      ensures x in chain
    {
      assert Owned(heap, x);
    }
  }

  /** The chain without its element k. */
  function Without(chain: seq<BlockId>, k: int): (c: seq<BlockId>)
    requires 0 <= k < |chain|
    ensures |c| == |chain| - 1
    ensures forall i | 0 <= i < |c| :: c[i] == (if i < k then chain[i] else chain[i + 1])
  {
    chain[..k] + chain[k + 1..]
  }

  lemma {:induction false} WithoutDistinct(chain: seq<BlockId>, k: int)
    requires Distinct(chain) && 0 <= k < |chain|
    ensures Distinct(Without(chain, k))
    ensures forall x :: x in Without(chain, k) <==> x in chain && x != chain[k]
  {
    var c := Without(chain, k);
    forall i, j | 0 <= i < j < |c|
      ensures c[i] != c[j]
    {
      assert c[i] == chain[if i < k then i else i + 1];
      assert c[j] == chain[if j < k then j else j + 1];
    }
    forall x
      ensures x in c <==> x in chain && x != chain[k]
    {
      if x in c {
        var i :| 0 <= i < |c| && c[i] == x;
        assert chain[if i < k then i else i + 1] == x;
      }
      if x in chain && x != chain[k] {
        var i :| 0 <= i < |chain| && chain[i] == x;
        assert c[if i < k then i else i - 1] == x;
      }
    }
  }

  /** What `Unlink(heap, b)` holds at an address other than b. */
  lemma {:induction false} UnlinkAt(heap: map<BlockId, RefcBlock>, b: BlockId, x: BlockId)
    requires b in heap && x in heap && x != b
    requires heap[b].prev.Some? && heap[b].next.Some? ==> heap[b].prev != heap[b].next
    ensures Unlink(heap, b).Keys == heap.Keys - {b}
    ensures Unlink(heap, b)[x] ==
      if heap[b].prev == Some(x) then heap[x].(next := heap[b].next)
      else if heap[b].next == Some(x) then heap[x].(prev := heap[b].prev)
      else heap[x]
  {
  }

  /** Unlinking block k keeps the rest of the chain linked. */
  lemma {:induction false} UnlinkLinks(heap: map<BlockId, RefcBlock>, chain: seq<BlockId>, k: int)
    requires Distinct(chain) && AllLinked(heap, chain) && 0 <= k < |chain|
    ensures AllLinked(Unlink(heap, chain[k]), Without(chain, k))
  {
    var b := chain[k];
    var h := Unlink(heap, b);
    var c := Without(chain, k);
    assert Linked(heap, chain, k);
    forall i | 0 <= i < |c|
      ensures c[i] in h && Linked(h, c, i)
    {
      var i0 := if i < k then i else i + 1;
      assert Linked(heap, chain, i0);
      assert c[i] == chain[i0];
      assert 0 < k < |chain| - 1 ==> chain[k - 1] != chain[k + 1];
      UnlinkAt(heap, b, c[i]);
      if i0 == k - 1 {
        assert i0 + 1 < |chain| ==> chain[i0 + 1] != chain[i0];
        assert k + 1 < |chain| ==> chain[k + 1] != chain[i0];
      } else if i0 == k + 1 {
        assert k > 0 ==> chain[k - 1] != chain[i0];
      } else {
        assert k > 0 ==> chain[k - 1] != chain[i0];
        assert k + 1 < |chain| ==> chain[k + 1] != chain[i0];
      }
    }
  }

  /** Removing block k of the chain with `Unlink` keeps the invariant. */
  lemma {:induction false} UnlinkKeepsWf(root: Option<BlockId>, heap: map<BlockId, RefcBlock>, chain: seq<BlockId>, top: nat, k: int)
    requires Wf(root, heap, chain, top) && 0 <= k < |chain|
    ensures Linked(heap, chain, k)
    ensures var b := chain[k];
      Wf(if root == Some(b) then heap[b].next else root, Unlink(heap, b), Without(chain, k), top)
  {
    var b := chain[k];
    assert Linked(heap, chain, k);
    WithoutDistinct(chain, k);
    UnlinkLinks(heap, chain, k);
    assert Unlink(heap, b).Keys == heap.Keys - {b};
    forall x | Owned(Unlink(heap, b), x)
      ensures x in Without(chain, k)
    {
      assert Owned(heap, x);
    }
    if root == Some(b) {
      assert k == 0;
      assert |chain| > 1 ==> Linked(heap, chain, 1);
    }
  }

  // ---------------------------------------------------------------------
  // What the handed-out set does under each heap change.

  lemma {:induction false} IssuedSetBit(heap: map<BlockId, RefcBlock>, b: BlockId, i: Lane)
    requires b in heap
    ensures IssuedIn(heap[b := heap[b].(used := SetBit(heap[b].used, i))]) == IssuedIn(heap) + {Refc(b, i)}
  {
  }

  lemma {:induction false} IssuedClearBit(heap: map<BlockId, RefcBlock>, b: BlockId, i: Lane)
    requires b in heap
    ensures IssuedIn(heap[b := heap[b].(used := ClearBit(heap[b].used, i))]) == IssuedIn(heap) - {Refc(b, i)}
  {
  }

  /** A block whose bitmap is `ALL_FREE` holds no handed-out cell. */
  lemma {:induction false} IssuedAttach(heap: map<BlockId, RefcBlock>, prev: Option<BlockId>, b: BlockId)
    requires prev.Some? ==> prev.value in heap
    requires b !in heap
    ensures IssuedIn(Attach(heap, prev, b)) == IssuedIn(heap)
  {
    var h := Attach(heap, prev, b);
    forall r | r in IssuedIn(h)
      ensures r in IssuedIn(heap)
    {
      assert r.block != b;
    }
  }

  lemma {:induction false} IssuedUnlink(heap: map<BlockId, RefcBlock>, b: BlockId)
    requires b in heap && heap[b].used == ALL_FREE
    ensures IssuedIn(Unlink(heap, b)) == IssuedIn(heap)
  {
    var h := Unlink(heap, b);
    forall r | r in IssuedIn(heap)
      ensures r in IssuedIn(h)
    {
      assert r.block != b;
    }
  }

  // ---------------------------------------------------------------------
  // No live block is empty: `free_refc` retires a block once its last cell is freed.

  /** No allocated block has an all-clear bitmap. */
  ghost predicate NoEmpty(heap: map<BlockId, RefcBlock>) {
    forall x | x in heap :: heap[x].used != ALL_FREE
  }

  /** Setting a bit of b leaves b non-empty; the others are untouched. */
  lemma {:induction false} SetBitNoEmpty(heap: map<BlockId, RefcBlock>, b: BlockId, i: Lane)
    requires b in heap
    requires forall x | x in heap && x != b :: heap[x].used != ALL_FREE
    ensures NoEmpty(heap[b := heap[b].(used := SetBit(heap[b].used, i))])
  {
    assert SetBit(heap[b].used, i)[i] != ALL_FREE[i];
  }

  /** Attaching a block changes no other block's bitmap. */
  lemma {:induction false} AttachOthers(heap: map<BlockId, RefcBlock>, prev: Option<BlockId>, b: BlockId)
    requires prev.Some? ==> prev.value in heap
    requires NoEmpty(heap) && b !in heap
    ensures forall x | x in Attach(heap, prev, b) && x != b :: Attach(heap, prev, b)[x].used != ALL_FREE
  {
  }

  /** Clearing a bit of b that leaves b non-empty keeps every block non-empty. */
  lemma {:induction false} ClearBitNoEmpty(heap: map<BlockId, RefcBlock>, b: BlockId, u: Word)
    requires NoEmpty(heap) && b in heap && u != ALL_FREE
    ensures NoEmpty(heap[b := heap[b].(used := u)])
  {
  }

  /** Unlinking b rewrites only links, so the remaining blocks stay non-empty. */
  lemma {:induction false} UnlinkNoEmpty(heap: map<BlockId, RefcBlock>, b: BlockId)
    requires b in heap
    requires forall x | x in heap && x != b :: heap[x].used != ALL_FREE
    requires heap[b].prev.Some? && heap[b].next.Some? ==> heap[b].prev != heap[b].next
    ensures NoEmpty(Unlink(heap, b))
  {
    forall x | x in Unlink(heap, b)
      ensures Unlink(heap, b)[x].used != ALL_FREE
    {
      UnlinkAt(heap, b, x);
    }
  }

  // ---------------------------------------------------------------------

  /** The pool: `refc_root`, the blocks it owns and the allocator's next address. */
  class RefcPool {
    var root: Option<BlockId>
    var heap: map<BlockId, RefcBlock>
    var nextFresh: nat
    ghost var chain: seq<BlockId>

    ghost predicate Valid()
      reads this
    {
      Wf(root, heap, chain, nextFresh)
    }

    /** No block on the chain has an all-clear bitmap. */
    ghost predicate NoEmptyBlock()
      reads this
    {
      NoEmpty(heap)
    }

    /** The counts handed out and not yet freed. */
    ghost function Issued(): set<Refc>
      reads this
    {
      IssuedIn(heap)
    }

    /** `static RefcBlock *refc_root = NULL;` */
    constructor ()
      ensures Valid() && NoEmptyBlock()
      ensures root == None && heap == map[] && chain == []
      ensures Issued() == {}
    {
      root := None;
      heap := map[];
      nextFresh := 0;
      chain := [];
    }

    /**
     * `new_refc_block(prev)`: a top block with no link forward, an
     * all-clear bitmap and zero counts, linked after prev.
     */
    method NewRefcBlock(prev: Option<BlockId>) returns (b: BlockId)
      modifies this
      requires prev.Some? ==> prev.value in heap
      requires forall x | x in heap :: x < nextFresh
      ensures b == old(nextFresh) && b !in old(heap) && nextFresh == b + 1
      ensures heap == Attach(old(heap), prev, b)
      ensures heap[b].prev == prev && heap[b].next == None
      ensures heap[b].used == ALL_FREE && heap[b].refcounts == Fill(LANES, 0)
      ensures prev.Some? ==> heap[prev.value].next == Some(b)
      ensures root == old(root) && chain == old(chain)
    {
      b := nextFresh;
      nextFresh := nextFresh + 1;
      if prev.Some? {
        heap := heap[prev.value := heap[prev.value].(next := Some(b))];
      }
      heap := heap[b := FreshBlock(prev)];
    }

    /**
     * `next_block_with_capa`: the first block from the root whose bitmap is
     * not `ALL_USED`; when there is none, a new block appended after the
     * last one (or made the root of an empty chain).
     */
    method NextBlockWithCapa() returns (b: BlockId)
      modifies this
      requires Valid()
      ensures Valid()
      ensures b in heap && heap[b].used != ALL_USED
      ensures Issued() == old(Issued())
      ensures var k := FirstNonFull(old(heap), old(chain), 0);
        if k < |old(chain)| then
          b == old(chain)[k] && heap == old(heap) && chain == old(chain)
          && root == old(root) && nextFresh == old(nextFresh)
        else
          b == old(nextFresh) && b !in old(heap) && chain == old(chain) + [b]
          && heap == Attach(old(heap), Last(old(chain)), b)
          && root == (if old(root).None? then Some(b) else old(root))
    {
      assert ALL_FREE[0] != ALL_USED[0];
      if root.None? {
        AppendKeepsWf(root, heap, chain, nextFresh);
        IssuedAttach(heap, None, nextFresh);
        b := NewRefcBlock(None);
        root := Some(b);
        chain := [b];
        return;
      }
      var it := root.value;
      ghost var k := 0;
      while heap[it].used == ALL_USED
        invariant Valid()
        invariant 0 <= k < |chain| && it == chain[k]
        invariant heap == old(heap) && chain == old(chain) && root == old(root) && nextFresh == old(nextFresh)
        invariant FirstNonFull(heap, chain, 0) == FirstNonFull(heap, chain, k)
        decreases |chain| - k
      {
        assert Linked(heap, chain, k);
        if heap[it].next.None? {
          assert k == |chain| - 1 && Last(chain) == Some(it);
          assert FirstNonFull(heap, chain, k + 1) == |chain|;
          AppendKeepsWf(root, heap, chain, nextFresh);
          IssuedAttach(heap, Some(it), nextFresh);
          b := NewRefcBlock(Some(it));
          chain := chain + [b];
          return;
        }
        it := heap[it].next.value;
        k := k + 1;
      }
      b := it;
    }

    /**
     * `get_block_of_refc`: walks the chain from the root and yields the
     * first block whose cell range holds r, or nothing.
     */
    method GetBlockOfRefc(r: Refc) returns (res: Option<BlockId>)
      requires Valid()
      ensures res == (if r.block in heap && RefcInBlock(r, r.block) then Some(r.block) else None)
    {
      var it := root;
      ghost var k := 0;
      if r.block in heap {
        assert Owned(heap, r.block);
      }
      while it.Some? && !RefcInBlock(r, it.value)
        invariant 0 <= k <= |chain|
        invariant it == (if k < |chain| then Some(chain[k]) else None)
        invariant forall j | 0 <= j < k :: !RefcInBlock(r, chain[j])
        decreases |chain| - k
      {
        assert Linked(heap, chain, k);
        it := heap[it.value].next;
        k := k + 1;
      }
      res := it;
    }

    /**
     * `allocate_refc`: sets the lowest clear bit of b's bitmap,
     * `ffsll(~used) - 1`, and hands out that cell.
     */
    method AllocateRefc(b: BlockId) returns (r: Refc)
      modifies this
      requires b in heap && heap[b].used != ALL_USED
      ensures r.block == b && 0 <= r.slot < 64
      ensures r.slot == Ffsll(Complement(old(heap)[b].used)) - 1
      ensures !old(heap)[b].used[r.slot]
      ensures forall j: Lane :: j < r.slot ==> old(heap)[b].used[j]
      ensures heap == old(heap)[b := old(heap)[b].(used := SetBit(old(heap)[b].used, r.slot))]
      ensures root == old(root) && chain == old(chain) && nextFresh == old(nextFresh)
    {
      FirstZero(heap[b].used);
      var firstZero := Ffsll(Complement(heap[b].used)) - 1;
      heap := heap[b := heap[b].(used := SetBit(heap[b].used, firstZero))];
      r := Refc(b, firstZero);
    }

    /**
     * The retiring half of `free_refc`: an all-clear block b leaves the chain
     * (the root moves on if it was the root, its neighbours are linked to
     * each other) and is freed.
     */
    method RetireBlock(b: BlockId)
      modifies this
      requires Valid() && b in heap && heap[b].used == ALL_FREE
      requires forall x | x in heap && x != b :: heap[x].used != ALL_FREE
      ensures Valid() && NoEmptyBlock()
      ensures root == (if old(root) == Some(b) then old(heap)[b].next else old(root))
      ensures heap == Unlink(old(heap), b) && b !in heap
      ensures exists k | 0 <= k < |old(chain)| :: old(chain)[k] == b && chain == Without(old(chain), k)
      ensures Issued() == old(Issued()) && nextFresh == old(nextFresh)
    {
      assert Owned(heap, b);
      ghost var k :| 0 <= k < |chain| && chain[k] == b;
      UnlinkKeepsWf(root, heap, chain, nextFresh, k);
      IssuedUnlink(heap, b);
      assert 0 < k < |chain| - 1 ==> chain[k - 1] != chain[k + 1];
      UnlinkNoEmpty(heap, b);
      if root == Some(b) {
        root := heap[b].next;
      }
      heap := Unlink(heap, b);
      chain := Without(chain, k);
    }

    /**
     * `free_refc`: clears bit `refc - block->refcounts`; when that leaves
     * the bitmap `ALL_FREE`, retires the block.
     */
    method FreeRefc(b: BlockId, r: Refc)
      modifies this
      requires Valid() && NoEmptyBlock() && b in heap && RefcInBlock(r, b)
      ensures Valid() && NoEmptyBlock()
      ensures var u := ClearBit(old(heap)[b].used, r.slot);
        if u == ALL_FREE then
          && root == (if old(root) == Some(b) then old(heap)[b].next else old(root))
          && heap == Unlink(old(heap)[b := old(heap)[b].(used := u)], b)
          && (exists k | 0 <= k < |old(chain)| :: old(chain)[k] == b && chain == Without(old(chain), k))
        else
          heap == old(heap)[b := old(heap)[b].(used := u)] && root == old(root) && chain == old(chain)
      ensures Issued() == old(Issued()) - {r}
      ensures nextFresh == old(nextFresh)
    {
      var index := r.slot;
      ghost var h0 := heap;
      SetUsedKeepsWf(root, heap, chain, nextFresh, b, ClearBit(heap[b].used, index));
      IssuedClearBit(heap, b, index);
      heap := heap[b := heap[b].(used := ClearBit(heap[b].used, index))];
      if heap[b].used == ALL_FREE {
        RetireBlock(b);
      } else {
        ClearBitNoEmpty(h0, b, heap[b].used);
      }
    }

    /** `ddp_allocate_refcount`: a cell of the first block with room. */
    method AllocateRefcount() returns (r: Refc)
      modifies this
      requires Valid() && NoEmptyBlock()
      ensures Valid() && NoEmptyBlock()
      ensures r !in old(Issued()) && Issued() == old(Issued()) + {r}
      ensures r.block in heap && 0 <= r.slot < 64
      ensures var k := FirstNonFull(old(heap), old(chain), 0);
        if k < |old(chain)| then
          && r.block == old(chain)[k] && chain == old(chain) && root == old(root)
          && !old(heap)[r.block].used[r.slot]
          && (forall j: Lane :: j < r.slot ==> old(heap)[r.block].used[j])
          && heap == old(heap)[r.block := old(heap)[r.block].(used := SetBit(old(heap)[r.block].used, r.slot))]
        else
          && r == Refc(old(nextFresh), 0) && chain == old(chain) + [r.block]
          && root == (if old(root).None? then Some(r.block) else old(root))
          && heap == Attach(old(heap), Last(old(chain)), r.block)[r.block := FreshBlock(Last(old(chain))).(used := SetBit(ALL_FREE, 0))]
    {
      ghost var h0 := heap;
      ghost var c0 := chain;
      var b := NextBlockWithCapa();
      if FirstNonFull(h0, c0, 0) == |c0| {
        AttachOthers(h0, Last(c0), b);
        PrefixFull();
        PrefixGrows(0);
      }
      ghost var before := heap;
      r := AllocateRefc(b);
      SetUsedKeepsWf(root, before, chain, nextFresh, b, heap[b].used);
      IssuedSetBit(before, b, r.slot);
      SetBitNoEmpty(before, b, r.slot);
    }

    /**
     * `ddp_free_refcount`: frees r when some linked block holds it, and
     * otherwise stops with runtime error 1 and changes nothing.
     */
    method FreeRefcount(r: Refc) returns (res: Outcome)
      modifies this
      requires Valid() && NoEmptyBlock()
      ensures Valid() && NoEmptyBlock()
      ensures res.RuntimeError? <==> !(r.block in old(heap) && RefcInBlock(r, r.block))
      ensures res.RuntimeError? ==>
        res == RuntimeError(1, "refc not found in any block")
        && heap == old(heap) && root == old(root) && chain == old(chain)
      ensures res.Done? ==>
        && Issued() == old(Issued()) - {r}
        && (r.block !in heap <==> ClearBit(old(heap)[r.block].used, r.slot) == ALL_FREE)
      ensures res.Done? ==>
        var b, u := r.block, ClearBit(old(heap)[r.block].used, r.slot);
        if u == ALL_FREE then
          && root == (if old(root) == Some(b) then old(heap)[b].next else old(root))
          && heap == Unlink(old(heap)[b := old(heap)[b].(used := u)], b)
          && (exists k | 0 <= k < |old(chain)| :: old(chain)[k] == b && chain == Without(old(chain), k))
        else
          heap == old(heap)[b := old(heap)[b].(used := u)] && root == old(root) && chain == old(chain)
      ensures nextFresh == old(nextFresh)
    {
      var block := GetBlockOfRefc(r);
      if block.None? {
        return RuntimeError(1, "refc not found in any block");
      }
      ghost var u := ClearBit(heap[r.block].used, r.slot);
      FreeRefc(block.value, r);
      res := Done;
    }

    /** n successive `ddp_allocate_refcount` calls hand out n distinct, previously free cells. */
    method AllocateMany(n: nat) returns (rs: seq<Refc>)
      modifies this
      requires Valid() && NoEmptyBlock()
      ensures Valid() && NoEmptyBlock()
      ensures |rs| == n
      ensures forall i, j | 0 <= i < j < n :: rs[i] != rs[j]
      ensures forall i | 0 <= i < n :: rs[i] !in old(Issued())
      ensures forall x :: x in Issued() <==> x in old(Issued()) || x in rs
    {
      rs := [];
      while |rs| < n
        invariant Valid() && NoEmptyBlock() && |rs| <= n
        invariant forall i, j | 0 <= i < j < |rs| :: rs[i] != rs[j]
        invariant forall i | 0 <= i < |rs| :: rs[i] !in old(Issued())
        invariant forall x :: x in Issued() <==> x in old(Issued()) || x in rs
      {
        var r := AllocateRefcount();
        rs := rs + [r];
      }
    }

    /**
     * From an empty pool, 64 allocations take cells 0 to 63 of a single
     * block, which is then full: the next allocation opens a second block.
     */
    method FillFirstBlock() returns (rs: seq<Refc>)
      modifies this
      requires Valid() && NoEmptyBlock() && root == None
      ensures Valid() && NoEmptyBlock()
      ensures |rs| == 64 && |chain| == 1 && heap[chain[0]].used == ALL_USED
      ensures forall j | 0 <= j < 64 :: rs[j] == Refc(chain[0], j)
    {
      PrefixFull();
      rs := [];
      while |rs| < 64
        invariant |rs| <= 64
        invariant Valid() && NoEmptyBlock()
        invariant |rs| == 0 ==> chain == []
        invariant |rs| > 0 ==> |chain| == 1 && heap[chain[0]].used == Prefix(|rs|)
        invariant forall j | 0 <= j < |rs| :: rs[j] == Refc(chain[0], j)
      {
        PrefixGrows(|rs|);
        if |rs| > 0 {
          assert !heap[chain[0]].used[|rs|];
        }
        var r := AllocateRefcount();
        rs := rs + [r];
      }
    }

    /**
     * `ddp_free_refc_blocks`: frees every block reachable from the root.
     * `refc_root` keeps its value and is left pointing at freed memory.
     */
    method FreeRefcBlocks()
      modifies this
      requires Valid()
      ensures heap == map[]
      ensures root == old(root) && chain == old(chain) && nextFresh == old(nextFresh)
      ensures root.Some? ==> root.value !in heap
    {
      var it := root;
      ghost var k := 0;
      while it.Some?
        invariant 0 <= k <= |chain|
        invariant it == (if k < |chain| then Some(chain[k]) else None)
        invariant forall i | k <= i < |chain| :: chain[i] in heap
        invariant forall i | 0 <= i < k :: chain[i] !in heap
        invariant forall b | b in heap :: b in old(heap) && heap[b] == old(heap)[b]
        invariant root == old(root) && chain == old(chain) && nextFresh == old(nextFresh)
        decreases |chain| - k
      {
        assert Linked(old(heap), chain, k);
        var toFree := it.value;
        it := heap[toFree].next;
        heap := heap - {toFree};
        assert forall i | k < i < |chain| :: chain[i] != chain[k];
        k := k + 1;
      }
      forall b | b in old(heap)
        ensures b !in heap
      {
        assert Owned(old(heap), b);
      }
      assert heap.Keys == {};
    }
  }
}
