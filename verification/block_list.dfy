/** Drag-and-drop reordering of the Task Constructor's workspace: when a
    dragged block is dropped over another, it is moved to that block's
    position; anything else leaves the list as it was. */
module BlockList {
  import opened Results
  import opened Sequences
  import opened TaskBlocks

  /** The block ids in list order. */
  function Ids(blocks: seq<Block>): (r: seq<string>)
    ensures |r| == |blocks|
    ensures forall i :: 0 <= i < |r| ==> r[i] == blocks[i].id
  {
    seq(|blocks|, i requires 0 <= i < |blocks| => blocks[i].id)
  }

  function HasId(id: string): Block -> bool {
    (b: Block) => b.id == id
  }

  /** `blocks.findIndex(block => block.id === id)`. */
  function IndexOfBlock(blocks: seq<Block>, id: string): (r: int)
    ensures -1 <= r < |blocks|
    ensures r == -1 <==> id !in Ids(blocks)
    ensures r >= 0 ==> blocks[r].id == id && forall i :: 0 <= i < r ==> blocks[i].id != id
  {
    var r := FindIndex(blocks, HasId(id));
    assert r == -1 ==> forall i :: 0 <= i < |blocks| ==> Ids(blocks)[i] != id;
    r
  }

  /** The drag-end handler: with a drop target other than the dragged block,
      and both ids found, the dragged block is moved to the target's index.
      The list stays a permutation of itself; the moved block lands where the
      target was; the other blocks keep their relative order. */
  function ReorderBlocks(blocks: seq<Block>, active: string, over: Option<string>): (r: seq<Block>)
    ensures |r| == |blocks| && multiset(r) == multiset(blocks)
    ensures over.None? || over == Some(active) ==> r == blocks
    ensures active !in Ids(blocks) ==> r == blocks
    ensures over.Some? && over.value !in Ids(blocks) ==> r == blocks
    ensures over.Some? && over.value != active && active in Ids(blocks) && over.value in Ids(blocks) ==>
              var from, to := IndexOfBlock(blocks, active), IndexOfBlock(blocks, over.value);
              && r[to] == blocks[from]
              && r[to].id == active
              && RemoveAt(r, to) == RemoveAt(blocks, from)
  {
    match over
    case None => blocks
    case Some(target) =>
      if active == target then blocks
      else
        var from := IndexOfBlock(blocks, active);
        var to := IndexOfBlock(blocks, target);
        if from != -1 && to != -1 then ArrayMove(blocks, from, to) else blocks
  }

  /** With unique ids, a block's own id finds it. */
  lemma IndexOfOwnId(blocks: seq<Block>, k: nat)
    requires k < |blocks| && Distinct(Ids(blocks))
    ensures IndexOfBlock(blocks, blocks[k].id) == k
  {
    assert Ids(blocks)[k] == blocks[k].id;
  }

  lemma IdsArrayMove(blocks: seq<Block>, from: nat, to: nat)
    requires from < |blocks| && to < |blocks|
    ensures Ids(ArrayMove(blocks, from, to)) == ArrayMove(Ids(blocks), from, to)
  {
    var ids := Ids(blocks);
    var a, b := Ids(ArrayMove(blocks, from, to)), ArrayMove(ids, from, to);
    ArrayMoveShifts(blocks, from, to);
    ArrayMoveShifts(ids, from, to);
    forall k | 0 <= k < |a| ensures a[k] == b[k] {
      if k == to {
      } else if k < from && k < to {
      } else if from < k && to < k {
      } else if from <= k < to {
      } else {
        assert to < k <= from;
      }
    }
  }

  /** When both ids are found and differ, the handler is one `arrayMove`. */
  lemma ReorderIsMove(blocks: seq<Block>, active: string, over: string, from: nat, to: nat)
    requires from < |blocks| && to < |blocks| && active != over
    requires IndexOfBlock(blocks, active) == from && IndexOfBlock(blocks, over) == to
    ensures ReorderBlocks(blocks, active, Some(over)) == ArrayMove(blocks, from, to)
  {
  }

  /** Dragging the moved block back over the block that now sits at its old
      position restores the list, as long as ids are unique (they are random
      UUIDs). */
  lemma {:induction false} ReorderUndo(blocks: seq<Block>, active: string, over: string)
    requires Distinct(Ids(blocks))
    requires active in Ids(blocks) && over in Ids(blocks) && active != over
    ensures var from := IndexOfBlock(blocks, active);
            var r := ReorderBlocks(blocks, active, Some(over));
            && Distinct(Ids(r))
            && ReorderBlocks(r, active, Some(r[from].id)) == blocks
  {
    var from, to := IndexOfBlock(blocks, active), IndexOfBlock(blocks, over);
    assert from != to by {
      assert blocks[from].id == active && blocks[to].id == over;
    }
    ReorderIsMove(blocks, active, over, from, to);
    var r := ArrayMove(blocks, from, to);
    IdsArrayMove(blocks, from, to);
    DistinctArrayMove(Ids(blocks), from, to);
    IndexOfOwnId(r, to);
    IndexOfOwnId(r, from);
    var back := r[from].id;
    assert back != active by {
      assert Ids(r)[from] != Ids(r)[to];
    }
    ReorderIsMove(r, active, back, to, from);
    ArrayMoveInverse(blocks, from, to);
  }
}
