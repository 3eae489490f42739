/** The downlink object of lib/downlink.c: a FIFO of slab blocks, drained in pieces of any size. */
module Downlink {
  import opened Base
  import opened Slab
  import Spec = DownlinkSpec

  /** The queued blocks with their contents. */
  function Chunks(cells: seq<Cell>, q: seq<nat>): seq<Spec.Chunk>
    requires forall i :: 0 <= i < |q| ==> q[i] < |cells| && cells[q[i]].len <= |cells[q[i]].data|
  {
    seq(|q|, i requires 0 <= i < |q| => Spec.Chunk(q[i], Used(cells[q[i]]), cells[q[i]].last))
  }

  lemma ChunksTail(cells: seq<Cell>, q: seq<nat>)
    requires forall i :: 0 <= i < |q| ==> q[i] < |cells| && cells[q[i]].len <= |cells[q[i]].data|
    requires q != []
    ensures Chunks(cells, q)[0] == Spec.Chunk(q[0], Used(cells[q[0]]), cells[q[0]].last)
    ensures Chunks(cells, q)[1..] == Chunks(cells, q[1..])
  {}

  lemma ChunksSnoc(cells: seq<Cell>, q: seq<nat>, slot: nat)
    requires forall i :: 0 <= i < |q| ==> q[i] < |cells| && cells[q[i]].len <= |cells[q[i]].data|
    requires slot < |cells| && cells[slot].len <= |cells[slot].data|
    ensures Chunks(cells, q + [slot]) == Chunks(cells, q) + [Spec.Chunk(slot, Used(cells[slot]), cells[slot].last)]
  {}

  /** The queue does not notice changes of other slots. */
  lemma ChunksKept(cells: seq<Cell>, cells': seq<Cell>, q: seq<nat>)
    requires |cells| == |cells'|
    requires forall i :: 0 <= i < |q| ==> q[i] < |cells| && cells[q[i]].len <= |cells[q[i]].data|
    requires forall i :: 0 <= i < |q| ==> cells'[q[i]] == cells[q[i]]
    ensures Chunks(cells, q) == Chunks(cells', q)
  {}

  class Downlink {
    const slab: Slab
    var alive: bool
    /** k_fifo of blocks. */
    var queue: seq<nat>
    var current: Option<nat>
    var offset: nat
    var complete: bool
    var aborted: bool
    var waiting: bool

    function Blocks(): seq<nat>
      reads this
    {
      (if current.Some? then [current.value] else []) + queue
    }

    /** The blocks held are in the slab, taken, and all different. */
    ghost predicate Valid()
      reads this, slab, slab.cells
    {
      && slab.Valid()
      && (forall i :: 0 <= i < |queue| ==> queue[i] < slab.cells.Length && queue[i] !in slab.free)
      && (forall i, j :: 0 <= i < j < |queue| ==> queue[i] != queue[j])
      && (current.Some? ==>
            && current.value < slab.cells.Length && current.value !in slab.free && current.value !in queue
            && offset <= slab.cells[current.value].len)
      && (current.None? ==> offset == 0)
      && (!alive ==> current == None && queue == [])
    }

    ghost function Current(): Option<Spec.Chunk>
      requires Valid()
      reads this, slab, slab.cells
    {
      if current.None? then None
      else
        var c := slab.cells[current.value];
        Some(Spec.Chunk(current.value, c.data[offset..c.len], c.last))
    }

    ghost function Model(): (s: Spec.State)
      requires Valid()
      reads this, slab, slab.cells
      ensures s.alive == alive && s.complete == complete && s.aborted == aborted && s.waiting == waiting
      ensures s.cur == None <==> current == None
    {
      Spec.State(alive, Current(), Chunks(slab.cells[..], queue), complete, aborted, waiting)
    }

    /** The free list grows by blocks of this downlink only. */
    twostate predicate FreesOwn()
      reads this, slab
    {
      forall x :: x in slab.free ==> x in old(slab.free) || x in old(Blocks())
    }

    lemma SlotsAreBlocks()
      requires Valid()
      ensures Spec.Slots(Spec.Held(Model())) == Blocks()
    {}

    /**
     * Another downlink on the slab does not notice a step of this one that frees only its own
     * blocks and writes only to blocks that were free.
     */
    twostate lemma OthersUnaffected(other: Downlink)
      requires other.slab == slab && old(other.Valid()) && unchanged(other) && slab.Valid()
      requires forall x :: x in old(other.Blocks()) ==> x !in old(Blocks())
      requires FreesOwn()
      requires forall s :: 0 <= s < slab.cells.Length && s !in old(slab.free) ==> slab.cells[s] == old(slab.cells[s])
      ensures other.Valid() && other.Model() == old(other.Model())
    {
      assert forall i :: 0 <= i < |other.queue| ==> other.queue[i] in old(other.Blocks());
      ChunksKept(old(slab.cells[..]), slab.cells[..], other.queue);
    }

    constructor (slab: Slab)
      requires slab.Valid()
      ensures Valid() && this.slab == slab && Model() == Spec.Opened()
    {
      this.slab := slab;
      alive, queue, current, offset := true, [], None, 0;
      complete, aborted, waiting := false, false, true;
    }

    /** pouch_gateway_downlink_open fails exactly when its malloc does. */
    static method Open(slab: Slab, malloc: bool) returns (d: Downlink?)
      requires slab.Valid()
      ensures d == null <==> !malloc
      ensures d != null ==> fresh(d) && d.Valid() && d.slab == slab && d.Model() == Spec.Opened()
    {
      d := null;
      if malloc {
        d := new Downlink(slab);
      }
    }

    method FlushBlockQueue()
      requires Valid() && alive
      modifies this`queue, slab`free
      ensures Valid() && queue == []
      ensures slab.free == Spec.Release(old(slab.free), old(queue))
    {
      while queue != []
        invariant Valid()
        invariant Spec.Release(slab.free, queue) == Spec.Release(old(slab.free), old(queue))
        decreases |queue|
      {
        var block := queue[0];
        queue := queue[1..];
        slab.BlockFree(block);
      }
    }

    /** Frees the context; blocks still queued stay taken for good. */
    method Close()
      requires Valid() && alive
      modifies this, slab`free
      ensures Valid() && Model() == Spec.Close(old(Model())).s
      ensures slab.free == Spec.Release(old(slab.free), Spec.Close(old(Model())).freed) && FreesOwn()
      ensures !alive && slab.free == (if old(current).Some? then [old(current).value] else []) + old(slab.free)
    {
      if current.Some? {
        slab.BlockFree(current.value);
      }
      alive, current, queue, offset := false, None, [], 0;
    }

    method Abort()
      requires Valid() && alive
      modifies this, slab`free
      ensures Valid() && Model() == Spec.Abort(old(Model())).s
      ensures slab.free == Spec.Release(old(slab.free), Spec.Abort(old(Model())).freed) && FreesOwn()
      ensures aborted && alive == !old(complete) && (alive ==> slab.free == old(slab.free))
    {
      aborted := true;
      if complete {
        Close();
      }
    }

    method FlushAndClose()
      requires Valid() && alive
      modifies this, slab`free
      ensures Valid() && Model() == Spec.FlushAndClose(old(Model())).s
      ensures slab.free == Spec.Release(old(slab.free), Spec.FlushAndClose(old(Model())).freed) && FreesOwn()
      ensures !alive && waiting == old(waiting) && complete == old(complete) && aborted == old(aborted)
      ensures var flushed := Spec.Release(old(slab.free), old(queue));
              slab.free == (if old(current).Some? then [old(current).value] else []) + flushed
    {
      hide Spec.Release;
      SlotsAreBlocks();
      Spec.FreedWereHeld(Model(), 0);
      Spec.ReleaseMembers(slab.free, Spec.FlushAndClose(Model()).freed);
      FlushBlockQueue();
      Close();
      Spec.ReleaseConcat(old(slab.free), Spec.Slots(old(Model()).q), Spec.Close(old(Model())).freed);
      assert Spec.Slots(old(Model()).q) == old(queue);
    }

    /** A block from the cloud. `kick` asks for the data-available callback, the last thing done. */
    method BlockCb(data: seq<byte>, last: bool) returns (status: Spec.Status, kick: bool)
      requires Valid() && alive && |data| <= slab.b
      modifies this, slab`free, slab.cells
      ensures Valid()
      ensures var slot := if old(slab.free) == [] then None else Some(old(slab.free)[0]);
              var fed := Spec.BlockCb(old(Model()), data, last, slot);
              && Model() == fed.s && status == fed.status && kick == fed.kick
              && slab.free == (if status == Spec.Accepted then old(slab.free)[1..]
                               else Spec.Release(old(slab.free), fed.freed))
      ensures status == Spec.Nack <==> old(aborted)
      ensures status == Spec.MemAlloc <==> !old(aborted) && old(slab.free) == []
      ensures status == Spec.Accepted <==> !old(aborted) && old(slab.free) != []
      ensures kick <==> status == Spec.Accepted && old(current).None? && old(waiting)
      ensures alive <==> status == Spec.Accepted
      ensures waiting == (old(waiting) && !kick) && complete == old(complete) && aborted == old(aborted)
      ensures forall s :: 0 <= s < slab.cells.Length && s !in old(slab.free) ==> slab.cells[s] == old(slab.cells[s])
      ensures FreesOwn()
    {
      kick := false;
      if aborted {
        FlushAndClose();
        return Spec.Nack, false;
      }
      var block := TakeSlot();
      hide Chunks, Spec.FlushAndClose;
      if block.None? {
        FlushAndClose();
        return Spec.MemAlloc, false;
      }
      Enqueue(block.value, data, last);
      if current.None? && waiting {
        waiting := false;
        kick := true;
      }
      status := Spec.Accepted;
    }

    /** An allocation as the downlink sees it: nothing it holds changes. */
    method TakeSlot() returns (slot: Option<nat>)
      requires Valid()
      modifies slab`free, slab.cells
      ensures Valid() && Model() == old(Model())
      ensures slot == if old(slab.free) == [] then None else Some(old(slab.free)[0])
      ensures slab.free == if slot.None? then old(slab.free) else old(slab.free)[1..]
      ensures slot.Some? ==>
        && slot.value < slab.cells.Length && slot.value !in slab.free && slot.value !in Blocks()
        && slab.cells[slot.value].len == 0 && !slab.cells[slot.value].last
      ensures forall s :: 0 <= s < slab.cells.Length && slot != Some(s) ==> slab.cells[s] == old(slab.cells[s])
    {
      slot := slab.BlockAlloc();
      ChunksKept(old(slab.cells[..]), slab.cells[..], queue);
    }

    /** Fills a block just allocated and puts it in the queue. */
    method Enqueue(block: nat, data: seq<byte>, last: bool)
      requires Valid() && alive && |data| <= slab.b
      requires block < slab.cells.Length && block !in slab.free && block !in Blocks()
      requires slab.cells[block].len == 0 && !slab.cells[block].last
      modifies this`queue, slab.cells
      ensures Valid()
      ensures Model() == old(Model()).(q := old(Model()).q + [Spec.Chunk(block, data, last)])
      ensures forall s :: 0 <= s < slab.cells.Length && s != block ==> slab.cells[s] == old(slab.cells[s])
    {
      hide Chunks;
      slab.BlockAppend(block, data);
      if last {
        slab.BlockMarkLast(block);
      }
      ChunksKept(old(slab.cells[..]), slab.cells[..], queue);
      assert Used(slab.cells[block]) == data && slab.cells[block].last == last;
      ChunksSnoc(slab.cells[..], queue, block);
      queue := queue + [block];
    }

    /** k_fifo_get into the current block. */
    method NextBlock()
      requires Valid() && alive && current.None?
      modifies this`queue, this`current
      ensures Valid() && Spec.Held(Model()) == Spec.Held(old(Model()))
      ensures Model() == Spec.Hold(old(Model()), Spec.Held(old(Model())))
      ensures current.None? <==> old(queue) == []
      ensures Blocks() == old(queue) && (current.None? ==> Spec.Held(Model()) == [])
    {
      if queue != [] {
        ChunksTail(slab.cells[..], queue);
        assert slab.cells[queue[0]].data[0..slab.cells[queue[0]].len] == Used(slab.cells[queue[0]]);
        current, queue := Some(queue[0]), queue[1..];
      }
    }

    /** Gives back the current block, delivered to its end, and goes on to the next. */
    method FinishBlock()
      requires Valid() && alive && current.Some?
      modifies this`queue, this`current, this`offset, slab`free
      ensures Valid()
      ensures Model() == Spec.Hold(old(Model()), old(Model()).q)
      ensures slab.free == [old(current.value)] + old(slab.free)
      ensures Blocks() == old(queue) && Spec.Held(Model()) == old(Model()).q
    {
      hide Chunks, Spec.Hold, Spec.Held;
      ghost var m := Model();
      slab.BlockFree(current.value);
      offset := 0;
      current := None;
      assert Model() == m.(cur := None);
      Spec.WithoutCurrent(m);
      NextBlock();
    }

    /** Copies what fits of the current block to position `at` of `dst`. */
    method CopyOut(dst: array<byte>, at: nat, left: nat) returns (n: nat)
      requires Valid() && alive && current.Some? && at + left <= dst.Length
      modifies this`offset, dst
      ensures Valid() && n == Spec.Min(left, |old(Current()).value.bytes|)
      ensures Model() == old(Model()).(cur := Some(old(Current()).value.(bytes := old(Current()).value.bytes[n..])))
      ensures dst[..at + n] == old(dst[..at]) + old(Current()).value.bytes[..n]
      ensures forall i :: at + n <= i < dst.Length ==> dst[i] == old(dst[i])
    {
      var len := slab.cells[current.value].len;
      n := if left < len - offset then left else len - offset;
      var err := slab.BlockGet(current.value, offset, dst, at, n);
      assert err == 0;
      assert dst[..at + n] == dst[..at] + dst[at..at + n];
      offset := offset + n;
    }

    /** What is left of a drain when the current block was the last one, or else. */
    ghost function Remaining(left: nat, isLast: bool): Spec.Taken
      requires Valid()
      reads this, slab, slab.cells
    {
      if isLast then Spec.Taken([], Spec.Held(Model()), true, []) else Spec.Take(Spec.Held(Model()), left)
    }

    /** One turn of the loop with a current block, inside the drain `whole`. */
    method Deliver(dst: array<byte>, at: nat, left: nat, ghost whole: Spec.Taken, ghost free0: seq<nat>)
        returns (n: nat, isLast: bool)
      requires Valid() && alive && current.Some? && at + left <= dst.Length && left > 0
      requires Spec.Resumes(dst[..at], slab.free, whole, Remaining(left, false), free0)
      modifies this`queue, this`current, this`offset, slab`free, dst
      ensures Valid() && n <= left
      ensures Model() == Spec.Hold(old(Model()), Spec.Held(Model()))
      ensures n == left || isLast || |Blocks()| < |old(Blocks())|
      ensures Spec.Resumes(dst[..at + n], slab.free, whole, Remaining(left - n, isLast), free0)
      ensures forall i :: at + n <= i < dst.Length ==> dst[i] == old(dst[i])
    {
      hide Chunks, Spec.Take, Spec.Release;
      ghost var c, part := Current().value, Remaining(left, false);
      Spec.TakeStep(Spec.Held(Model()), left, slab.free);
      assert Spec.Held(Model())[0] == c && Spec.Held(Model())[1..] == Model().q;
      n := CopyOut(dst, at, left);
      assert Current().value.bytes == c.bytes[n..] && |c.bytes[n..]| == slab.cells[current.value].len - offset;
      isLast := false;
      if slab.cells[current.value].len == offset {
        isLast := slab.cells[current.value].last;
        FinishBlock();
      } else {
        assert Spec.Held(Model()) == [c.(bytes := c.bytes[n..])] + old(Model()).q;
      }
      Spec.ResumesThen(old(dst[..at]), c.bytes[..n], slab.free, old(slab.free), free0,
                       whole, part, Remaining(left - n, isLast));
    }

    /**
     * The draining loop. At each turn the drain still to do completes what was copied to the
     * drain of everything held at the call. `dry` is an empty queue with room left.
     */
    method Drain(dst: array<byte>, dstLen: nat) returns (total: nat, isLast: bool, dry: bool)
      requires Valid() && alive && 0 < dstLen <= dst.Length
      modifies this`queue, this`current, this`offset, slab`free, dst
      ensures Valid() && total <= dstLen
      ensures var t := Spec.Take(Spec.Held(old(Model())), dstLen);
              && Model() == Spec.Hold(old(Model()), t.rest)
              && isLast == t.last && dst[..total] == t.bytes
              && slab.free == Spec.Release(old(slab.free), t.freed)
      ensures forall i :: total <= i < dst.Length ==> dst[i] == old(dst[i])
      ensures dry <==> !isLast && total < dstLen
    {
      hide Chunks, Spec.Take, Spec.Release, Spec.Resumes, Spec.Hold, Spec.Held;
      ghost var start, whole := Model(), Remaining(dstLen, false);
      total, isLast, dry := 0, false, false;
      ghost var turned := false;
      Spec.ResumesAtOnce(whole, slab.free);
      assert dst[..0] == [];
      while total < dstLen && !isLast
        invariant Valid() && total <= dstLen && alive
        invariant if turned then Model() == Spec.Hold(start, Spec.Held(Model()))
                  else Model() == start && total == 0 && !isLast
        invariant Spec.Resumes(dst[..total], slab.free, whole, Remaining(dstLen - total, isLast), old(slab.free))
        invariant forall i :: total <= i < dst.Length ==> dst[i] == old(dst[i])
        decreases dstLen - total, !isLast, |Blocks()|
      {
        Spec.HoldHeld(start, Spec.Held(Model()));
        if current.None? {
          NextBlock();
          turned := true;
          if current.None? {
            dry := true;
            break;
          }
        }
        var n;
        n, isLast := Deliver(dst, total, dstLen - total, whole, old(slab.free));
        total, turned := total + n, true;
      }
      Spec.DrainDone(dst[..total], slab.free, whole, Spec.Held(Model()), dstLen - total, isLast, old(slab.free));
    }

    /** Fills `dst` up to `dstLen` bytes; `n` is the new *dst_len. */
    method GetData(dst: array<byte>, dstLen: nat) returns (code: Spec.Code, n: nat, isLast: bool)
      requires Valid() && alive && dstLen <= dst.Length
      modifies this, slab`free, dst
      ensures Valid()
      ensures var got := Spec.GetData(old(Model()), dstLen);
              && Model() == got.s && code == got.code && isLast == got.last
              && slab.free == Spec.Release(old(slab.free), got.freed) && FreesOwn()
              && n == (if code == Spec.NoData then dstLen else |got.bytes|)
              && (code != Spec.NoData ==> n <= dstLen && dst[..n] == got.bytes)
      ensures code == Spec.NoData <==> old(complete)
      ensures code == Spec.Again <==>
              !old(complete) && !old(aborted) && !Spec.HasLast(Spec.Held(old(Model()))) &&
              |Spec.Bytes(Spec.Held(old(Model())))| < dstLen
      ensures waiting == (old(waiting) || (code == Spec.Again && n == 0)) && aborted == old(aborted) && alive
      ensures old(complete) || dstLen == 0 ==> Model() == old(Model())
      ensures forall i :: (if code == Spec.NoData then 0 else n) <= i < dst.Length ==> dst[i] == old(dst[i])
    {
      Spec.CodeExactly(Model(), dstLen);
      if complete {
        return Spec.NoData, dstLen, false;
      }
      if dstLen == 0 {
        return Spec.Ok, 0, false;
      }
      hide Chunks, Spec.Take, Spec.Release, Spec.Hold, Spec.Held, Spec.Settle;
      ghost var t := Spec.Take(Spec.Held(Model()), dstLen);
      SlotsAreBlocks();
      Spec.FreedWereHeld(Model(), dstLen);
      Spec.ReleaseMembers(slab.free, Spec.GetData(Model(), dstLen).freed);
      var dry;
      n, isLast, dry := Drain(dst, dstLen);
      code, isLast := Settle(n, isLast, dry, t, dstLen);
    }

    method Settle(n: nat, drained: bool, dry: bool, ghost t: Spec.Taken, ghost cap: nat)
        returns (code: Spec.Code, isLast: bool)
      requires Valid() && !complete && n == |t.bytes| <= cap && drained == t.last && (dry <==> !drained && n < cap)
      modifies this`waiting, this`complete
      ensures Valid()
      ensures var got := Spec.Settle(old(Model()), t, cap);
              Model() == got.s && code == got.code && isLast == got.last
    {
      hide Chunks;
      code, isLast := Spec.Ok, drained;
      if dry {
        if aborted {
          isLast := true;
        } else {
          waiting := waiting || n == 0;
          code := Spec.Again;
        }
      }
      complete := isLast;
    }
  }
}
