/** The uplink object of lib/uplink.c: fragments in, fixed-size blocks out, one at a time. */
module Uplink {
  import opened Base
  import Spec = UplinkSpec

  class Block {
    const data: array<byte>
    var len: nat

    constructor (b: pos)
      ensures data.Length == b && len == 0 && fresh(data)
    {
      data := new byte[b];
      len := 0;
    }
  }

  /**
   * Only the write block is ever changed, in place; blocks in the queue and in flight are
   * read-only, so those two fields hold their bytes. `blocks` counts malloc minus free.
   */
  class Uplink {
    const b: pos
    var alive: bool
    var closed: bool
    var sending: bool
    var blockIdx: nat
    var wblock: Block?
    var rblock: Option<seq<byte>>
    var queue: seq<seq<byte>>
    ghost var blocks: nat
    /** The blocks the cloud client accepted and the calls of the end callback. */
    ghost var sent: seq<Spec.Frame>
    ghost var ends: seq<Spec.Outcome>

    ghost predicate Valid()
      reads this, Buffer()
    {
      && (wblock != null ==> wblock.data.Length == b && wblock.len <= b)
      && (!sending ==> rblock == None)
      && blocks == |queue| + (if wblock == null then 0 else 1) + (if rblock.None? then 0 else 1)
      && (!alive ==> blocks == 0)
    }

    ghost function Buffer(): set<object>
      reads this
    {
      if wblock == null then {} else {wblock, wblock.data}
    }

    /** The contents of the write block. */
    ghost function W(): Option<seq<byte>>
      reads this, Buffer()
      requires Valid()
    {
      if wblock == null then None else Some(wblock.data[..wblock.len])
    }

    ghost function Model(): (s: Spec.State)
      reads this, Buffer()
      requires Valid()
      ensures s.alive == alive && s.closed == closed && s.ends == ends
      ensures s.w == W() && s.q == queue && s.sending == sending && s.r == rblock && Spec.Fits(s.w, b)
    {
      Spec.State(alive, closed, sending, blockIdx, W(), rblock, queue, sent, ends)
    }

    constructor (b: pos)
      ensures Valid() && alive && this.b == b && Model() == Spec.Opened()
      ensures fresh(Buffer())
    {
      this.b := b;
      alive, closed, sending, blockIdx := true, false, false, 0;
      wblock := new Block(b);
      rblock, queue, blocks, sent, ends := None, [], 1, [], [];
    }

    /** Opening fails when an allocation or the start of the cloud session does. */
    static method Open(b: pos, uplinkMalloc: bool, blockMalloc: bool, sessionOk: bool) returns (uplink: Uplink?)
      ensures uplink == null <==> !(uplinkMalloc && blockMalloc && sessionOk)
      ensures uplink != null ==> fresh(uplink) && fresh(uplink.Buffer()) && uplink.b == b
      ensures uplink != null ==> uplink.Valid() && uplink.Model() == Spec.Opened()
    {
      if !uplinkMalloc || !blockMalloc || !sessionOk {
        return null;
      }
      uplink := new Uplink(b);
    }

    method CleanupUplink(ghost outcome: Spec.Outcome)
      requires Valid() && alive
      modifies this
      ensures Valid() && !alive && Buffer() == {}
      ensures Model() == Spec.Ended(old(Model()), outcome)
    {
      while queue != []
        invariant Valid() && alive && rblock == old(rblock) && wblock == old(wblock) && ends == old(ends)
        invariant sending == old(sending) && closed == old(closed) && blockIdx == old(blockIdx) && sent == old(sent)
        decreases |queue|
      {
        queue := queue[1..];
        blocks := blocks - 1;
      }
      blocks := blocks - (if wblock == null then 0 else 1) - (if rblock.None? then 0 else 1);
      wblock, rblock, alive := null, None, false;
      ends := ends + [outcome];
    }

    /** Releases the block in flight and leaves the uplink idle. */
    method DropBlock()
      requires Valid() && alive && rblock.Some?
      modifies this`rblock, this`blocks, this`sending
      ensures Valid() && !sending && rblock == None
    {
      rblock, blocks := None, blocks - 1;
      sending := false;
    }

    method ProcessUplink(sendOk: bool) returns (ended: Option<Spec.Outcome>)
      requires Valid() && alive
      modifies this
      ensures Valid() && Model() == Spec.Process(old(Model()), sendOk)
      ensures ended.None? <==> alive
      ensures ended.Some? ==> ends == old(ends) + [ended.value]
      ensures Buffer() <= old(Buffer())
    {
      ended := None;
      if sending {
        return;
      }
      sending := true;
      if queue == [] {
        if closed {
          CleanupUplink(Spec.Success);
          return Some(Spec.Success);
        }
        sending := false;
        return;
      }
      rblock, queue := Some(queue[0]), queue[1..];
      if |rblock.value| == 0 {
        DropBlock();
        return;
      }
      ghost var frame := Spec.Frame(blockIdx, rblock.value, queue == [] && closed);
      blockIdx := (blockIdx + 1) % Spec.INDEX_MODULUS;
      if sendOk {
        sent := sent + [frame];
      } else {
        CleanupUplink(Spec.ErrorLocal);
        ended := Some(Spec.ErrorLocal);
      }
    }

    method SubmitBlock()
      requires Valid() && alive && wblock != null
      modifies this`wblock, this`queue
      ensures Valid() && Model() == Spec.Submit(old(Model()))
      ensures wblock == null
    {
      queue := queue + [wblock.data[..wblock.len]];
      wblock := null;
    }

    /**
     * Hands a full write block over and gets a new one when there is none. With no allocation
     * left, packing `rest` ends here.
     */
    method EnsureRoom(mallocs: nat, ghost rest: seq<byte>) returns (ok: bool, left: nat)
      requires Valid() && alive && rest != []
      modifies this`wblock, this`queue, this`blocks
      ensures Valid() && Spec.Fits(old(W()), b) && Spec.Fits(W(), b)
      ensures if ok then wblock != null && wblock.len < b else wblock == null
      ensures fresh(Buffer() - old(Buffer()))
      ensures Spec.Fill(old(queue), old(W()), rest, mallocs, b)
           == if ok then Spec.Fill(queue, W(), rest, left, b) else Spec.Filled(queue, None, 0, false)
    {
      left := mallocs;
      if wblock != null && wblock.len == b {
        Spec.FillSubmit(queue, W().value, rest, left, b);
        SubmitBlock();
      }
      ok := true;
      if wblock == null {
        if left == 0 {
          assert queue + Split([] + rest, b)[..0] == queue;
          return false, left;
        }
        Spec.FillAlloc(queue, rest, left, b);
        wblock := new Block(b);
        blocks := blocks + 1;
        left := left - 1;
        assert W() == Some([]);
      }
    }

    /** memcpy of as much of `rest` as fits behind the bytes already in the write block. */
    method CopyIntoWriteBlock(rest: seq<byte>, ghost left: nat) returns (n: nat)
      requires Valid() && alive && wblock != null && wblock.len < b && rest != []
      modifies wblock, wblock.data
      ensures Valid() && Spec.Fits(old(W()), b) && Spec.Fits(W(), b) && 0 < n <= |rest|
      ensures Spec.Resumes(Spec.Fill(queue, old(W()), rest, left, b), Spec.Fill(queue, W(), rest[n..], left, b), n)
    {
      n := if |rest| < b - wblock.len then |rest| else b - wblock.len;
      Spec.FillCopy(queue, W().value, rest, n, left, b);
      forall j | 0 <= j < n {
        wblock.data[wblock.len + j] := rest[j];
      }
      wblock.len := wblock.len + n;
      assert wblock.data[..wblock.len] == old(wblock.data[..wblock.len]) + rest[..n];
    }

    /** The packing loop; `ok` is false when an allocation failed. */
    method Pack(payload: seq<byte>, mallocs: nat) returns (ok: bool)
      requires Valid() && alive
      modifies this`wblock, this`queue, this`blocks, Buffer()
      ensures Valid() && Spec.Fits(old(W()), b)
      ensures fresh(Buffer() - old(Buffer()))
      ensures var f := Spec.Fill(old(queue), old(W()), payload, mallocs, b);
              ok == f.ok && queue == f.q && W() == f.w
    {
      hide Spec.Fill;
      var rest, left := payload, mallocs;
      ghost var whole := Spec.Fill(queue, W(), payload, mallocs, b);
      while rest != []
        invariant Valid() && |rest| <= |payload|
        invariant Spec.Resumes(whole, Spec.Fill(queue, W(), rest, left, b), |payload| - |rest|)
        invariant fresh(Buffer() - old(Buffer()))
        decreases |rest|
      {
        ok, left := EnsureRoom(left, rest);
        if !ok {
          return;
        }
        var n := CopyIntoWriteBlock(rest, left);
        rest := rest[n..];
      }
      Spec.FillNothing(queue, W(), left, b);
      ok := true;
    }

    /**
     * Writes a fragment. `mallocs` is how many allocations succeed before one fails; `ok` is
     * false for -ENOMEM.
     */
    method Write(payload: seq<byte>, last: bool, mallocs: nat, sendOk: bool)
        returns (ok: bool, ended: Option<Spec.Outcome>)
      requires Valid() && alive
      modifies this, Buffer()
      ensures Valid() && Spec.Fits(old(W()), b)
      ensures Model() == Spec.Write(old(Model()), payload, last, mallocs, sendOk, b)
      ensures ok == Spec.Fill(old(queue), old(W()), payload, mallocs, b).ok
      ensures ended.None? <==> alive
      ensures ended.Some? ==> ends == old(ends) + [ended.value]
      ensures fresh(Buffer() - old(Buffer()))
    {
      hide Spec.Fill, Spec.Process, Spec.Close;
      ended := None;
      ok := Pack(payload, mallocs);
      if ok {
        if last {
          ended := Close(sendOk);
        } else {
          ended := ProcessUplink(sendOk);
        }
      }
    }

    method Close(sendOk: bool) returns (ended: Option<Spec.Outcome>)
      requires Valid() && alive
      modifies this
      ensures Valid() && Model() == Spec.Close(old(Model()), sendOk)
      ensures ended.None? <==> alive
      ensures ended.Some? ==> ends == old(ends) + [ended.value]
      ensures Buffer() <= old(Buffer())
      ensures old(closed) && old(sending) ==> Model() == old(Model())
    {
      if !closed && wblock != null {
        SubmitBlock();
      }
      closed := true;
      ended := ProcessUplink(sendOk);
    }

    /** The cloud client's report on the block in flight. */
    method BlockUploadCallback(ok: bool, sendOk: bool) returns (ended: Option<Spec.Outcome>)
      requires Valid() && alive && (sending ==> rblock.Some?)
      modifies this
      ensures Valid() && Model() == Spec.Uploaded(old(Model()), ok, sendOk)
      ensures ended.None? <==> alive
      ensures ended.Some? ==> ends == old(ends) + [ended.value]
      ensures Buffer() <= old(Buffer())
      ensures !old(sending) ==> Model() == old(Model())
    {
      ended := None;
      if !sending {
        return;
      }
      DropBlock();
      if !ok {
        CleanupUplink(Spec.ErrorCloud);
        return Some(Spec.ErrorCloud);
      }
      ended := ProcessUplink(sendOk);
    }
  }
}
