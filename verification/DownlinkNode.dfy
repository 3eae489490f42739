/** The node's side of a downlink, lib/bt/downlink.c: callbacks that keep one GATT write going. */
module DownlinkNode {
  import opened Base
  import Spec = DownlinkSpec
  import opened PumpSpec
  import D = Downlink
  import opened Slab

  class DownlinkNode {
    const ctx: D.Downlink
    /** downlink_scratch, with room for a packet's payload at the MTU of the start. */
    const scratch: array<byte>
    var finished: nat
    /** The downlink was about to be used after it was freed. */
    var fault: bool
    /** What the connection and the cloud have seen. */
    ghost var outstanding: nat
    ghost var packets: seq<Packet>
    ghost var received: seq<byte>
    ghost var sealed: bool
    ghost var ended: bool
    /** Blocks of the slab taken for the downlink and given back. */
    ghost var taken: seq<nat>
    ghost var given: seq<nat>

    ghost predicate Valid()
      reads this, ctx, ctx.slab, ctx.slab.cells
    {
      ctx.Valid()
    }

    /** A packet of the connection as it is now fits the scratch buffer: its MTU has not grown. */
    predicate Fits(link: Link) {
      link.mtu >= ATT_OVERHEAD ==> link.cap <= scratch.Length
    }

    ghost function Model(): Pump
      requires Valid()
      reads this, ctx, ctx.slab, ctx.slab.cells
    {
      Pump(ctx.Model(), outstanding, packets, finished, fault, received, sealed, ended, taken, given)
    }

    constructor (link: Link, ctx: D.Downlink)
      requires ctx.Valid() && ctx.Model() == Spec.Opened()
      ensures Valid() && this.ctx == ctx && fresh(scratch) && scratch.Length == link.cap && Model() == Begin()
    {
      this.ctx := ctx;
      scratch := new byte[link.cap];
      finished, fault, outstanding, packets, received, sealed, ended := 0, false, 0, [], [], false, false;
      taken, given := [], [];
    }

    /**
     * pouch_gateway_downlink_start: no downlink without a handle, with an MTU that leaves no room
     * for a payload, or when one of the two allocations fails.
     */
    static method Start(link: Link, slab: Slab, handle: nat, scratchMalloc: bool, ctxMalloc: bool)
        returns (node: DownlinkNode?)
      requires slab.Valid()
      ensures node == null <==> handle == 0 || link.mtu < ATT_OVERHEAD || !scratchMalloc || !ctxMalloc
      ensures node != null ==> fresh(node) && fresh(node.ctx) && node.ctx.slab == slab
      ensures node != null ==> node.Valid() && node.Fits(link) && node.Model() == Begin()
    {
      node := null;
      if handle == 0 || link.mtu < ATT_OVERHEAD || !scratchMalloc {
        return;
      }
      var ctx := D.Downlink.Open(slab, ctxMalloc);
      if ctx != null {
        node := new DownlinkNode(link, ctx);
      }
    }

    /**
     * The packetizer asks the fill callback for one packet; EMPTY_PAYLOAD is a packet without
     * bytes that is not the last. `gattOk` is whether the stack takes the write.
     */
    method WriteDownlinkCharacteristic(link: Link, gattOk: bool) returns (r: Result)
      requires Valid() && ctx.alive && Fits(link)
      modifies this`outstanding, this`packets, this`given, ctx, ctx.slab`free, scratch
      ensures Valid()
      ensures var t := WriteCharacteristic(old(Model()), link, gattOk); Model() == t.p && r == t.result
    {
      hide D.Downlink.Valid, D.Downlink.Model, Spec.GetData;
      if link.mtu < ATT_OVERHEAD {
        return Failed;
      }
      given := given + Spec.GetData(ctx.Model(), link.cap).freed;
      var code, len, last := ctx.GetData(scratch, link.cap);
      if code == Spec.NoData {
        return Failed;
      }
      if len == 0 && !last {
        return Empty;
      }
      if !gattOk {
        return Failed;
      }
      outstanding, packets := outstanding + 1, packets + [Packet(scratch[..len], last)];
      r := Sent;
    }

    method AbortAndFinish()
      requires Valid() && ctx.alive
      modifies this`finished, this`given, ctx, ctx.slab`free
      ensures Valid() && Model() == GiveUp(old(Model()))
    {
      hide D.Downlink.Valid, D.Downlink.Model, Spec.Abort;
      given := given + Spec.Abort(ctx.Model()).freed;
      ctx.Abort();
      finished := finished + 1;
    }

    method DownlinkDataAvailable(link: Link, gattOk: bool)
      requires Valid() && ctx.alive && Fits(link)
      modifies this`outstanding, this`packets, this`given, this`finished, ctx, ctx.slab`free, scratch
      ensures Valid() && Model() == DataAvailable(old(Model()), link, gattOk)
    {
      hide D.Downlink.Valid, D.Downlink.Model, WriteCharacteristic, GiveUp;
      StaysAlive(Model(), link, gattOk);
      var r := WriteDownlinkCharacteristic(link, gattOk);
      if r != Sent {
        AbortAndFinish();
      }
    }

    method WriteResponseCb(link: Link, err: bool, gattOk: bool)
      requires Valid() && !fault && outstanding > 0 && Fits(link)
      modifies this`outstanding, this`packets, this`given, this`finished, this`fault, ctx, ctx.slab`free, scratch
      ensures Valid() && Model() == Step(old(Model()), Response(err, gattOk), link)
    {
      hide D.Downlink.Valid, D.Downlink.Model, WriteCharacteristic, GiveUp, Spec.Close;
      outstanding := outstanding - 1;
      if !ctx.alive {
        fault := true;
        return;
      }
      StaysAlive(Model(), link, gattOk);
      if err {
        AbortAndFinish();
      } else if ctx.complete {
        given := given + Spec.Close(ctx.Model()).freed;
        ctx.Close();
        finished := finished + 1;
      } else {
        var r := WriteDownlinkCharacteristic(link, gattOk);
        if r == Failed {
          AbortAndFinish();
        }
      }
    }

    /** pouch_gateway_downlink_block_cb, which may call back. */
    method CloudBlock(link: Link, data: seq<byte>, last: bool, gattOk: bool) returns (status: Spec.Status)
      requires Valid() && !fault && |data| <= ctx.slab.b && Fits(link)
      modifies this, ctx, ctx.slab`free, ctx.slab.cells, scratch
      ensures Valid()
      ensures var slot := if old(ctx.slab.free) == [] then None else Some(old(ctx.slab.free)[0]);
              Model() == Step(old(Model()), Block(data, last, slot, gattOk), link)
      ensures old(ctx.alive) ==>
                && (status == Spec.Nack <==> old(ctx.aborted))
                && (status == Spec.MemAlloc <==> !old(ctx.aborted) && old(ctx.slab.free) == [])
      ensures fault <==> !old(ctx.alive)
    {
      hide D.Downlink.Valid, D.Downlink.Model, DataAvailable, Spec.BlockCb;
      status := Spec.Nack;
      if !ctx.alive {
        fault := true;
        return;
      }
      ghost var slot := if ctx.slab.free == [] then None else Some(ctx.slab.free[0]);
      ghost var fed := Feed(Model(), data, last, slot);
      KickedIsAlive(ctx.Model(), data, last, slot);
      received, sealed, taken, given := fed.received, fed.sealed, fed.taken, fed.given;
      var kick;
      status, kick := ctx.BlockCb(data, last);
      assert Model() == fed;
      if kick {
        DownlinkDataAvailable(link, gattOk);
      }
    }

    /** pouch_gateway_downlink_end_cb. */
    method CloudEnd(link: Link, ok: bool, gattOk: bool)
      requires Valid() && !fault && Fits(link)
      modifies this, ctx, ctx.slab`free, scratch
      ensures Valid() && Model() == Step(old(Model()), End(ok, gattOk), link)
    {
      hide D.Downlink.Valid, D.Downlink.Model, DataAvailable, Spec.Abort;
      ended := true;
      if !ok {
        if !ctx.alive {
          fault := true;
          return;
        }
        given := given + Spec.Abort(ctx.Model()).freed;
        ctx.Abort();
        if !ctx.alive {
          fault := true;
        } else if ctx.current.None? {
          DownlinkDataAvailable(link, gattOk);
        }
      }
    }
  }

  lemma StaysAlive(p: Pump, link: Link, gattOk: bool)
    ensures WriteCharacteristic(p, link, gattOk).p.d.alive == p.d.alive
  {
    WriteOutcome(p, link, gattOk);
  }

  lemma KickedIsAlive(s: Spec.State, data: seq<byte>, last: bool, slot: Option<nat>)
    requires s.alive
    ensures var fed := Spec.BlockCb(s, data, last, slot); fed.kick || fed.status == Spec.Accepted ==> fed.s.alive
    ensures var fed := Spec.BlockCb(s, data, last, slot); fed.kick ==> fed.status == Spec.Accepted
    ensures Spec.BlockCb(s, data, last, slot).status == Spec.Accepted ==> slot.Some?
  {}
}
