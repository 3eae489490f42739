/**
 * The pump of lib/bt/downlink.c on values: cloud blocks and GATT write responses drive the
 * downlink's bytes into characteristic writes. The packetizer calls the fill callback once per
 * packet with room for at least one byte and passes the bytes on.
 */
module PumpSpec {
  import opened Base
  import opened DownlinkSpec

  /**
   * The connection's MTU and the payload bytes a packet has room for. Every write reads the MTU
   * again; it is 0 when the connection is gone.
   */
  datatype Link = Link(mtu: nat, cap: pos)

  /** The payload of one characteristic write, and whether the packetizer was told it is the last. */
  datatype Packet = Packet(bytes: seq<byte>, last: bool)

  /**
   * A node's downlink with what has happened to it: writes without a response yet, packets
   * written, calls of pouch_gateway_bt_finished, use of a freed downlink, the bytes the cloud
   * delivered, whether the last block was among them and whether the cloud session has ended, and
   * the slab blocks that were taken for it and given back.
   */
  datatype Pump = Pump(
    d: State, outstanding: nat, packets: seq<Packet>, finished: nat, fault: bool,
    received: seq<byte>, sealed: bool, ended: bool, taken: seq<nat>, given: seq<nat>)

  function Begin(): Pump {
    Pump(Opened(), 0, [], 0, false, [], false, false, [], [])
  }

  datatype Event =
    /** A block from the cloud, the slot the slab has for it, and whether a GATT write would be accepted. */
    | Block(data: seq<byte>, last: bool, slot: Option<nat>, gattOk: bool)
    /** The response to a GATT write. */
    | Response(err: bool, gattOk: bool)
    /** The cloud session ends. */
    | End(ok: bool, gattOk: bool)

  /** The results 0, -ENODATA, and any other error. */
  datatype Result = Sent | Empty | Failed

  datatype Tried = Tried(p: Pump, result: Result)

  function WriteCharacteristic(p: Pump, link: Link, gattOk: bool): Tried {
    if link.mtu < ATT_OVERHEAD then Tried(p, Failed)
    else
      var got := GetData(p.d, link.cap);
      var p' := p.(d := got.s, given := p.given + got.freed);
      if got.code == NoData then Tried(p', Failed)
      else if !got.last && got.bytes == [] then Tried(p', Empty)
      else if !gattOk then Tried(p', Failed)
      else Tried(p'.(outstanding := p.outstanding + 1, packets := p.packets + [Packet(got.bytes, got.last)]), Sent)
  }

  function Put(p: Pump, left: Left): Pump {
    p.(d := left.s, given := p.given + left.freed)
  }

  function GiveUp(p: Pump): Pump {
    Put(p, Abort(p.d)).(finished := p.finished + 1)
  }

  function DataAvailable(p: Pump, link: Link, gattOk: bool): Pump {
    var t := WriteCharacteristic(p, link, gattOk);
    if t.result == Sent then t.p else GiveUp(t.p)
  }

  function WriteResponse(p: Pump, link: Link, err: bool, gattOk: bool): Pump {
    if err then GiveUp(p)
    else if p.d.complete then Put(p, Close(p.d)).(finished := p.finished + 1)
    else
      var t := WriteCharacteristic(p, link, gattOk);
      if t.result == Failed then GiveUp(t.p) else t.p
  }

  /** What the downlink makes of a block, before it calls back. */
  function Feed(p: Pump, data: seq<byte>, last: bool, slot: Option<nat>): Pump {
    var fed := BlockCb(p.d, data, last, slot);
    if fed.status == Accepted then
      p.(d := fed.s, received := p.received + data, sealed := p.sealed || last, taken := p.taken + [slot.value])
    else p.(d := fed.s, given := p.given + fed.freed)
  }

  function CloudBlock(p: Pump, link: Link, data: seq<byte>, last: bool, slot: Option<nat>, gattOk: bool): Pump {
    var p' := Feed(p, data, last, slot);
    if BlockCb(p.d, data, last, slot).kick then DataAvailable(p', link, gattOk) else p'
  }

  /** The end callback looks at the downlink again after the abort, which may have freed it. */
  function CloudEnd(p: Pump, link: Link, ok: bool, gattOk: bool): Pump {
    if ok then p
    else
      var p' := Put(p, Abort(p.d));
      if !p'.d.alive then p'.(fault := true)
      else if p'.d.cur == None then DataAvailable(p', link, gattOk)
      else p'
  }

  /** A freed downlink must see no further callback but the regular end, which does not look at it. */
  function Step(p: Pump, e: Event, link: Link): Pump {
    if p.fault then p
    else
      match e
      case Block(data, last, slot, gattOk) =>
        if p.d.alive then CloudBlock(p, link, data, last, slot, gattOk) else p.(fault := true)
      case Response(err, gattOk) =>
        if p.outstanding == 0 then p
        else
          var p' := p.(outstanding := p.outstanding - 1);
          if p.d.alive then WriteResponse(p', link, err, gattOk) else p'.(fault := true)
      case End(ok, gattOk) =>
        var p' := p.(ended := true);
        if p.d.alive then CloudEnd(p', link, ok, gattOk) else p'.(fault := !ok)
  }

  /** The states `ps` a pump goes through under the events `es`, each with the connection as it is then. */
  predicate Steps(ps: seq<Pump>, es: seq<Event>, ls: seq<Link>) {
    |ps| == |es| + 1 && |ls| == |es| && forall i :: 0 <= i < |es| ==> ps[i + 1] == Step(ps[i], es[i], ls[i])
  }

  lemma StepsLengths(ps: seq<Pump>, es: seq<Event>, ls: seq<Link>)
    requires Steps(ps, es, ls)
    ensures |ps| == |es| + 1 && |ls| == |es|
  {}

  lemma StepAt(ps: seq<Pump>, es: seq<Event>, ls: seq<Link>, i: nat)
    requires Steps(ps, es, ls) && i < |es|
    ensures |ps| == |es| + 1 && |ls| == |es| && ps[i + 1] == Step(ps[i], es[i], ls[i])
  {}

  // ----- A write attempt in terms of the state before it

  /** The downlink has a packet, empty or not, and the connection room for one. */
  predicate HasPacket(d: State, link: Link) {
    link.mtu >= ATT_OVERHEAD && !d.complete && !Dry(d)
  }

  /** When a write attempt goes out, parks or fails; what it leaves as it was; when it uses up the downlink. */
  lemma WriteOutcome(p: Pump, link: Link, gattOk: bool)
    ensures var t := WriteCharacteristic(p, link, gattOk);
            && (t.result == Sent <==> HasPacket(p.d, link) && gattOk)
            && (t.result == Empty <==> link.mtu >= ATT_OVERHEAD && Dry(p.d))
            && t.p == p.(d := t.p.d, given := t.p.given, outstanding := t.p.outstanding, packets := t.p.packets)
            && t.p.outstanding == p.outstanding + (if t.result == Sent then 1 else 0)
            && t.p.d == p.d.(cur := t.p.d.cur, q := t.p.d.q, complete := t.p.d.complete, waiting := t.p.d.waiting)
            && (t.p.d.complete <==> p.d.complete || (link.mtu >= ATT_OVERHEAD && Finishes(p.d, link.cap)))
            && t.p.d.waiting == (p.d.waiting || t.result == Empty)
  {
    hide Take, Held, Finishes, Bytes, HasLast;
    if !p.d.complete {
      hide GetData, Dry;
      DryExactly(p.d, link.cap);
      FinishesExactly(p.d, link.cap);
      ReadOutcome(p.d, link.cap);
    }
  }
}
