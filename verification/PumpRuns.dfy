/** The downlink pump when nothing fails: what every run of blocks and responses guarantees. */
module PumpRuns {
  import opened Base
  import opened DownlinkSpec
  import Holdings
  import opened PumpSpec

  // ----- Runs without failures

  predicate Busy(p: Pump) {
    p.d.alive && p.outstanding == 1 && p.finished == 0 && !p.d.waiting
  }

  predicate Parked(p: Pump) {
    p.d.alive && p.outstanding == 0 && p.finished == 0 && p.d.waiting && Held(p.d) == [] && !p.d.complete
  }

  predicate Done(p: Pump) {
    !p.d.alive && p.outstanding == 0 && p.finished == 1
  }

  /**
   * Nothing fails, the MTU has room for a packet, nothing follows the last block, and no block
   * that is both empty and not the last one meets a parked pump.
   */
  predicate Fine(p: Pump, e: Event, link: Link) {
    link.mtu >= ATT_OVERHEAD && match e
    case Block(data, last, slot, gattOk) =>
      p.d.alive && !p.sealed && slot.Some? && gattOk && (Parked(p) ==> data != [] || last)
    case Response(err, gattOk) => p.outstanding > 0 && !err && gattOk
    case End(ok, _) => ok
  }

  function Payloads(packets: seq<Packet>): seq<byte> {
    if packets == [] then [] else Payloads(packets[..|packets| - 1]) + packets[|packets| - 1].bytes
  }

  predicate Complete(p: Pump) {
    p.d.complete || !p.d.alive
  }

  predicate Stream(p: Pump) {
    && p.received == Payloads(p.packets) + Bytes(Held(p.d))
    && OnlyFinal(Held(p.d))
    && (if Complete(p) then Held(p.d) == [] && p.sealed && p.packets != [] else p.sealed == HasLast(Held(p.d)))
    && forall i :: 0 <= i < |p.packets| ==> (p.packets[i].last <==> Complete(p) && i == |p.packets| - 1)
  }

  predicate PumpInv(p: Pump) {
    && !p.fault && !p.d.aborted
    && (Busy(p) || Parked(p) || Done(p))
    && Stream(p)
  }

  lemma PayloadsSnoc(packets: seq<Packet>, x: Packet)
    ensures Payloads(packets + [x]) == Payloads(packets) + x.bytes
  {
    assert (packets + [x])[..|packets|] == packets;
  }

  /** A write attempt by a pump that has nothing outstanding: it goes out, or the pump parks. */
  lemma WriteKeeps(p: Pump, link: Link)
    requires link.mtu >= ATT_OVERHEAD
    requires p.d.alive && !p.d.complete && !p.d.aborted && !p.d.waiting && p.outstanding == 0
    requires p.finished == 0 && !p.fault && Stream(p)
    ensures var t := WriteCharacteristic(p, link, true);
            && t.result != Failed && PumpInv(t.p)
            && (t.result == Sent <==> Busy(t.p))
            && (t.result == Empty ==> Bytes(Held(p.d)) == [] && !HasLast(Held(p.d)))
            && var got := GetData(p.d, link.cap);
               (t.result == Sent ==> t.p.packets == p.packets + [Packet(got.bytes, got.last)])
  {
    hide GetData, Held, Bytes, HasLast, OnlyFinal, Payloads;
    var got := GetData(p.d, link.cap);
    GetDataMoves(p.d, link.cap);
    BytesNil();
    if got.last || got.bytes != [] {
      SentKeeps(p, got);
    } else {
      assert got.bytes + Bytes(Held(got.s)) == Bytes(Held(got.s));
    }
  }

  /** The stream when a packet has gone out. */
  lemma SentKeeps(p: Pump, got: Got)
    requires Stream(p) && p.d.alive && !p.d.complete
    requires got.s.alive && got.bytes + Bytes(Held(got.s)) == Bytes(Held(p.d)) && OnlyFinal(Held(got.s))
    requires got.s.complete == got.last
    requires if got.last then Held(got.s) == [] && HasLast(Held(p.d)) else HasLast(Held(got.s)) == HasLast(Held(p.d))
    ensures Stream(p.(d := got.s, outstanding := p.outstanding + 1,
                      packets := p.packets + [Packet(got.bytes, got.last)]))
  {
    hide Held, Bytes, HasLast, OnlyFinal, Payloads;
    PayloadsSnoc(p.packets, Packet(got.bytes, got.last));
    assert p.received == Payloads(p.packets) + got.bytes + Bytes(Held(got.s));
  }

  lemma BytesNil()
    ensures Bytes([]) == [] && !HasLast([])
  {}

  /** The stream with a block put behind it. */
  lemma FedStream(p: Pump, data: seq<byte>, last: bool, slot: nat)
    requires p.d.alive && !p.d.complete && !p.d.aborted && !p.sealed && Stream(p)
    ensures var p' := Feed(p, data, last, Some(slot));
            Held(p'.d) == Held(p.d) + [Chunk(slot, data, last)] && Stream(p')
  {
    hide Held, Bytes, Slots, HasLast, OnlyFinal, Payloads;
    var c := Chunk(slot, data, last);
    var p' := Feed(p, data, last, Some(slot));
    Holdings.FeedHolds(p.d, c, p'.d);
    Appended(Held(p.d), c);
    assert p.received + data == Payloads(p.packets) + Bytes(Held(p'.d));
  }

  lemma BlockKeeps(p: Pump, e: Event, link: Link)
    requires PumpInv(p) && e.Block? && Fine(p, e, link)
    ensures PumpInv(Step(p, e, link))
    ensures Parked(p) ==> Busy(Step(p, e, link))
  {
    hide Held, Bytes, HasLast, OnlyFinal, Payloads, WriteCharacteristic, Stream;
    var slot := e.slot.value;
    SealedWhenComplete(p);
    FedStream(p, e.data, e.last, slot);
    if Parked(p) {
      var c := Chunk(slot, e.data, e.last);
      BytesNil();
      Appended([], c);
      assert [] + [c] == [c];
      HeldNothing(p.d);
      WriteKeeps(Feed(p, e.data, e.last, e.slot), link);
    }
  }

  lemma SealedWhenComplete(p: Pump)
    requires Stream(p)
    ensures Complete(p) ==> p.sealed
  {
    hide Held, Bytes, HasLast, OnlyFinal, Payloads;
  }

  lemma ResponseKeeps(p: Pump, link: Link)
    requires link.mtu >= ATT_OVERHEAD && PumpInv(p) && p.outstanding > 0
    ensures PumpInv(Step(p, Response(false, true), link))
  {
    hide Held, Bytes, HasLast, OnlyFinal, Payloads, WriteCharacteristic;
    if p.d.complete {
      HeldNothing(p.d);
      HeldNothing(Close(p.d).s);
    } else {
      WriteKeeps(p.(outstanding := 0), link);
    }
  }

  lemma StepKeeps(p: Pump, e: Event, link: Link)
    requires PumpInv(p) && Fine(p, e, link)
    ensures PumpInv(Step(p, e, link))
  {
    hide Held, Bytes, HasLast, OnlyFinal, Payloads;
    match e
    case Block(_, _, _, _) => BlockKeeps(p, e, link);
    case Response(err, gattOk) => ResponseKeeps(p, link);
    case End(ok, gattOk) =>
  }

  /** A run of a new pump in which nothing fails. */
  predicate FineRun(ps: seq<Pump>, es: seq<Event>, ls: seq<Link>) {
    Steps(ps, es, ls) && ps[0] == Begin() && forall i :: 0 <= i < |es| ==> Fine(ps[i], es[i], ls[i])
  }

  lemma RunKeeps(ps: seq<Pump>, es: seq<Event>, ls: seq<Link>)
    requires FineRun(ps, es, ls)
    ensures |ps| == |es| + 1 && forall i :: 0 <= i < |ps| ==> PumpInv(ps[i])
  {
    BeginHolds();
    hide PumpInv, Step, Fine;
    for i := 0 to |es|
      invariant forall j :: 0 <= j <= i ==> PumpInv(ps[j])
    {
      StepKeeps(ps[i], es[i], ls[i]);
    }
  }

  lemma BeginHolds()
    ensures PumpInv(Begin()) && Parked(Begin())
  {
    BytesNil();
  }

  /**
   * In every state of a run of blocks and responses exactly one thing holds: one GATT write is
   * outstanding; or the pump is parked with nothing held, so that the next block wakes it; or the
   * transfer is over. There are never two writes at once, and nothing is used after it is freed.
   */
  lemma NoLostWakeup(ps: seq<Pump>, es: seq<Event>, ls: seq<Link>, n: nat)
    requires FineRun(ps, es, ls) && n <= |es|
    ensures var p := ps[n];
            && (Busy(p) || Parked(p) || Done(p))
            && !(Busy(p) && Parked(p)) && !(Busy(p) && Done(p)) && !(Parked(p) && Done(p))
            && p.outstanding <= 1 && !p.fault
  {
    RunKeeps(ps, es, ls);
    hide FineRun, Stream;
  }

  /**
   * The bytes written, followed by the bytes held, are the bytes received, in order. The last
   * packet, and no other, carries the last mark, and it does once the last block is used up; at
   * the end all received bytes have been written.
   */
  lemma StreamRefinement(ps: seq<Pump>, es: seq<Event>, ls: seq<Link>, n: nat)
    requires FineRun(ps, es, ls) && n <= |es|
    ensures var p := ps[n];
            && p.received == Payloads(p.packets) + Bytes(Held(p.d))
            && (Done(p) ==> p.received == Payloads(p.packets) && p.sealed)
            && (forall i :: 0 <= i < |p.packets| ==> (p.packets[i].last <==> Complete(p) && i == |p.packets| - 1))
            && (Complete(p) ==> p.packets != [])
  {
    RunKeeps(ps, es, ls);
    BytesNil();
    hide FineRun, Held, OnlyFinal, HasLast;
  }

  /**
   * The one block the pump cannot take: waking a parked pump with a block that is empty and not
   * the last makes it give the connection up. Any other block keeps it going.
   */
  lemma EmptyBlockWhileParked(p: Pump, data: seq<byte>, last: bool, slot: nat, link: Link)
    requires link.mtu >= ATT_OVERHEAD && PumpInv(p) && Parked(p) && !p.sealed
    ensures var p' := Step(p, Block(data, last, Some(slot), true), link);
            if data != [] || last then Busy(p') && PumpInv(p') else p'.finished == 1 && p'.d.alive && p'.d.aborted
  {
    hide Held, Bytes, HasLast, OnlyFinal, Payloads, Stream, GetData;
    var e := Block(data, last, Some(slot), true);
    if data != [] || last {
      BlockKeeps(p, e, link);
    } else {
      SealedWhenComplete(p);
      FedStream(p, data, last, slot);
      HeldNothing(p.d);
      var p' := Feed(p, data, last, Some(slot));
      var c := Chunk(slot, data, last);
      BytesNil();
      Appended([], c);
      assert [] + [c] == [c];
      GetDataMoves(p'.d, link.cap);
      DrainsEmpty(p'.d, link.cap);
    }
  }

  /** A read finds nothing in empty blocks none of which is the last. */
  lemma DrainsEmpty(s: State, cap: nat)
    requires !s.complete && !s.aborted && Bytes(Held(s)) == [] && !HasLast(Held(s))
    ensures GetData(s, cap).bytes == [] && !GetData(s, cap).last
  {
    hide Held, Take, Due;
    TakeConserves(Held(s), cap);
    FinishesExactly(s, cap);
  }

  // ----- The end of a transfer

  function CeilDiv(r: nat, c: pos): nat {
    (r + c - 1) / c
  }

  lemma CeilDivStep(r: nat, c: pos)
    ensures r == 0 <==> CeilDiv(r, c) == 0
    ensures r > 0 ==> CeilDiv(r, c) == 1 + CeilDiv(if r <= c then 0 else r - c, c)
  {
    if 0 < r <= c {
      assert r + c - 1 == 1 * c + (r - 1);
      DivUnique(r + c - 1, c, 1, r - 1);
      DivUnique(c - 1, c, 0, c - 1);
    } else if r > c {
      var k := r - 1;
      assert (r + c - 1) / c == (k + c) / c && (r - c + c - 1) / c == k / c;
      DivUnique(k + c, c, k / c + 1, k % c);
    } else {
      DivUnique(c - 1, c, 0, c - 1);
    }
  }

  lemma DivUnique(x: int, c: int, q: int, r: int)
    requires c > 0 && x == q * c + r && 0 <= r < c
    ensures x / c == q
  {
    var d := x / c - q;
    assert x == (x / c) * c + x % c;
    assert d * c == r - x % c;
    MultipleOrZero(d, c);
  }

  lemma MultipleOrZero(d: int, c: int)
    requires c > 0
    ensures d == 0 || d * c >= c || d * c <= -c
  {
    assert d >= 1 ==> (d - 1) * c >= 0;
    assert d <= -1 ==> (d + 1) * c <= 0;
  }

  function Responses(p: Pump, link: Link, k: nat): Pump
    decreases k
  {
    if k == 0 then p else Responses(Step(p, Response(false, true), link), link, k - 1)
  }

  /** The last block has come and a write is outstanding. */
  predicate Finishing(p: Pump) {
    PumpInv(p) && Busy(p) && p.sealed
  }

  /**
   * The writes still to come: as many as the bytes due fill, but one more than the bytes in front
   * of the last block fill, since only a write with room left gets to that block.
   */
  function WritesLeft(d: State, cap: pos): nat {
    if d.complete then 0 else Most(CeilDiv(|Due(Held(d))|, cap), Quotient(|Ahead(Held(d))|, cap) + 1)
  }

  function Quotient(a: nat, c: pos): nat {
    a / c
  }

  function Most(a: nat, c: nat): nat {
    if a < c then c else a
  }

  /** With non-empty blocks, the bytes due alone decide. */
  lemma WritesOfNonEmpty(d: State, cap: pos)
    requires !d.complete && HasLast(Held(d)) && NonEmpty(Held(d))
    ensures WritesLeft(d, cap) == CeilDiv(|Due(Held(d))|, cap)
  {
    AheadIsShorter(Held(d));
    hide Held, Due, Ahead, HasLast, NonEmpty, CeilDiv, Quotient;
    var due, ahead := |Due(Held(d))|, |Ahead(Held(d))|;
    CeilDivStep(due, cap);
    CeilAbove(ahead, due, cap);
  }

  lemma CeilAbove(a: nat, r: nat, c: pos)
    requires a < r
    ensures Quotient(a, c) + 1 <= CeilDiv(r, c)
  {
    DivUnique(a + c, c, a / c + 1, a % c);
    DivMonotone(a + c, r + c - 1, c);
  }

  lemma DivMonotone(a: nat, r: nat, c: pos)
    requires a <= r
    ensures a / c <= r / c
  {
    var d := a / c - r / c;
    assert a == (a / c) * c + a % c && r == (r / c) * c + r % c;
    assert d * c == a - r - a % c + r % c < c;
    assert d >= 1 ==> (d - 1) * c >= 0;
  }

  lemma QuotientStep(a: nat, c: pos)
    ensures Quotient(a, c) == if a < c then 0 else 1 + Quotient(a - c, c)
  {
    if a < c {
      DivUnique(a, c, 0, a);
    } else {
      var k := a - c;
      DivUnique(a, c, k / c + 1, k % c);
    }
  }

  /** What a write that is not the final one takes off both counts. */
  lemma WritesStep(due: nat, ahead: nat, due': nat, ahead': nat, cap: pos)
    requires ahead <= due && (due > cap || ahead >= cap)
    requires due' == due - cap && ahead' == if ahead < cap then 0 else ahead - cap
    ensures Most(CeilDiv(due, cap), Quotient(ahead, cap) + 1) == 1 + Most(CeilDiv(due', cap), Quotient(ahead', cap) + 1)
  {
    hide CeilDiv, Quotient;
    CeilDivStep(due, cap);
    CeilDivStep(due', cap);
    QuotientStep(ahead, cap);
    QuotientStep(ahead', cap);
  }

  lemma WritesLast(due: nat, ahead: nat, cap: pos)
    requires due <= cap && ahead < cap
    ensures Most(CeilDiv(due, cap), Quotient(ahead, cap) + 1) == 1
  {
    hide CeilDiv, Quotient;
    CeilDivStep(due, cap);
    CeilDivStep(0, cap);
    QuotientStep(ahead, cap);
  }

  lemma FinishStep(p: Pump, link: Link)
    requires link.mtu >= ATT_OVERHEAD && Finishing(p)
    ensures var n, p' := WritesLeft(p.d, link.cap), Step(p, Response(false, true), link);
            if n == 0 then Done(p') && p'.packets == p.packets
            else Finishing(p') && |p'.packets| == |p.packets| + 1 && WritesLeft(p'.d, link.cap) == n - 1
  {
    hide Held, Bytes, HasLast, OnlyFinal, Payloads, GetData, CeilDiv, Quotient, Due, Ahead, Most;
    if p.d.complete {
      ResponseKeeps(p, link);
      hide WriteCharacteristic, Stream;
    } else {
      var got := GetData(p.d, link.cap);
      WriteKeeps(p.(outstanding := 0), link);
      ReadLeaves(p.d, link.cap);
      if got.last {
        WritesLast(|Due(Held(p.d))|, |Ahead(Held(p.d))|, link.cap);
      } else {
        WritesStep(|Due(Held(p.d))|, |Ahead(Held(p.d))|, |Due(Held(got.s))|, |Ahead(Held(got.s))|, link.cap);
      }
      ReadOutcome(p.d, link.cap);
      hide Stream;
    }
  }

  /**
   * Once the last block has come, a pump issues exactly `WritesLeft` more writes, one for each
   * response, whatever the sizes of its blocks, and the response after these finishes the
   * transfer, once. If no block is empty, that is ceil(r / capacity) for r bytes.
   */
  lemma {:induction false} FinishBound(p: Pump, link: Link, k: nat)
    requires link.mtu >= ATT_OVERHEAD && Finishing(p)
    ensures var n := WritesLeft(p.d, link.cap);
            && (k <= n ==> Finishing(Responses(p, link, k)) && |Responses(p, link, k).packets| == |p.packets| + k)
            && (k == n + 1 ==> Done(Responses(p, link, k)) && |Responses(p, link, k).packets| == |p.packets| + n)
    decreases k
  {
    hide Step, Finishing, Done, WritesLeft;
    if k > 0 {
      FinishStep(p, link);
      if WritesLeft(p.d, link.cap) > 0 {
        FinishBound(Step(p, Response(false, true), link), link, k - 1);
      }
    }
  }
}
