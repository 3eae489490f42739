/**
 * The downlink pump under any failure: when two writes are under way at once, when the downlink
 * is freed, and exactly when it is used after that.
 */
module PumpFaults {
  import opened Base
  import opened DownlinkSpec
  import opened PumpSpec

  // ----- Two writes at once

  predicate OneAtMost(p: Pump) {
    p.outstanding <= 1 && (p.d.alive && p.d.waiting && !p.d.aborted ==> p.outstanding == 0)
  }

  lemma BlockOneAtMost(p: Pump, data: seq<byte>, last: bool, slot: Option<nat>, gattOk: bool, link: Link)
    requires OneAtMost(p) && p.d.alive
    ensures OneAtMost(CloudBlock(p, link, data, last, slot, gattOk))
  {
    hide WriteCharacteristic, HasPacket, Dry, Finishes, Slots, Close;
    if p.d.aborted || slot == None {
    } else {
      WriteOutcome(Feed(p, data, last, slot), link, gattOk);
    }
  }

  lemma ResponseOneAtMost(p: Pump, err: bool, gattOk: bool, link: Link)
    requires p.outstanding == 0 && (p.d.waiting ==> p.d.aborted || p.d.complete)
    ensures OneAtMost(WriteResponse(p, link, err, gattOk))
  {
    hide WriteCharacteristic, HasPacket, Dry, Finishes;
    WriteOutcome(p, link, gattOk);
  }

  lemma StepOneAtMost(p: Pump, e: Event, link: Link)
    requires OneAtMost(p) && (e.End? ==> e.ok)
    ensures OneAtMost(Step(p, e, link))
  {
    hide CloudBlock, WriteResponse;
    if p.d.alive && !p.fault {
      match e
      case Block(data, last, slot, gattOk) => BlockOneAtMost(p, data, last, slot, gattOk, link);
      case Response(err, gattOk) =>
        if p.outstanding > 0 {
          ResponseOneAtMost(p.(outstanding := p.outstanding - 1), err, gattOk, link);
        }
      case End(ok, gattOk) =>
    }
  }

  /**
   * Whatever fails (slab, MTU, GATT writes, responses), and whatever the blocks are, there is at
   * most one write outstanding as long as the cloud session does not end in an error.
   */
  lemma {:induction false} NeverTwoWrites(ps: seq<Pump>, es: seq<Event>, ls: seq<Link>, n: nat)
    requires Steps(ps, es, ls) && n <= |es| && OneAtMost(ps[0])
    requires forall i :: 0 <= i < n ==> (es[i].End? ==> es[i].ok)
    ensures OneAtMost(ps[n])
    decreases n
  {
    hide Steps, Step, OneAtMost;
    if n > 0 {
      StepAt(ps, es, ls, n - 1);
      NeverTwoWrites(ps, es, ls, n - 1);
      StepOneAtMost(ps[n - 1], es[n - 1], ls[n - 1]);
    }
  }

  // ----- Freeing the downlink

  /** The final packet is taken from the downlink and then refused by the stack. */
  predicate FinalRefused(d: State, link: Link, gattOk: bool) {
    link.mtu >= ATT_OVERHEAD && !gattOk && Finishes(d, link.cap)
  }

  /** The event frees a downlink that is still there. */
  predicate Frees(p: Pump, e: Event, link: Link) {
    p.d.alive && match e
    case Block(data, last, slot, gattOk) =>
      p.d.aborted || slot == None ||
      (p.d.cur == None && p.d.waiting &&
       (p.d.complete || FinalRefused(Feed(p, data, last, slot).d, link, gattOk)))
    case Response(err, gattOk) =>
      p.outstanding > 0 && (p.d.complete || (!err && FinalRefused(p.d, link, gattOk)))
    case End(ok, gattOk) =>
      !ok && (p.d.complete || (p.d.cur == None && FinalRefused(Abort(p.d).s, link, gattOk)))
  }

  lemma FinishesIsNotDry(d: State, cap: nat)
    ensures Finishes(d, cap) ==> !d.complete && !Dry(d)
  {
    hide Held, HasLast, Bytes, Due, Ahead;
  }

  /** A wakeup frees the downlink exactly if it is complete or its final packet is refused. */
  lemma KickFrees(p: Pump, link: Link, gattOk: bool)
    requires p.d.alive
    ensures !DataAvailable(p, link, gattOk).d.alive <==> p.d.complete || FinalRefused(p.d, link, gattOk)
  {
    hide WriteCharacteristic, Dry, Finishes;
    WriteOutcome(p, link, gattOk);
    FinishesIsNotDry(p.d, link.cap);
  }

  lemma ResponseFrees(p: Pump, link: Link, err: bool, gattOk: bool)
    requires p.d.alive
    ensures !WriteResponse(p, link, err, gattOk).d.alive <==>
            p.d.complete || (!err && FinalRefused(p.d, link, gattOk))
  {
    hide WriteCharacteristic, Dry, Finishes;
    WriteOutcome(p, link, gattOk);
    FinishesIsNotDry(p.d, link.cap);
  }

  /** Exactly the events above free the downlink. */
  lemma FreedExactly(p: Pump, e: Event, link: Link)
    requires p.d.alive && !p.fault
    ensures !Step(p, e, link).d.alive <==> Frees(p, e, link)
  {
    hide DataAvailable, WriteResponse, FinalRefused, Slots;
    match e
    case Block(data, last, slot, gattOk) =>
      if !p.d.aborted && slot.Some? {
        KickFrees(Feed(p, data, last, slot), link, gattOk);
      }
    case Response(err, gattOk) =>
      if p.outstanding > 0 {
        ResponseFrees(p.(outstanding := p.outstanding - 1), link, err, gattOk);
      }
    case End(ok, gattOk) =>
      if !p.d.complete {
        KickFrees(Put(p.(ended := true), Abort(p.d)), link, gattOk);
      }
  }

  // ----- Using it after that

  /** An event whose callback looks at the downlink when it is freed already. */
  predicate Touches(p: Pump, e: Event) {
    e.Block? || (e.Response? && p.outstanding > 0) || (e.End? && !e.ok)
  }

  /** The event makes the gateway use a freed downlink; an error end may have freed it itself. */
  predicate UsesFreed(p: Pump, e: Event) {
    if p.d.alive then e.End? && !e.ok && p.d.complete else Touches(p, e)
  }

  /** A fault of the pump lasts, and only a freed downlink can be at fault. */
  predicate Sane(p: Pump) {
    p.fault ==> !p.d.alive
  }

  lemma StepFaults(p: Pump, e: Event, link: Link)
    requires Sane(p)
    ensures Sane(Step(p, e, link))
    ensures Step(p, e, link).fault <==> p.fault || UsesFreed(p, e)
    ensures !p.d.alive ==> !Step(p, e, link).d.alive
  {
    hide WriteCharacteristic;
    if p.d.alive {
      match e
      case Block(data, last, slot, gattOk) =>
        WriteOutcome(Feed(p, data, last, slot), link, gattOk);
      case Response(err, gattOk) =>
        if p.outstanding > 0 {
          WriteOutcome(p.(outstanding := p.outstanding - 1), link, gattOk);
        }
      case End(ok, gattOk) =>
        WriteOutcome(Put(p.(ended := true), Abort(p.d)), link, gattOk);
    }
  }

  /** Some event before the n-th freed the downlink. */
  predicate FreedBefore(ps: seq<Pump>, es: seq<Event>, ls: seq<Link>, n: nat)
    requires n <= |es| <= |ps| && |ls| == |es|
  {
    exists j :: 0 <= j < n && Frees(ps[j], es[j], ls[j])
  }

  lemma FreedStep(ps: seq<Pump>, es: seq<Event>, ls: seq<Link>, n: nat)
    requires n <= |es| <= |ps| && |ls| == |es|
    ensures FreedBefore(ps, es, ls, n) <==>
            n > 0 && (FreedBefore(ps, es, ls, n - 1) || Frees(ps[n - 1], es[n - 1], ls[n - 1]))
  {
    hide Frees;
  }

  lemma {:induction false} GoneExactly(ps: seq<Pump>, es: seq<Event>, ls: seq<Link>, n: nat)
    requires Steps(ps, es, ls) && n <= |es| && ps[0].d.alive && !ps[0].fault
    ensures Sane(ps[n])
    ensures !ps[n].d.alive <==> FreedBefore(ps, es, ls, n)
    decreases n
  {
    hide FreedBefore, Frees, Step, Steps, UsesFreed;
    StepsLengths(ps, es, ls);
    FreedStep(ps, es, ls, n);
    if n > 0 {
      StepAt(ps, es, ls, n - 1);
      GoneExactly(ps, es, ls, n - 1);
      StepFaults(ps[n - 1], es[n - 1], ls[n - 1]);
      if ps[n - 1].d.alive {
        FreedExactly(ps[n - 1], es[n - 1], ls[n - 1]);
      }
    }
  }

  /**
   * The n-th event uses a freed downlink: it comes after one that freed the downlink, or is an
   * error end of a complete downlink.
   */
  predicate FaultsAt(ps: seq<Pump>, es: seq<Event>, ls: seq<Link>, n: nat)
    requires n < |es| <= |ps| && |ls| == |es|
  {
    if FreedBefore(ps, es, ls, n) then Touches(ps[n], es[n])
    else es[n].End? && !es[n].ok && ps[n].d.complete
  }

  /**
   * Over every sequence of events, whatever fails: a freed downlink has been used if and only if,
   * after an event that freed it, a block, an error end or the response to a write came, or an
   * error end met a complete downlink.
   */
  lemma {:induction false} FaultExactly(ps: seq<Pump>, es: seq<Event>, ls: seq<Link>, n: nat)
    requires Steps(ps, es, ls) && n <= |es| && ps[0].d.alive && !ps[0].fault
    ensures ps[n].fault <==> exists i :: 0 <= i < n && FaultsAt(ps, es, ls, i)
    decreases n
  {
    hide FreedBefore, Frees, Step, Steps, Touches;
    if n > 0 {
      StepAt(ps, es, ls, n - 1);
      FaultExactly(ps, es, ls, n - 1);
      GoneExactly(ps, es, ls, n - 1);
      StepFaults(ps[n - 1], es[n - 1], ls[n - 1]);
      assert UsesFreed(ps[n - 1], es[n - 1]) <==> FaultsAt(ps, es, ls, n - 1);
      hide FaultsAt, UsesFreed;
    }
  }

  // ----- Without an error end

  /** The cloud session does not end in an error, and delivers no block to a downlink that is gone. */
  predicate Calm(p: Pump, e: Event) {
    (e.End? ==> e.ok) && (e.Block? ==> p.d.alive)
  }

  /** No block of the slab is free for a block of the cloud while a write is outstanding. */
  predicate ExhaustedInFlight(p: Pump, e: Event) {
    p.d.alive && !p.d.aborted && p.outstanding > 0 && e.Block? && e.slot == None
  }

  /** One write at most, none after an abort; after the downlink is gone, none unless the slab was exhausted. */
  predicate Settled(p: Pump) {
    OneAtMost(p) && Sane(p) && (p.d.alive && p.d.aborted ==> p.outstanding == 0)
  }

  predicate Dangling(p: Pump) {
    !p.d.alive && p.outstanding > 0
  }

  lemma BlockCalm(p: Pump, data: seq<byte>, last: bool, slot: Option<nat>, gattOk: bool, link: Link)
    requires Settled(p) && p.d.alive
    ensures var p' := CloudBlock(p, link, data, last, slot, gattOk);
            && (p'.d.alive && p'.d.aborted ==> p'.outstanding == 0)
            && (Dangling(p') <==> ExhaustedInFlight(p, Block(data, last, slot, gattOk)))
            && p'.fault == p.fault
  {
    hide WriteCharacteristic, HasPacket, Dry, Finishes, Slots, Close;
    if p.d.aborted || slot == None {
    } else {
      WriteOutcome(Feed(p, data, last, slot), link, gattOk);
    }
  }

  lemma ResponseCalm(p: Pump, err: bool, gattOk: bool, link: Link)
    requires p.outstanding == 0 && p.d.alive && !p.d.aborted
    ensures var p' := WriteResponse(p, link, err, gattOk);
            && !Dangling(p') && (p'.d.alive && p'.d.aborted ==> p'.outstanding == 0) && p'.fault == p.fault
  {
    hide WriteCharacteristic, HasPacket, Dry, Finishes;
    WriteOutcome(p, link, gattOk);
  }

  lemma CalmStep(p: Pump, e: Event, link: Link)
    requires Settled(p) && Calm(p, e)
    ensures var p' := Step(p, e, link);
            && Settled(p')
            && (p'.fault <==> p.fault || (Dangling(p) && e.Response?))
            && (!p.fault ==> (Dangling(p') <==> ExhaustedInFlight(p, e) || (Dangling(p) && !e.Response?)))
            && (p.fault ==> p' == p && !ExhaustedInFlight(p, e))
  {
    hide CloudBlock, WriteResponse;
    StepOneAtMost(p, e, link);
    if p.d.alive && !p.fault {
      match e
      case Block(data, last, slot, gattOk) => BlockCalm(p, data, last, slot, gattOk, link);
      case Response(err, gattOk) =>
        if p.outstanding > 0 {
          ResponseCalm(p.(outstanding := 0), err, gattOk, link);
        }
      case End(ok, gattOk) =>
    }
  }

  predicate ExhaustedBefore(ps: seq<Pump>, es: seq<Event>, n: nat)
    requires n <= |es| <= |ps|
  {
    exists j :: 0 <= j < n && ExhaustedInFlight(ps[j], es[j])
  }

  /** One of the first n events is a response that came after the slab was exhausted with a write outstanding. */
  predicate LateResponse(ps: seq<Pump>, es: seq<Event>, n: nat)
    requires n <= |es| <= |ps|
  {
    exists i :: 0 <= i < n && es[i].Response? && ExhaustedBefore(ps, es, i)
  }

  lemma LateStep(ps: seq<Pump>, es: seq<Event>, n: nat)
    requires n <= |es| <= |ps|
    ensures LateResponse(ps, es, n) <==>
            n > 0 && (LateResponse(ps, es, n - 1) || (es[n - 1].Response? && ExhaustedBefore(ps, es, n - 1)))
  {
    hide ExhaustedBefore;
  }

  lemma ExhaustedStep(ps: seq<Pump>, es: seq<Event>, n: nat)
    requires n <= |es| <= |ps|
    ensures ExhaustedBefore(ps, es, n) <==>
            n > 0 && (ExhaustedBefore(ps, es, n - 1) || ExhaustedInFlight(ps[n - 1], es[n - 1]))
  {
    hide ExhaustedInFlight;
  }

  lemma NothingDangles(p: Pump)
    requires Settled(p) && p.d.alive
    ensures !p.fault && !Dangling(p)
  {}

  lemma DangleStep(p: Pump, e: Event, link: Link)
    requires Settled(p) && Calm(p, e)
    ensures var p' := Step(p, e, link);
            Settled(p') && (p'.fault || Dangling(p') <==> p.fault || Dangling(p) || ExhaustedInFlight(p, e))
  {
    hide Step, Calm, Settled, Dangling, ExhaustedInFlight;
    CalmStep(p, e, link);
  }

  lemma {:induction false} DanglesExactly(ps: seq<Pump>, es: seq<Event>, ls: seq<Link>, n: nat)
    requires Steps(ps, es, ls) && n <= |es| && ps[0].d.alive && Settled(ps[0])
    requires forall i :: 0 <= i < n ==> Calm(ps[i], es[i])
    ensures Settled(ps[n])
    ensures ps[n].fault || Dangling(ps[n]) <==> ExhaustedBefore(ps, es, n)
    decreases n
  {
    hide ExhaustedBefore, ExhaustedInFlight, Step, Steps, Calm, Settled, Dangling;
    StepsLengths(ps, es, ls);
    NothingDangles(ps[0]);
    ExhaustedStep(ps, es, n);
    if n > 0 {
      StepAt(ps, es, ls, n - 1);
      DanglesExactly(ps, es, ls, n - 1);
      DangleStep(ps[n - 1], es[n - 1], ls[n - 1]);
    }
  }

  /**
   * Without an error end, and whatever else fails, a freed downlink is used if and only if the
   * slab was empty for a block that came while a write was outstanding, and then the response to
   * that write came.
   */
  lemma {:induction false} FaultWithoutErrorEnd(ps: seq<Pump>, es: seq<Event>, ls: seq<Link>, n: nat)
    requires Steps(ps, es, ls) && n <= |es| && ps[0].d.alive && Settled(ps[0])
    requires forall i :: 0 <= i < n ==> Calm(ps[i], es[i])
    ensures ps[n].fault <==> LateResponse(ps, es, n)
    decreases n
  {
    hide LateResponse, ExhaustedBefore, ExhaustedInFlight, Step, Steps, Calm, Settled, Dangling;
    StepsLengths(ps, es, ls);
    NothingDangles(ps[0]);
    LateStep(ps, es, n);
    if n > 0 {
      StepAt(ps, es, ls, n - 1);
      FaultWithoutErrorEnd(ps, es, ls, n - 1);
      DanglesExactly(ps, es, ls, n - 1);
      CalmStep(ps[n - 1], es[n - 1], ls[n - 1]);
    }
  }

  /** The two events of it: the block finds the slab empty and frees the downlink, the response looks at it. */
  lemma ExhaustionThenResponse(p: Pump, data: seq<byte>, last: bool, gattOk: bool, err: bool, gattOk': bool, link: Link)
    requires p.d.alive && !p.fault && p.outstanding > 0
    ensures var p1 := Step(p, Block(data, last, None, gattOk), link);
            var p2 := Step(p1, Response(err, gattOk'), link);
            !p1.fault && !p1.d.alive && p1.outstanding == p.outstanding && p2.fault
  {}

  // ----- An error end

  /**
   * An error end kicks the pump even when it is not parked. Exactly when a write is already
   * outstanding, no block is current and the kick's write is accepted, does that make two at
   * once; exactly when the downlink is already complete does the callback look at a downlink it
   * has just freed; and the kick itself frees it exactly if its packet is the final one and refused.
   */
  lemma ErrorEnd(p: Pump, link: Link, gattOk: bool)
    requires p.d.alive && !p.fault && OneAtMost(p)
    ensures var p' := Step(p, End(false, gattOk), link);
            var writes := !p.d.complete && p.d.cur == None && link.mtu >= ATT_OVERHEAD && gattOk;
            && (p'.fault <==> p.d.complete)
            && p'.outstanding == p.outstanding + (if writes then 1 else 0)
            && (p'.outstanding == 2 <==> writes && p.outstanding == 1)
            && (writes && Held(p.d) == [] ==> p'.d.complete && p'.packets == p.packets + [Packet([], true)])
            && (!p'.d.alive <==> p.d.complete || (p.d.cur == None && FinalRefused(Abort(p.d).s, link, gattOk)))
  {
    hide WriteCharacteristic, DataAvailable, FinalRefused, Held;
    FreedExactly(p, End(false, gattOk), link);
    if !p.d.complete && p.d.cur == None {
      AbortedKick(Put(p.(ended := true), Abort(p.d)), link, gattOk);
      HeldNothing(p.d);
      HeldNothing(Abort(p.d).s);
    }
  }

  lemma AbortedKick(p: Pump, link: Link, gattOk: bool)
    requires p.d.alive && p.d.aborted && !p.d.complete && !p.fault
    ensures var p' := DataAvailable(p, link, gattOk);
            && !p'.fault
            && p'.outstanding == p.outstanding + (if link.mtu >= ATT_OVERHEAD && gattOk then 1 else 0)
            && (link.mtu >= ATT_OVERHEAD && gattOk && Held(p.d) == [] ==>
                  p'.d.complete && p'.packets == p.packets + [Packet([], true)])
  {
    WriteOutcome(p, link, gattOk);
    assert Take([], link.cap) == Taken([], [], false, []);
    hide Take, Held, Finishes, HasLast, Bytes;
  }

  /** Where two writes lead: if nothing was held at the error end, the second response finds the downlink freed. */
  lemma TwoWritesThenFault(p: Pump, link: Link, err: bool, gattOk: bool, err': bool, gattOk': bool)
    requires link.mtu >= ATT_OVERHEAD && p.d.alive && !p.fault && p.outstanding == 1 && OneAtMost(p)
    requires !p.d.complete && Held(p.d) == []
    ensures var p1 := Step(p, End(false, true), link);
            var p2 := Step(p1, Response(err, gattOk), link);
            var p3 := Step(p2, Response(err', gattOk'), link);
            p1.outstanding == 2 && !p2.fault && !p2.d.alive && p3.fault
  {
    hide WriteCharacteristic, DataAvailable;
    HeldNothing(p.d);
    ErrorEnd(p, link, true);
  }

  // ----- Finishing the connection

  /** A write tried now goes out. */
  predicate GoesOut(d: State, link: Link, gattOk: bool) {
    gattOk && HasPacket(d, link)
  }

  /**
   * The event finishes the connection: a response in error, to the final packet, or whose next
   * write fails, while a dry downlink only parks; and a wakeup whose write does not go out.
   */
  predicate FinishesConnection(p: Pump, e: Event, link: Link) {
    p.d.alive && match e
    case Block(data, last, slot, gattOk) =>
      !p.d.aborted && slot.Some? && p.d.cur == None && p.d.waiting &&
      !GoesOut(Feed(p, data, last, slot).d, link, gattOk)
    case Response(err, gattOk) =>
      p.outstanding > 0 &&
      (err || p.d.complete || (!GoesOut(p.d, link, gattOk) && !(link.mtu >= ATT_OVERHEAD && Dry(p.d))))
    case End(ok, gattOk) =>
      !ok && !p.d.complete && p.d.cur == None && !(gattOk && link.mtu >= ATT_OVERHEAD)
  }

  /** The connection is finished once if the event does that; all but the final response then leave an abort. */
  predicate FinishedBy(p: Pump, p': Pump, e: Event, link: Link) {
    var finishes := FinishesConnection(p, e, link);
    && p'.finished == p.finished + (if finishes then 1 else 0)
    && (p'.d.aborted <==> p.d.aborted || (p.d.alive && e.End? && !e.ok) ||
                          (finishes && (e.Response? && !e.err ==> !p.d.complete)))
  }

  lemma BlockFinishes(p: Pump, data: seq<byte>, last: bool, slot: Option<nat>, gattOk: bool, link: Link)
    requires p.d.alive
    ensures FinishedBy(p, CloudBlock(p, link, data, last, slot, gattOk), Block(data, last, slot, gattOk), link)
  {
    hide DataAvailable, GoesOut, Slots, Close;
    if !p.d.aborted && slot.Some? {
      KickFinishes(Feed(p, data, last, slot), link, gattOk);
    }
  }

  lemma KickFinishes(p: Pump, link: Link, gattOk: bool)
    ensures var p', goes := DataAvailable(p, link, gattOk), GoesOut(p.d, link, gattOk);
            p'.finished == p.finished + (if goes then 0 else 1) && (p'.d.aborted <==> p.d.aborted || !goes)
  {
    hide WriteCharacteristic, HasPacket, Dry, Finishes;
    WriteOutcome(p, link, gattOk);
  }

  lemma ResponseFinishes(p: Pump, err: bool, gattOk: bool, link: Link)
    requires p.d.alive && p.outstanding > 0
    ensures FinishedBy(p, WriteResponse(p.(outstanding := p.outstanding - 1), link, err, gattOk),
                       Response(err, gattOk), link)
  {
    hide WriteCharacteristic, Dry, Finishes;
    WriteOutcome(p.(outstanding := p.outstanding - 1), link, gattOk);
  }

  lemma EndFinishes(p: Pump, ok: bool, gattOk: bool, link: Link)
    requires p.d.alive
    ensures FinishedBy(p, CloudEnd(p.(ended := true), link, ok, gattOk), End(ok, gattOk), link)
  {
    hide WriteCharacteristic, Dry, Finishes;
    WriteOutcome(Put(p.(ended := true), Abort(p.d)), link, gattOk);
    AbortedIsNotDry(p.d);
  }

  /** Exactly these events finish the connection, each of them once. */
  lemma FinishedExactly(p: Pump, e: Event, link: Link)
    requires !p.fault
    ensures FinishedBy(p, Step(p, e, link), e, link)
  {
    hide CloudBlock, WriteResponse, CloudEnd;
    if p.d.alive {
      match e
      case Block(data, last, slot, gattOk) => BlockFinishes(p, data, last, slot, gattOk, link);
      case Response(err, gattOk) =>
        if p.outstanding > 0 {
          ResponseFinishes(p, err, gattOk, link);
        }
      case End(ok, gattOk) => EndFinishes(p, ok, gattOk, link);
      hide FinishesConnection;
    }
  }

  lemma AbortedIsNotDry(d: State)
    ensures !Dry(d.(aborted := true))
  {
    hide Held;
  }

  // ----- A downlink that did not start

  /** The uplink session is opened with what the start returned, NULL included; the callbacks then have no downlink. */
  function Missing(): Pump {
    Begin().(d := Freed(Opened()))
  }

  /** A callback of the cloud session that looks at the downlink. */
  predicate CloudLooks(e: Event) {
    e.Block? || (e.End? && !e.ok)
  }

  /** Without a downlink the first block or error end of the session looks at NULL, and nothing else does. */
  lemma {:induction false} MissingDownlink(ps: seq<Pump>, es: seq<Event>, ls: seq<Link>, n: nat)
    requires Steps(ps, es, ls) && n <= |es| && ps[0] == Missing()
    ensures !ps[n].d.alive && ps[n].outstanding == 0
    ensures ps[n].fault <==> exists i :: 0 <= i < n && CloudLooks(es[i])
    decreases n
  {
    hide Steps, CloudLooks;
    if n > 0 {
      StepAt(ps, es, ls, n - 1);
      MissingDownlink(ps, es, ls, n - 1);
      MissingStep(ps[n - 1], es[n - 1], ls[n - 1]);
      hide Step;
    }
  }

  lemma MissingStep(p: Pump, e: Event, link: Link)
    requires !p.d.alive && p.outstanding == 0
    ensures var p' := Step(p, e, link);
            !p'.d.alive && p'.outstanding == 0 && (p'.fault <==> p.fault || CloudLooks(e))
  {}
}
