/**
 * Where the blocks of one downlink go under any failure: when all of them are given back to the
 * slab, and which step leaves some of them behind for good.
 */
module PumpBlocks {
  import opened Base
  import opened DownlinkSpec
  import opened Holdings
  import opened PumpSpec

  /** The cloud session ends once, and delivers no block after that, behind the last one or to a freed downlink. */
  predicate Regular(p: Pump, e: Event) {
    match e
    case Block(_, _, _, _) => p.d.alive && !p.sealed && !p.ended
    case Response(_, _) => true
    case End(_, _) => !p.ended
  }

  /**
   * What holds whatever fails: a downlink that was not aborted has one write outstanding or is
   * parked with nothing held; a complete one has a write outstanding; the last block, once here,
   * stays until the downlink is complete or gone.
   */
  predicate Flow(p: Pump) {
    && OnlyFinal(Held(p.d))
    && (if p.d.alive && !p.d.complete then p.sealed == HasLast(Held(p.d)) else Held(p.d) == [])
    && (p.d.alive && !p.d.aborted ==>
          if p.outstanding == 0 then p.d.waiting && Held(p.d) == [] && !p.d.complete
          else p.outstanding == 1 && !p.d.waiting)
    && (p.d.alive && p.d.complete ==> p.outstanding > 0)
    && (p.d.complete ==> p.sealed || p.d.aborted)
    && (p.fault ==> !p.d.alive)
  }

  /** Every block taken from the slab has been given back or is held. */
  predicate Balanced(p: Pump, f: nat -> nat) {
    Weigh(p.taken, f) == Weigh(p.given, f) + Holding(p.d, f)
  }

  // ----- A write attempt

  /** A pump about to try a write: after an abort, or with nothing outstanding and not parked. */
  predicate Trying(p: Pump) {
    && p.d.alive && !p.d.complete && !p.fault
    && (p.d.aborted || (!p.d.waiting && p.outstanding == 0))
    && OnlyFinal(Held(p.d)) && p.sealed == HasLast(Held(p.d))
  }

  lemma TryKeeps(p: Pump, link: Link, gattOk: bool)
    requires Trying(p)
    ensures var t := WriteCharacteristic(p, link, gattOk);
            && (t.p.d.complete ==> Held(t.p.d) == [])
            && (t.result != Failed ==> Flow(t.p))
            && (t.result != Sent ==> Flow(GiveUp(t.p)))
  {
    hide Held, HasLast, OnlyFinal, Finishes, GetData, Bytes;
    var t := WriteCharacteristic(p, link, gattOk);
    WriteOutcome(p, link, gattOk);
    NoChunks();
    AbortHolds(t.p.d);
    if link.mtu >= ATT_OVERHEAD {
      GetDataMoves(p.d, link.cap);
    }
  }

  lemma NoChunks()
    ensures OnlyFinal([]) && !HasLast([])
  {}

  // ----- The invariant

  lemma BeginFlows()
    ensures Flow(Begin())
  {
    NoChunks();
    assert Held(Opened()) == [];
  }

  /** A block put into the downlink; if it wakes the pump, the pump has something to try. */
  lemma FeedKeeps(p: Pump, data: seq<byte>, last: bool, slot: Option<nat>)
    requires Flow(p) && p.d.alive && !p.sealed && !p.fault
    ensures var p' := Feed(p, data, last, slot);
            if BlockCb(p.d, data, last, slot).kick then
              Trying(p') && Held(p'.d) == [Chunk(slot.value, data, last)] && p'.sealed == last && p'.outstanding == 0
            else Flow(p')
  {
    hide Held, Slots, HasLast, OnlyFinal, Bytes;
    NoChunks();
    HeldNothing(p.d);
    AbortHolds(p.d);
    if !p.d.aborted && slot.Some? {
      var c := Chunk(slot.value, data, last);
      FeedHolds(p.d, c, Feed(p, data, last, slot).d);
      Appended(Held(p.d), c);
      assert [] + [c] == [c];
    } else {
      HeldNothing(Feed(p, data, last, slot).d);
    }
  }

  /** The abort of an error end, before a kick. */
  function Aborting(p: Pump): Pump {
    Put(p.(ended := true), Abort(p.d))
  }

  lemma AbortKeeps(p: Pump)
    requires Flow(p) && p.d.alive
    ensures Flow(Aborting(p)) && Aborting(p).d.alive == !p.d.complete
    ensures !p.d.complete ==> Trying(Aborting(p)) && Held(Aborting(p).d) == Held(p.d)
  {
    hide Held, HasLast, OnlyFinal;
    NoChunks();
    AbortHolds(p.d);
  }

  lemma FlowStep(p: Pump, e: Event, link: Link)
    requires Flow(p) && Regular(p, e)
    ensures Flow(Step(p, e, link))
  {
    hide Held, HasLast, OnlyFinal, WriteCharacteristic, Trying;
    if p.d.alive && !p.fault {
      match e
      case Block(data, last, slot, gattOk) =>
        FeedKeeps(p, data, last, slot);
        if BlockCb(p.d, data, last, slot).kick {
          TryKeeps(Feed(p, data, last, slot), link, gattOk);
        }
        hide Feed, BlockCb, GiveUp, Flow;
      case Response(err, gattOk) =>
        if p.outstanding > 0 {
          ResponseFlows(p, link, err, gattOk);
        }
      case End(ok, gattOk) =>
        AbortKeeps(p);
        if !p.d.complete {
          TryKeeps(Aborting(p), link, gattOk);
        }
        hide GiveUp, Abort;
    }
  }

  /** With the response noted, before anything else. */
  function Answered(p: Pump): Pump
    requires p.outstanding > 0
  {
    p.(outstanding := p.outstanding - 1)
  }

  lemma ResponseFlows(p: Pump, link: Link, err: bool, gattOk: bool)
    requires Flow(p) && p.d.alive && !p.fault && p.outstanding > 0
    ensures Flow(WriteResponse(Answered(p), link, err, gattOk))
  {
    hide Held, HasLast, OnlyFinal, WriteCharacteristic;
    NoChunks();
    AbortHolds(p.d);
    if !err && !p.d.complete {
      TryKeeps(Answered(p), link, gattOk);
      hide GiveUp, Flow;
    }
  }

  // ----- The account of the blocks

  lemma GivenBack(p: Pump, d: State, freed: seq<nat>, f: nat -> nat)
    requires Balanced(p, f) && Holding(p.d, f) == Weigh(freed, f) + Holding(d, f)
    ensures Balanced(p.(d := d, given := p.given + freed), f)
  {
    WeighConcat(p.given, freed, f);
    hide Holding, Weigh;
  }

  lemma WriteBalances(p: Pump, link: Link, gattOk: bool, f: nat -> nat)
    requires Balanced(p, f)
    ensures Balanced(WriteCharacteristic(p, link, gattOk).p, f)
  {
    hide GetData, Holding, Weigh;
    var got := GetData(p.d, link.cap);
    GetMoves(p.d, link.cap, f);
    GivenBack(p, got.s, got.freed, f);
  }

  lemma FeedBalances(p: Pump, data: seq<byte>, last: bool, slot: Option<nat>, f: nat -> nat)
    requires Balanced(p, f)
    ensures Balanced(Feed(p, data, last, slot), f)
  {
    var fed := BlockCb(p.d, data, last, slot);
    FeedMoves(p.d, data, last, slot, f);
    if fed.status == Accepted {
      WeighConcat(p.taken, [slot.value], f);
      assert Weigh([slot.value], f) == f(slot.value);
      hide BlockCb, Holding, Weigh;
    } else {
      HoldsNothing(fed.s, f);
      hide Holding, Weigh;
      GivenBack(p, fed.s, fed.freed, f);
    }
  }

  lemma CloseBalances(p: Pump, f: nat -> nat)
    requires Balanced(p, f) && Held(p.d) == []
    ensures Balanced(Put(p, Close(p.d)), f)
  {
    hide Held, Holding, Weigh, Close;
    HeldNothing(p.d);
    CloseMoves(p.d, f);
    GivenBack(p, Close(p.d).s, Close(p.d).freed, f);
  }

  lemma GiveUpBalances(p: Pump, f: nat -> nat)
    requires Balanced(p, f) && (p.d.complete ==> Held(p.d) == [])
    ensures Balanced(GiveUp(p), f)
  {
    hide Held, Holding, Weigh, Close;
    var aborted := p.d.(aborted := true);
    SameHolding(p.d, aborted, f);
    if p.d.complete {
      CloseBalances(p.(d := aborted), f);
    } else {
      assert p.given + [] == p.given;
    }
  }

  lemma SameHolding(s: State, s': State, f: nat -> nat)
    requires s'.cur == s.cur && s'.q == s.q
    ensures Held(s') == Held(s) && Holding(s', f) == Holding(s, f)
  {}

  lemma BalanceStep(p: Pump, e: Event, link: Link, f: nat -> nat)
    requires Flow(p) && Regular(p, e) && Balanced(p, f)
    ensures Balanced(Step(p, e, link), f)
  {
    hide Held, HasLast, OnlyFinal, WriteCharacteristic, Trying, GiveUp, Close, BlockCb, Weigh, Holding;
    if p.d.alive && !p.fault {
      match e
      case Block(data, last, slot, gattOk) =>
        FeedBalances(p, data, last, slot, f);
        if BlockCb(p.d, data, last, slot).kick {
          FeedKeeps(p, data, last, slot);
          TryBalances(Feed(p, data, last, slot), link, gattOk, f);
        }
      case Response(err, gattOk) =>
        if p.outstanding > 0 {
          ResponseBalances(p, link, err, gattOk, f);
        }
      case End(ok, gattOk) =>
        AbortKeeps(p);
        AbortBalances(p, f);
        if !p.d.complete {
          TryBalances(Aborting(p), link, gattOk, f);
        }
        hide Abort;
    }
  }

  lemma AbortBalances(p: Pump, f: nat -> nat)
    requires Balanced(p, f) && (p.d.complete ==> Held(p.d) == [])
    ensures Balanced(Aborting(p), f)
  {
    GiveUpBalances(p, f);
    hide Held, Holding, Weigh;
  }

  lemma TryBalances(p: Pump, link: Link, gattOk: bool, f: nat -> nat)
    requires Trying(p) && Balanced(p, f)
    ensures var t := WriteCharacteristic(p, link, gattOk); Balanced(t.p, f) && Balanced(GiveUp(t.p), f)
  {
    hide WriteCharacteristic, Trying, Balanced, GiveUp, Flow;
    TryKeeps(p, link, gattOk);
    WriteBalances(p, link, gattOk, f);
    GiveUpBalances(WriteCharacteristic(p, link, gattOk).p, f);
  }

  lemma ResponseBalances(p: Pump, link: Link, err: bool, gattOk: bool, f: nat -> nat)
    requires Flow(p) && p.d.alive && !p.fault && p.outstanding > 0 && Balanced(p, f)
    ensures Balanced(WriteResponse(Answered(p), link, err, gattOk), f)
  {
    hide Held, HasLast, OnlyFinal, WriteCharacteristic, GiveUp, Close, Weigh, Holding;
    var p' := Answered(p);
    GiveUpBalances(p', f);
    if p.d.complete {
      CloseBalances(p', f);
    } else {
      TryBalances(p', link, gattOk, f);
    }
  }

  /** A run of a new pump with a regular cloud session. */
  predicate RegularRun(ps: seq<Pump>, es: seq<Event>, ls: seq<Link>) {
    Steps(ps, es, ls) && ps[0] == Begin() && forall i :: 0 <= i < |es| ==> Regular(ps[i], es[i])
  }

  lemma RegularAt(ps: seq<Pump>, es: seq<Event>, ls: seq<Link>, i: nat)
    requires RegularRun(ps, es, ls) && i < |es|
    ensures |ps| == |es| + 1 && |ls| == |es| && Regular(ps[i], es[i]) && ps[i + 1] == Step(ps[i], es[i], ls[i])
  {}

  lemma RegularStart(ps: seq<Pump>, es: seq<Event>, ls: seq<Link>)
    requires RegularRun(ps, es, ls)
    ensures |ps| == |es| + 1 && |ls| == |es| && ps[0] == Begin()
  {}

  lemma {:induction false} RunFlows(ps: seq<Pump>, es: seq<Event>, ls: seq<Link>, n: nat, f: nat -> nat)
    requires RegularRun(ps, es, ls) && n <= |es|
    ensures Flow(ps[n]) && Balanced(ps[n], f)
    decreases n
  {
    hide RegularRun, Step, Flow, Regular, Balanced;
    RegularStart(ps, es, ls);
    if n == 0 {
      BeginFlows();
      BeginBalances(f);
    } else {
      RegularAt(ps, es, ls, n - 1);
      RunFlows(ps, es, ls, n - 1, f);
      FlowStep(ps[n - 1], es[n - 1], ls[n - 1]);
      BalanceStep(ps[n - 1], es[n - 1], ls[n - 1], f);
    }
  }

  lemma BeginBalances(f: nat -> nat)
    ensures Balanced(Begin(), f)
  {
    HoldsNothing(Opened(), f);
  }

  /**
   * Over every run, whatever fails and however the cloud session ends: with no response due, the
   * blocks given back are the blocks taken, each as often, if and only if the downlink is not a
   * given-up one that still holds some.
   */
  lemma AllGivenBack(ps: seq<Pump>, es: seq<Event>, ls: seq<Link>, n: nat)
    requires RegularRun(ps, es, ls) && n <= |es| && ps[n].outstanding == 0
    ensures var p := ps[n];
            && multiset(p.taken) == multiset(p.given) + multiset(Slots(Held(p.d)))
            && (multiset(p.given) == multiset(p.taken) <==> !GivenUp(p.d))
            && (p.sealed || p.ended ==> (GivenUp(p.d) <==> LeftBehind(p)))
  {
    hide RegularRun, Held, OnlyFinal, HasLast, Weigh;
    RegularStart(ps, es, ls);
    var p := ps[n];
    RunFlows(ps, es, ls, n, One());
    forall x ensures multiset(p.taken)[x] == (multiset(p.given) + multiset(Slots(Held(p.d))))[x] {
      RunFlows(ps, es, ls, n, Is(x));
      WeighOccurrences(p.taken, x);
      WeighOccurrences(p.given, x);
      WeighOccurrences(Slots(Held(p.d)), x);
    }
    WeighOnes(p.taken);
    WeighOnes(p.given);
    WeighOnes(Slots(Held(p.d)));
    assert |p.taken| == |p.given| + |Held(p.d)|;
  }

  // ----- Which step leaves blocks behind

  /** A given-up downlink that holds blocks, with no response due and no further block to come. */
  predicate LeftBehind(p: Pump) {
    GivenUp(p.d) && p.outstanding == 0 && (p.sealed || p.ended)
  }

  /** A write tried now does not go out, and leaves some of what is held. */
  predicate FailsWithRest(d: State, link: Link, gattOk: bool) {
    Held(d) != [] && (link.mtu < ATT_OVERHEAD || (!gattOk && !Empties(d, link.cap)))
  }

  /**
   * The steps that leave blocks behind. One is giving up a downlink that is not complete and that
   * gets no further block: after the response to the only write outstanding, or when the last
   * block wakes a parked pump. The other is the end of the session of a downlink given up before:
   * in an error, unless the kick that comes without a current block goes out or empties it.
   */
  predicate Strands(p: Pump, e: Event, link: Link) {
    p.d.alive && !p.d.complete && match e
    case Response(err, gattOk) =>
      p.outstanding == 1 && (p.sealed || p.ended) && Held(p.d) != [] && (err || FailsWithRest(p.d, link, gattOk))
    case Block(data, last, slot, gattOk) =>
      last && slot.Some? && !p.d.aborted && p.d.waiting &&
      (link.mtu < ATT_OVERHEAD || (!gattOk && |data| > link.cap))
    case End(ok, gattOk) =>
      p.outstanding == 0 && GivenUp(p.d) && (ok || p.d.cur.Some? || FailsWithRest(p.d, link, gattOk))
  }

  lemma TryStrands(p: Pump, link: Link, gattOk: bool)
    requires Trying(p)
    ensures var t := WriteCharacteristic(p, link, gattOk);
            && (t.result == Sent ==> link.mtu >= ATT_OVERHEAD && gattOk && t.p.outstanding > 0)
            && (t.result != Sent ==> t.p.outstanding == p.outstanding)
            && t.p.sealed == p.sealed && t.p.ended == p.ended
            && (t.result == Empty ==> !t.p.d.aborted && !FailsWithRest(p.d, link, gattOk))
            && (t.result != Sent ==> (GivenUp(GiveUp(t.p).d) <==> FailsWithRest(p.d, link, gattOk)))
  {
    hide Held, HasLast, OnlyFinal, Finishes, GetData, Bytes, Front;
    var t := WriteCharacteristic(p, link, gattOk);
    WriteOutcome(p, link, gattOk);
    AbortHolds(t.p.d);
    if link.mtu >= ATT_OVERHEAD {
      GetDataMoves(p.d, link.cap);
      EmptiesExactly(p.d, link.cap);
    }
  }

  /** One block that is the last fits exactly if all of it does. */
  lemma LastFits(s: State, c: Chunk, cap: pos)
    requires Held(s) == [c]
    ensures Empties(s, cap) <==> |c.bytes| <= cap
  {
    hide Held;
    assert Bytes([c]) == c.bytes + Bytes([]) == c.bytes;
  }

  lemma BlockStrands(p: Pump, data: seq<byte>, last: bool, slot: Option<nat>, gattOk: bool, link: Link)
    requires Flow(p) && Regular(p, Block(data, last, slot, gattOk)) && !p.fault
    ensures LeftBehind(Step(p, Block(data, last, slot, gattOk), link)) <==>
            Strands(p, Block(data, last, slot, gattOk), link)
  {
    hide Held, HasLast, OnlyFinal, WriteCharacteristic, Empties, GivenUp, Slots;
    HeldNothing(p.d);
    var p' := Feed(p, data, last, slot);
    FeedKeeps(p, data, last, slot);
    if BlockCb(p.d, data, last, slot).kick {
      TryStrands(p', link, gattOk);
      LastFits(p'.d, Chunk(slot.value, data, last), link.cap);
      hide Feed, BlockCb, GiveUp;
      KickLeaves(p', link, gattOk);
    } else {
      NotGivenUp(p'.d);
    }
  }

  lemma NotGivenUp(d: State)
    ensures GivenUp(d) ==> d.alive && d.aborted && !d.complete
  {}

  /** A wakeup leaves blocks behind exactly if it fails with some left and nothing else is to come. */
  lemma KickLeaves(p: Pump, link: Link, gattOk: bool)
    requires Trying(p)
    ensures LeftBehind(DataAvailable(p, link, gattOk)) <==>
            p.outstanding == 0 && (p.sealed || p.ended) && FailsWithRest(p.d, link, gattOk)
  {
    hide WriteCharacteristic, Trying, Held, Empties, GivenUp;
    TryStrands(p, link, gattOk);
  }

  lemma ResponseStrands(p: Pump, err: bool, gattOk: bool, link: Link)
    requires Flow(p) && p.d.alive && !p.fault && p.outstanding > 0
    ensures LeftBehind(WriteResponse(Answered(p), link, err, gattOk)) <==> Strands(p, Response(err, gattOk), link)
  {
    hide Held, HasLast, OnlyFinal, WriteCharacteristic, Empties;
    AbortHolds(p.d);
    if !err && !p.d.complete {
      TryStrands(Answered(p), link, gattOk);
    }
  }

  lemma EndStrands(p: Pump, ok: bool, gattOk: bool, link: Link)
    requires Flow(p) && p.d.alive && !p.fault
    ensures LeftBehind(Step(p, End(ok, gattOk), link)) <==> Strands(p, End(ok, gattOk), link)
  {
    hide Held, HasLast, OnlyFinal, DataAvailable, Empties, Close;
    AbortKeeps(p);
    HeldNothing(p.d);
    if !ok && !p.d.complete {
      KickLeaves(Aborting(p), link, gattOk);
    }
  }

  /**
   * Exactly these steps leave blocks behind; once some are left behind, only the end of the
   * session is another such step or brings the pump back to writing.
   */
  lemma StrandsExactly(p: Pump, e: Event, link: Link)
    requires Flow(p) && Regular(p, e)
    ensures LeftBehind(Step(p, e, link)) <==> Strands(p, e, link) || (LeftBehind(p) && e.Response?)
  {
    hide Strands, Flow, GivenUp;
    GoneIsNotLeft(p, e, link);
    if p.d.alive {
      match e
      case Block(data, last, slot, gattOk) => BlockStrands(p, data, last, slot, gattOk, link);
      case Response(err, gattOk) =>
        if p.outstanding > 0 {
          ResponseStrands(p, err, gattOk, link);
        } else {
          NoneDue(p, err, gattOk, link);
        }
      case End(ok, gattOk) => EndStrands(p, ok, gattOk, link);
      hide Step;
    }
  }

  lemma GoneIsNotLeft(p: Pump, e: Event, link: Link)
    requires Flow(p)
    ensures p.fault ==> !p.d.alive
    ensures !p.d.alive ==> !LeftBehind(p) && !LeftBehind(Step(p, e, link)) && !Strands(p, e, link)
  {
    hide Held, OnlyFinal, HasLast;
  }

  lemma NoneDue(p: Pump, err: bool, gattOk: bool, link: Link)
    requires p.outstanding == 0
    ensures Step(p, Response(err, gattOk), link) == p && !Strands(p, Response(err, gattOk), link)
  {}

  // ----- Nothing brings them back

  /** The kick of an error end tries another write. */
  predicate Wakes(p: Pump, e: Event, link: Link) {
    e.End? && !e.ok && p.d.cur == None && link.mtu >= ATT_OVERHEAD
  }

  /**
   * A downlink left behind changes exactly with a further block, which frees it, or with an error
   * end while no block is current, which makes the pump try again. Everything else leaves it, and
   * the account of its blocks, as they are.
   */
  lemma StrandedStays(p: Pump, e: Event, link: Link)
    requires Flow(p) && LeftBehind(p)
    ensures var p' := Step(p, e, link);
            && (p'.d == p.d <==> !e.Block? && !Wakes(p, e, link))
            && (p'.d == p.d ==> p'.given == p.given && p'.taken == p.taken && LeftBehind(p'))
  {
    hide Held, HasLast, OnlyFinal, WriteCharacteristic;
    if e.End? && !e.ok {
      assert p.given + [] == p.given;
      KickMoves(Aborting(p), link, e.gattOk);
    }
  }

  lemma KickMoves(p: Pump, link: Link, gattOk: bool)
    requires GivenUp(p.d) && OnlyFinal(Held(p.d))
    ensures var p' := DataAvailable(p, link, gattOk);
            && (link.mtu >= ATT_OVERHEAD ==> p'.d != p.d)
            && (link.mtu < ATT_OVERHEAD ==> p' == p.(finished := p.finished + 1))
  {
    hide Held, HasLast, OnlyFinal, GetData, Bytes;
    if link.mtu < ATT_OVERHEAD {
      assert p.given + [] == p.given;
    } else {
      var got := GetData(p.d, link.cap);
      GetDataMoves(p.d, link.cap);
      AbortHolds(got.s);
      assert !got.last ==> |Bytes(Held(got.s))| < |Bytes(Held(p.d))|;
    }
  }

  /**
   * Once left behind, a downlink and its blocks stay as they are for the rest of a regular run,
   * unless an error end wakes the pump; when the session has ended, they just stay.
   */
  lemma {:induction false} StrandedForever(ps: seq<Pump>, es: seq<Event>, ls: seq<Link>, n: nat, m: nat)
    requires RegularRun(ps, es, ls) && n <= m <= |es| && LeftBehind(ps[n])
    requires ps[n].ended || forall i :: n <= i < m ==> !Wakes(ps[i], es[i], ls[i])
    ensures LeftBehind(ps[m]) && (ps[n].sealed ==> ps[m].sealed) && (ps[n].ended ==> ps[m].ended)
    ensures ps[m].d == ps[n].d && ps[m].given == ps[n].given && ps[m].taken == ps[n].taken
    decreases m
  {
    hide RegularRun, Step, Flow, LeftBehind;
    RegularStart(ps, es, ls);
    if n < m {
      RegularAt(ps, es, ls, m - 1);
      StrandedForever(ps, es, ls, n, m - 1);
      RunFlows(ps, es, ls, m - 1, One());
      StrandedStays(ps[m - 1], es[m - 1], ls[m - 1]);
      HistoryStays(ps[m - 1], es[m - 1], ls[m - 1]);
    }
  }

  lemma HistoryStays(p: Pump, e: Event, link: Link)
    ensures p.sealed ==> Step(p, e, link).sealed
    ensures p.ended ==> Step(p, e, link).ended
    ensures LeftBehind(p) && Regular(p, e) ==> !e.Block?
  {
    hide WriteCharacteristic, Abort, Close, BlockCb, GivenUp, HasPacket, Dry, Finishes;
    match e
    case Block(data, last, slot, gattOk) => WriteOutcome(Feed(p, data, last, slot), link, gattOk);
    case Response(err, gattOk) =>
      if p.outstanding > 0 {
        WriteOutcome(Answered(p), link, gattOk);
      }
    case End(ok, gattOk) => WriteOutcome(Aborting(p), link, gattOk);
  }

  /** One of the first n steps left blocks behind, and only responses came since. */
  predicate StrandedBefore(ps: seq<Pump>, es: seq<Event>, ls: seq<Link>, n: nat)
    requires n <= |es| <= |ps| && |ls| == |es|
  {
    exists j :: 0 <= j < n && Strands(ps[j], es[j], ls[j]) && forall i :: j < i < n ==> es[i].Response?
  }

  lemma StrandedStep(ps: seq<Pump>, es: seq<Event>, ls: seq<Link>, n: nat)
    requires n <= |es| <= |ps| && |ls| == |es|
    ensures StrandedBefore(ps, es, ls, n) <==>
            n > 0 && (Strands(ps[n - 1], es[n - 1], ls[n - 1]) ||
                      (StrandedBefore(ps, es, ls, n - 1) && es[n - 1].Response?))
  {
    hide Strands;
    if StrandedBefore(ps, es, ls, n) {
      var j :| 0 <= j < n && Strands(ps[j], es[j], ls[j]) && forall i :: j < i < n ==> es[i].Response?;
      assert j < n - 1 ==> es[n - 1].Response?;
    }
    if n > 0 && StrandedBefore(ps, es, ls, n - 1) && es[n - 1].Response? {
      var j :| 0 <= j < n - 1 && Strands(ps[j], es[j], ls[j]) && forall i :: j < i < n - 1 ==> es[i].Response?;
      assert forall i :: j < i < n ==> es[i].Response?;
    }
  }

  /**
   * Over every run, whatever fails: a downlink is left behind if and only if one of the steps left
   * it so and nothing but responses came since.
   */
  lemma {:induction false} StrandedExactly(ps: seq<Pump>, es: seq<Event>, ls: seq<Link>, n: nat)
    requires RegularRun(ps, es, ls) && n <= |es|
    ensures |ps| == |es| + 1 && |ls| == |es|
    ensures LeftBehind(ps[n]) <==> StrandedBefore(ps, es, ls, n)
    decreases n
  {
    hide StrandedBefore, RegularRun, Step, Strands, LeftBehind, Flow, Regular;
    RegularStart(ps, es, ls);
    StrandedStep(ps, es, ls, n);
    if n == 0 {
      BeginIsNotLeft();
    } else {
      RegularAt(ps, es, ls, n - 1);
      StrandedExactly(ps, es, ls, n - 1);
      RunFlows(ps, es, ls, n - 1, One());
      StrandsExactly(ps[n - 1], es[n - 1], ls[n - 1]);
    }
  }

  lemma BeginIsNotLeft()
    ensures !LeftBehind(Begin())
  {}

  /**
   * So once no response is due and no further block comes, blocks have stayed behind if and only
   * if one of the steps left them and nothing but responses came since.
   */
  lemma LeftBehindExactly(ps: seq<Pump>, es: seq<Event>, ls: seq<Link>, n: nat)
    requires RegularRun(ps, es, ls) && n <= |es| && ps[n].outstanding == 0 && (ps[n].sealed || ps[n].ended)
    ensures |ps| == |es| + 1 && |ls| == |es|
    ensures multiset(ps[n].given) != multiset(ps[n].taken) <==> StrandedBefore(ps, es, ls, n)
  {
    AllGivenBack(ps, es, ls, n);
    StrandedExactly(ps, es, ls, n);
    hide RegularRun, StrandedBefore, GivenUp;
  }

  /**
   * An error end in the middle of a block: the abort comes with a block current, so that nothing
   * kicks the pump, the response due fails, and no further block comes to free the downlink.
   */
  lemma ErrorEndLeavesBlock(a: byte, c: byte, mtu: nat, gattOk: bool)
    requires mtu >= ATT_OVERHEAD
    ensures var link := Link(mtu, 1);
            var p1 := Step(Begin(), Block([a, c], false, Some(0), true), link);
            var p2 := Step(p1, End(false, gattOk), link);
            var p3 := Step(p2, Response(true, gattOk), link);
            && Regular(Begin(), Block([a, c], false, Some(0), true)) && Regular(p1, End(false, gattOk))
            && !p3.sealed && LeftBehind(p3) && p3.taken == [0] && p3.given == []
  {
    var link, chunk := Link(mtu, 1), Chunk(0, [a, c], false);
    var p0 := Feed(Begin(), [a, c], false, Some(0));
    assert Held(p0.d) == [chunk] && [chunk][0] == chunk && [chunk][1..] == [];
    assert [a, c][..1] == [a] && [a, c][1..] == [c];
    assert Take([chunk], 1) == Taken([a], [Chunk(0, [c], false)] + [], false, []);
    var p1 := Step(Begin(), Block([a, c], false, Some(0), true), link);
    assert p1.d == State(true, Some(Chunk(0, [c], false)), [], false, false, false);
    assert p1.outstanding == 1 && p1.given == [] + [] && p1.taken == [] + [0];
    hide Take, GetData;
  }
}
