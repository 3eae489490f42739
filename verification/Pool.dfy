/** Any number of downlinks on one slab: where every block of the slab is, over every run. */
module Pool {
  import opened Base
  import opened DownlinkSpec
  import opened Holdings

  /** The free list, the downlinks ever opened, and the blocks dropped by a close. */
  datatype Pool = Pool(free: seq<nat>, ds: seq<State>, lost: seq<nat>)

  datatype Event =
    | Open
    | Feed(i: nat, data: seq<byte>, last: bool)
    | Get(i: nat, cap: nat)
    | Cancel(i: nat)
    | Shut(i: nat)

  function Start(count: nat): Pool {
    Pool(seq(count, i => i), [], [])
  }

  predicate Legal(p: Pool, e: Event) {
    e.Open? || (e.i < |p.ds| && p.ds[e.i].alive)
  }

  function Step(p: Pool, e: Event): Pool
    requires Legal(p, e)
  {
    match e
    case Open => p.(ds := p.ds + [Opened()])
    case Feed(i, data, last) =>
      var fed := BlockCb(p.ds[i], data, last, if p.free == [] then None else Some(p.free[0]));
      p.(ds := p.ds[i := fed.s],
         free := if fed.status == Accepted then p.free[1..] else Release(p.free, fed.freed))
    case Get(i, cap) =>
      var got := GetData(p.ds[i], cap);
      p.(ds := p.ds[i := got.s], free := Release(p.free, got.freed))
    case Cancel(i) =>
      Ended(p, i, Abort(p.ds[i]))
    case Shut(i) =>
      Ended(p, i, Close(p.ds[i]))
  }

  /** A close forgets what is still queued. */
  function Ended(p: Pool, i: nat, left: Left): Pool
    requires i < |p.ds|
  {
    Pool(Release(p.free, left.freed), p.ds[i := left.s],
         p.lost + if left.s.alive then [] else Slots(p.ds[i].q))
  }

  function AllHeld(ds: seq<State>): seq<nat> {
    if ds == [] then [] else Slots(Held(ds[0])) + AllHeld(ds[1..])
  }

  /** Every block somewhere: free, held by a downlink, or lost. */
  function Everywhere(p: Pool, f: nat -> nat): nat {
    Weigh(p.free, f) + Weigh(AllHeld(p.ds), f) + Weigh(p.lost, f)
  }

  lemma {:induction false} HeldReplaced(ds: seq<State>, i: nat, d: State, f: nat -> nat)
    requires i < |ds|
    ensures Weigh(AllHeld(ds[i := d]), f) + Holding(ds[i], f) == Weigh(AllHeld(ds), f) + Holding(d, f)
  {
    hide Slots, Held, Weigh;
    var ds' := ds[i := d];
    WeighConcat(Slots(Held(ds[0])), AllHeld(ds[1..]), f);
    WeighConcat(Slots(Held(ds'[0])), AllHeld(ds'[1..]), f);
    if i == 0 {
      assert ds'[1..] == ds[1..];
    } else {
      HeldReplaced(ds[1..], i - 1, d, f);
      assert ds'[1..] == ds[1..][i - 1 := d];
    }
  }

  lemma {:induction false} HeldAmongAll(ds: seq<State>, i: nat, f: nat -> nat)
    requires i < |ds|
    ensures Holding(ds[i], f) <= Weigh(AllHeld(ds), f)
  {
    hide Slots, Held;
    WeighConcat(Slots(Held(ds[0])), AllHeld(ds[1..]), f);
    if i > 0 {
      HeldAmongAll(ds[1..], i - 1, f);
    }
  }

  lemma {:induction false} HeldOpened(ds: seq<State>)
    ensures AllHeld(ds + [Opened()]) == AllHeld(ds)
  {
    if ds == [] {
      assert Held(Opened()) == [] && Slots([]) == [];
      assert [Opened()][1..] == [];
    } else {
      HeldOpened(ds[1..]);
      assert (ds + [Opened()])[1..] == ds[1..] + [Opened()];
    }
  }

  /** An abort that leaves the downlink in use moves no block. */
  lemma AbortMoves(p: Pool, i: nat, f: nat -> nat)
    requires i < |p.ds| && p.ds[i].alive && !p.ds[i].complete
    ensures Everywhere(Ended(p, i, Abort(p.ds[i])), f) == Everywhere(p, f)
  {
    hide AllHeld, Held, Slots, Weigh;
    HeldReplaced(p.ds, i, Abort(p.ds[i]).s, f);
    AbortHolds(p.ds[i]);
    assert p.lost + [] == p.lost;
  }

  /** A close gives back the current block and drops those queued. */
  lemma CloseMovesAll(p: Pool, i: nat, d: State, f: nat -> nat)
    requires i < |p.ds| && !d.alive && Held(d) == []
    ensures Everywhere(Ended(p, i, Left(d, Close(p.ds[i]).freed)), f) == Everywhere(p, f)
  {
    HoldsNothing(d, f);
    hide Release, AllHeld, Held, Slots, Close, Weigh, Holding;
    ReleaseAdds(p.free, Close(p.ds[i]).freed, f);
    HeldReplaced(p.ds, i, d, f);
    SlotsHeld(p.ds[i], f);
    WeighConcat(p.lost, Slots(p.ds[i].q), f);
  }

  lemma StepConserves(p: Pool, e: Event, f: nat -> nat)
    requires Legal(p, e)
    ensures Everywhere(Step(p, e), f) == Everywhere(p, f)
  {
    match e
    case Open => HeldOpened(p.ds);
    case Feed(i, data, last) => FeedConserves(p, i, data, last, f);
    case Get(i, cap) => GetConserves(p, i, cap, f);
    case Cancel(i) =>
      if p.ds[i].complete {
        CloseMovesAll(p, i, Abort(p.ds[i]).s, f);
      } else {
        AbortMoves(p, i, f);
      }
    case Shut(i) => CloseMovesAll(p, i, Close(p.ds[i]).s, f);
  }

  lemma GetConserves(p: Pool, i: nat, cap: nat, f: nat -> nat)
    requires i < |p.ds| && p.ds[i].alive
    ensures Everywhere(Step(p, Get(i, cap)), f) == Everywhere(p, f)
  {
    hide GetData, Release, AllHeld, Holding, Weigh;
    var got := GetData(p.ds[i], cap);
    GetMoves(p.ds[i], cap, f);
    ReleaseAdds(p.free, got.freed, f);
    HeldReplaced(p.ds, i, got.s, f);
  }

  lemma FeedConserves(p: Pool, i: nat, data: seq<byte>, last: bool, f: nat -> nat)
    requires i < |p.ds| && p.ds[i].alive
    ensures Everywhere(Step(p, Feed(i, data, last)), f) == Everywhere(p, f)
  {
    hide BlockCb, Release, AllHeld, Holding;
    var slot := if p.free == [] then None else Some(p.free[0]);
    var fed := BlockCb(p.ds[i], data, last, slot);
    FeedMoves(p.ds[i], data, last, slot, f);
    if Held(fed.s) == [] {
      HoldsNothing(fed.s, f);
    }
    HeldReplaced(p.ds, i, fed.s, f);
    ReleaseAdds(p.free, fed.freed, f);
  }

  predicate LegalRun(p: Pool, es: seq<Event>)
    decreases |es|
  {
    es == [] || (Legal(p, es[0]) && LegalRun(Step(p, es[0]), es[1..]))
  }

  function Run(p: Pool, es: seq<Event>): Pool
    requires LegalRun(p, es)
    decreases |es|
  {
    if es == [] then p else Run(Step(p, es[0]), es[1..])
  }

  lemma {:induction false} RunConserves(p: Pool, es: seq<Event>, f: nat -> nat)
    requires LegalRun(p, es)
    ensures Everywhere(Run(p, es), f) == Everywhere(p, f)
    decreases |es|
  {
    if es != [] {
      StepConserves(p, es[0], f);
      RunConserves(Step(p, es[0]), es[1..], f);
    }
  }

  lemma {:induction false} CountUp(count: nat, x: nat)
    ensures Weigh(seq(count, i => i), Is(x)) == if x < count then 1 else 0
  {
    if count > 0 {
      CountUp(count - 1, x);
      assert seq(count, i => i) == seq(count - 1, i => i) + [count - 1];
      WeighConcat(seq(count - 1, i => i), [count - 1], Is(x));
      assert Weigh([count - 1], Is(x)) == Is(x)(count - 1);
    }
  }

  /**
   * Over every run of any number of downlinks, each block of the slab is in exactly one place:
   * free, held by one downlink, or lost; and together they are as many as the slab has.
   */
  lemma EachBlockOnce(count: nat, es: seq<Event>, x: nat)
    requires LegalRun(Start(count), es)
    ensures var p := Run(Start(count), es);
            && Weigh(p.free, Is(x)) + Weigh(AllHeld(p.ds), Is(x)) + Weigh(p.lost, Is(x)) == (if x < count then 1 else 0)
            && |p.free| + |AllHeld(p.ds)| + |p.lost| == count
  {
    var p := Run(Start(count), es);
    RunConserves(Start(count), es, Is(x));
    CountUp(count, x);
    RunConserves(Start(count), es, One());
    WeighOnes(p.free);
    WeighOnes(AllHeld(p.ds));
    WeighOnes(p.lost);
    WeighOnes(Start(count).free);
  }

  // ----- Nothing is lost when nothing follows the last block

  /** Nothing follows the last block of a downlink, and only a complete one is closed outright. */
  predicate Orderly(p: Pool, e: Event) {
    Legal(p, e) && match e
    case Feed(i, _, _) => !HasLast(Held(p.ds[i])) && (p.ds[i].complete ==> p.ds[i].aborted)
    case Shut(i) => p.ds[i].complete
    case _ => true
  }

  predicate OrderlyRun(p: Pool, es: seq<Event>)
    decreases |es|
  {
    es == [] || (Orderly(p, es[0]) && OrderlyRun(Step(p, es[0]), es[1..]))
  }

  predicate Tidy(s: State) {
    OnlyFinal(Held(s)) && (s.complete || !s.alive ==> Held(s) == [])
  }

  predicate TidyPool(p: Pool) {
    p.lost == [] && forall i :: 0 <= i < |p.ds| ==> Tidy(p.ds[i])
  }

  lemma TidyGet(s: State, cap: nat)
    requires Tidy(s) && s.alive
    ensures Tidy(GetData(s, cap).s)
  {
    if !s.complete && cap > 0 {
      GetDataMoves(s, cap);
      hide GetData, Held, OnlyFinal;
    }
  }

  lemma TidyFeed(s: State, data: seq<byte>, last: bool, slot: Option<nat>)
    requires Tidy(s) && s.alive && !HasLast(Held(s)) && (s.complete ==> s.aborted)
    ensures Tidy(BlockCb(s, data, last, slot).s)
  {
    if !s.aborted && slot.Some? {
      assert Held(BlockCb(s, data, last, slot).s) == Held(s) + [Chunk(slot.value, data, last)];
    }
  }

  lemma TidyStep(p: Pool, e: Event)
    requires TidyPool(p) && Orderly(p, e)
    ensures TidyPool(Step(p, e))
  {
    match e
    case Open =>
      assert Held(Opened()) == [];
    case Feed(i, data, last) =>
      TidyFeed(p.ds[i], data, last, if p.free == [] then None else Some(p.free[0]));
    case Get(i, cap) => TidyGet(p.ds[i], cap);
    case Cancel(i) => assert Slots([]) == [];
    case Shut(i) => assert Slots([]) == [];
  }

  /** In orderly runs no block is ever lost: free and held blocks are always the whole slab. */
  lemma {:induction false} OrderlyLosesNothing(p: Pool, es: seq<Event>)
    requires TidyPool(p) && OrderlyRun(p, es)
    ensures LegalRun(p, es) && TidyPool(Run(p, es))
    decreases |es|
  {
    if es != [] {
      TidyStep(p, es[0]);
      OrderlyLosesNothing(Step(p, es[0]), es[1..]);
    }
  }

  lemma SlabIsWhole(count: nat, es: seq<Event>)
    requires OrderlyRun(Start(count), es)
    ensures LegalRun(Start(count), es)
    ensures var p := Run(Start(count), es); p.lost == [] && |p.free| + |AllHeld(p.ds)| == count
  {
    OrderlyLosesNothing(Start(count), es);
    EachBlockOnce(count, es, 0);
  }

  /**
   * Each way a downlink goes away in an orderly run (complete, aborted, out of blocks) gives back
   * exactly the blocks it held.
   */
  lemma ClosingReturnsAll(p: Pool, e: Event, f: nat -> nat)
    requires TidyPool(p) && Orderly(p, e) && !e.Open? && !Step(p, e).ds[e.i].alive
    ensures Weigh(Step(p, e).free, f) == Weigh(p.free, f) + Weigh(Slots(Held(p.ds[e.i])), f)
  {
    var p' := Step(p, e);
    TidyStep(p, e);
    StepConserves(p, e, f);
    assert Tidy(p'.ds[e.i]);
    HoldsNothing(p'.ds[e.i], f);
    HeldReplaced(p.ds, e.i, p'.ds[e.i], f);
    assert p'.ds == p.ds[e.i := p'.ds[e.i]];
    assert Weigh([], f) == 0;
  }

  /** Exactly when a downlink drops blocks: a close that finds the queue not empty. */
  lemma DropsExactly(p: Pool, e: Event)
    requires Legal(p, e)
    ensures |Step(p, e).lost| == |p.lost| + if e.Shut? || (e.Cancel? && p.ds[e.i].complete) then |p.ds[e.i].q| else 0
    ensures Step(p, e).lost != p.lost <==>
            (e.Shut? || (e.Cancel? && p.ds[e.i].complete)) && p.ds[e.i].q != []
  {
    if e.Shut? || e.Cancel? {
      assert |Slots(p.ds[e.i].q)| == |p.ds[e.i].q|;
    }
  }

  /**
   * With two blocks queued behind the last one, the read that completes the downlink makes the
   * first of them current; the close gives that one back and forgets the other.
   */
  lemma BlocksBehindTheLast(a: Chunk, c: Chunk, d: Chunk)
    requires a.last && a.bytes != []
    ensures var got := GetData(Opened().(q := [a, c, d], waiting := false), |a.bytes|);
            got.s.complete && got.freed == [a.slot] && Close(got.s).freed == [c.slot] && Slots(got.s.q) == [d.slot]
  {
    var held := [a, c, d];
    assert held[0] == a && held[1..] == [c, d] && [c, d][1..] == [d];
    assert [] + held == held;
    assert Take(held, |a.bytes|) == Taken(a.bytes, [c, d], true, [a.slot]);
  }
}
