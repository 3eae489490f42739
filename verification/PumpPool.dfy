/** Any number of nodes' pumps on one slab, whatever fails: which steps lose blocks of the slab. */
module PumpPool {
  import opened Base
  import opened DownlinkSpec
  import opened Holdings
  import opened PumpSpec
  import opened PumpBlocks
  import Downlinks = Pool

  /** The free list and the pumps ever started. */
  datatype Pool = Pool(free: seq<nat>, ps: seq<Pump>)

  datatype Event =
    | Start
    | On(i: nat, e: PumpSpec.Event, link: Link)

  function Fresh(count: nat): Pool {
    Pool(Downlinks.Start(count).free, [])
  }

  function Head(free: seq<nat>): Option<nat> {
    if free == [] then None else Some(free[0])
  }

  /** The cloud session of each pump is regular, and a block takes what the slab has. */
  predicate Allowed(q: Pool, e: Event) {
    e.On? ==>
      e.i < |q.ps| && Regular(q.ps[e.i], e.e) && (e.e.Block? ==> e.e.slot == Head(q.free))
  }

  /** What was added to a list. */
  function Added(a: seq<nat>, c: seq<nat>): seq<nat> {
    if a <= c then c[|a|..] else []
  }

  /** A block taken is the first of the free list; those given back go in front of it. */
  function Step(q: Pool, e: Event): Pool
    requires Allowed(q, e)
  {
    match e
    case Start => q.(ps := q.ps + [Begin()])
    case On(i, e, link) =>
      var p, p' := q.ps[i], PumpSpec.Step(q.ps[i], e, link);
      var rest := if p'.taken == p.taken || q.free == [] then q.free else q.free[1..];
      Pool(Release(rest, Added(p.given, p'.given)), q.ps[i := p'])
  }

  // ----- A step gives back blocks, and takes at most the one the slab has for its block

  predicate GivesOnly(p: Pump, p': Pump) {
    p.given <= p'.given && p'.taken == p.taken
  }

  lemma WriteGives(p: Pump, link: Link, gattOk: bool)
    ensures GivesOnly(p, WriteCharacteristic(p, link, gattOk).p)
    ensures GivesOnly(p, GiveUp(WriteCharacteristic(p, link, gattOk).p))
  {
    hide GetData, Abort;
  }

  lemma Grows(p: Pump, e: PumpSpec.Event, link: Link)
    ensures var p' := PumpSpec.Step(p, e, link);
            p.given <= p'.given &&
            (p'.taken == p.taken || (e.Block? && e.slot.Some? && p'.taken == p.taken + [e.slot.value]))
  {
    hide WriteCharacteristic, GiveUp, Abort, Close, FlushAndClose;
    match e
    case Block(data, last, slot, gattOk) => WriteGives(Feed(p, data, last, slot), link, gattOk);
    case Response(err, gattOk) =>
      if p.outstanding > 0 {
        WriteGives(Answered(p), link, gattOk);
        GiveUpGives(Answered(p));
      }
    case End(ok, gattOk) => WriteGives(Aborting(p), link, gattOk);
  }

  lemma GiveUpGives(p: Pump)
    ensures GivesOnly(p, GiveUp(p))
  {}

  // ----- Where the blocks are

  function Downs(ps: seq<Pump>): seq<State> {
    seq(|ps|, i requires 0 <= i < |ps| => ps[i].d)
  }

  function AllHeld(q: Pool): seq<nat> {
    Downlinks.AllHeld(Downs(q.ps))
  }

  function Total(q: Pool, f: nat -> nat): nat {
    Weigh(q.free, f) + Weigh(AllHeld(q), f)
  }

  predicate Sound(q: Pool, f: nat -> nat) {
    forall i :: 0 <= i < |q.ps| ==> Flow(q.ps[i]) && Balanced(q.ps[i], f)
  }

  /** What a pump takes from the slab, less what it gives back, is what it holds more. */
  lemma PumpMoves(p: Pump, e: PumpSpec.Event, link: Link, f: nat -> nat)
    requires Flow(p) && Regular(p, e) && Balanced(p, f)
    ensures var p' := PumpSpec.Step(p, e, link);
            && Flow(p') && Balanced(p', f)
            && Holding(p'.d, f) + Weigh(Added(p.given, p'.given), f)
            == Holding(p.d, f) + Weigh(Added(p.taken, p'.taken), f)
  {
    hide PumpSpec.Step, Flow, Regular, Holding, Weigh;
    var p' := PumpSpec.Step(p, e, link);
    Grows(p, e, link);
    FlowStep(p, e, link);
    BalanceStep(p, e, link, f);
    AddedWeighs(p.given, p'.given, f);
    AddedWeighs(p.taken, p'.taken, f);
  }

  lemma AddedWeighs(a: seq<nat>, c: seq<nat>, f: nat -> nat)
    requires a <= c
    ensures Weigh(c, f) == Weigh(a, f) + Weigh(Added(a, c), f)
  {
    assert c == a + c[|a|..];
    WeighConcat(a, c[|a|..], f);
  }

  /** A block taken is the first free one. */
  lemma TakesHead(free: seq<nat>, taken: seq<nat>, taken': seq<nat>, f: nat -> nat)
    requires taken' == taken || (free != [] && taken' == taken + [free[0]])
    ensures Weigh(free, f) ==
            Weigh(if taken' == taken || free == [] then free else free[1..], f) + Weigh(Added(taken, taken'), f)
  {
    if taken' == taken {
      assert Added(taken, taken) == [];
    } else {
      assert taken + [free[0]] != taken by { assert |taken + [free[0]]| > |taken|; }
      assert Added(taken, taken') == [free[0]];
      assert [free[0]][1..] == [];
    }
  }

  lemma DownsReplaced(ps: seq<Pump>, i: nat, p: Pump)
    requires i < |ps|
    ensures Downs(ps[i := p]) == Downs(ps)[i := p.d]
  {}

  lemma DownsStarted(ps: seq<Pump>)
    ensures Downs(ps + [Begin()]) == Downs(ps) + [Opened()]
  {}

  lemma StepConserves(q: Pool, e: Event, f: nat -> nat)
    requires Allowed(q, e) && Sound(q, f)
    ensures Sound(Step(q, e), f) && Total(Step(q, e), f) == Total(q, f)
  {
    hide PumpSpec.Step, Regular, Flow, Balanced, Downs, Downlinks.AllHeld, Holding, Weigh, Release, Added;
    match e
    case Start =>
      BeginFlows();
      BeginBalances(f);
      DownsStarted(q.ps);
      Downlinks.HeldOpened(Downs(q.ps));
    case On(i, e, link) =>
      var p, p' := q.ps[i], PumpSpec.Step(q.ps[i], e, link);
      PumpMoves(p, e, link, f);
      Grows(p, e, link);
      TakesHead(q.free, p.taken, p'.taken, f);
      var rest := if p'.taken == p.taken || q.free == [] then q.free else q.free[1..];
      ReleaseAdds(rest, Added(p.given, p'.given), f);
      DownsReplaced(q.ps, i, p');
      DownsAt(q.ps, i);
      Downlinks.HeldReplaced(Downs(q.ps), i, p'.d, f);
  }

  lemma DownsAt(ps: seq<Pump>, i: nat)
    requires i < |ps|
    ensures |Downs(ps)| == |ps| && Downs(ps)[i] == ps[i].d
  {}

  // ----- Runs

  /** A run: each state but the first is where the event between leads the state before it. */
  predicate IsRun(qs: seq<Pool>, es: seq<Event>, count: nat) {
    && |qs| == |es| + 1 && qs[0] == Fresh(count)
    && forall i :: 0 <= i < |es| ==> Allowed(qs[i], es[i]) && qs[i + 1] == Step(qs[i], es[i])
  }

  lemma RunAt(qs: seq<Pool>, es: seq<Event>, count: nat, i: nat)
    requires IsRun(qs, es, count) && i < |es|
    ensures |qs| == |es| + 1 && Allowed(qs[i], es[i]) && qs[i + 1] == Step(qs[i], es[i])
  {}

  lemma RunStart(qs: seq<Pool>, es: seq<Event>, count: nat)
    requires IsRun(qs, es, count)
    ensures |qs| == |es| + 1 && qs[0] == Fresh(count)
  {}

  lemma {:induction false} RunConserves(qs: seq<Pool>, es: seq<Event>, count: nat, n: nat, f: nat -> nat)
    requires IsRun(qs, es, count) && n <= |es|
    ensures Sound(qs[n], f) && Total(qs[n], f) == Weigh(Downlinks.Start(count).free, f)
    decreases n
  {
    hide IsRun, Step, Sound, Allowed, Total;
    RunStart(qs, es, count);
    if n == 0 {
      FreshIsSound(count, f);
    } else {
      RunAt(qs, es, count, n - 1);
      RunConserves(qs, es, count, n - 1, f);
      StepConserves(qs[n - 1], es[n - 1], f);
    }
  }

  lemma FreshIsSound(count: nat, f: nat -> nat)
    ensures Sound(Fresh(count), f) && Total(Fresh(count), f) == Weigh(Downlinks.Start(count).free, f)
  {
    assert Downs([]) == [];
  }

  /** Over every run of any number of pumps, each block of the slab is in one place, free or held by one pump. */
  lemma EachBlockOnce(qs: seq<Pool>, es: seq<Event>, count: nat, n: nat, x: nat)
    requires IsRun(qs, es, count) && n <= |es|
    ensures Weigh(qs[n].free, Is(x)) + Weigh(AllHeld(qs[n]), Is(x)) == if x < count then 1 else 0
    ensures |qs[n].free| + |AllHeld(qs[n])| == count
  {
    hide IsRun, Sound, AllHeld;
    RunStart(qs, es, count);
    RunConserves(qs, es, count, n, Is(x));
    RunConserves(qs, es, count, n, One());
    Downlinks.CountUp(count, x);
    WeighOnes(qs[n].free);
    WeighOnes(AllHeld(qs[n]));
    WeighOnes(Downlinks.Start(count).free);
  }

  // ----- What does not come back

  /** The blocks a pump left behind. */
  function Kept(p: Pump): nat {
    if LeftBehind(p) then |Held(p.d)| else 0
  }

  function AllKept(ps: seq<Pump>): nat {
    if ps == [] then 0 else Kept(ps[0]) + AllKept(ps[1..])
  }

  /** No response is due to the pump and no further block comes for it. */
  predicate AtRest(p: Pump) {
    p.outstanding == 0 && (p.sealed || p.ended)
  }

  lemma RestKeeps(p: Pump)
    requires Flow(p) && AtRest(p)
    ensures |Slots(Held(p.d))| == Kept(p)
  {
    hide Held, OnlyFinal, HasLast;
    NoChunks();
  }

  lemma SoundAt(q: Pool, f: nat -> nat, i: nat)
    requires Sound(q, f) && i < |q.ps|
    ensures Flow(q.ps[i]) && Balanced(q.ps[i], f)
  {}

  lemma {:induction false} AllRestKeep(ps: seq<Pump>)
    requires forall i :: 0 <= i < |ps| ==> Flow(ps[i]) && AtRest(ps[i])
    ensures |Downlinks.AllHeld(Downs(ps))| == AllKept(ps)
  {
    hide Flow, AtRest, Kept, Held, Slots;
    if ps == [] {
      assert Downs(ps) == [];
    } else {
      RestKeeps(ps[0]);
      AllRestKeep(ps[1..]);
      DownsTail(ps);
    }
  }

  lemma DownsTail(ps: seq<Pump>)
    requires ps != []
    ensures |Downs(ps)| == |ps| && Downs(ps)[0] == ps[0].d && Downs(ps)[1..] == Downs(ps[1..])
  {}

  lemma {:induction false} KeptNothing(ps: seq<Pump>)
    ensures AllKept(ps) == 0 <==> forall i :: 0 <= i < |ps| ==> !LeftBehind(ps[i])
  {
    if ps != [] {
      KeptNothing(ps[1..]);
      assert Held(ps[0].d) == [] ==> !LeftBehind(ps[0]);
      hide LeftBehind, Held;
      assert (forall i :: 0 <= i < |ps| ==> !LeftBehind(ps[i])) <==>
             (!LeftBehind(ps[0]) && forall i :: 0 <= i < |ps[1..]| ==> !LeftBehind(ps[1..][i])) by {
        assert forall i :: 0 < i < |ps| ==> ps[i] == ps[1..][i - 1];
      }
    }
  }

  /**
   * When every pump is at rest, the blocks missing from the slab are those left behind: the slab
   * is whole again if and only if no pump left any.
   */
  lemma SlabIsBack(qs: seq<Pool>, es: seq<Event>, count: nat, n: nat)
    requires IsRun(qs, es, count) && n <= |es|
    requires forall i :: 0 <= i < |qs[n].ps| ==> AtRest(qs[n].ps[i])
    ensures |qs[n].free| + AllKept(qs[n].ps) == count
    ensures |qs[n].free| == count <==> forall i :: 0 <= i < |qs[n].ps| ==> !LeftBehind(qs[n].ps[i])
  {
    hide IsRun, Flow, AtRest, LeftBehind, AllKept, Balanced, Downlinks.AllHeld;
    RunStart(qs, es, count);
    RunConserves(qs, es, count, n, One());
    EachBlockOnce(qs, es, count, n, 0);
    AllRestKeep(qs[n].ps);
    KeptNothing(qs[n].ps);
  }

  lemma {:induction false} KeptReplaced(ps: seq<Pump>, i: nat, p: Pump)
    requires i < |ps|
    ensures AllKept(ps[i := p]) + Kept(ps[i]) == AllKept(ps) + Kept(p)
  {
    hide Kept;
    var ps' := ps[i := p];
    if i == 0 {
      assert ps'[1..] == ps[1..];
    } else {
      KeptReplaced(ps[1..], i - 1, p);
      assert ps'[1..] == ps[1..][i - 1 := p];
    }
  }

  lemma {:induction false} KeptStarted(ps: seq<Pump>)
    ensures AllKept(ps + [Begin()]) == AllKept(ps)
  {
    if ps == [] {
      BeginIsNotLeft();
      assert [Begin()][1..] == [];
    } else {
      hide Kept;
      KeptStarted(ps[1..]);
      assert (ps + [Begin()])[1..] == ps[1..] + [Begin()];
    }
  }

  /** A step of a pump that left blocks behind does not give it more of them. */
  lemma KeepsNoMore(p: Pump, e: PumpSpec.Event, link: Link)
    requires Flow(p) && Regular(p, e) && LeftBehind(p)
    ensures Kept(PumpSpec.Step(p, e, link)) <= Kept(p)
    ensures Kept(PumpSpec.Step(p, e, link)) < Kept(p) ==> Wakes(p, e, link)
  {
    hide Held, Flow, WriteCharacteristic;
    StrandedStays(p, e, link);
    HistoryStays(p, e, link);
    if Wakes(p, e, link) {
      KickShrinks(Aborting(p), link, e.gattOk);
      hide DataAvailable;
    } else {
      hide PumpSpec.Step;
    }
  }

  lemma KickShrinks(p: Pump, link: Link, gattOk: bool)
    requires p.d.alive && !p.d.complete
    ensures |Held(DataAvailable(p, link, gattOk).d)| <= |Held(p.d)|
  {
    hide Held, GetData;
    var got := GetData(p.d, link.cap);
    ReadShrinks(p.d, link.cap);
    AbortHolds(got.s);
    AbortHolds(p.d);
  }

  lemma LossStep(q: Pool, e: Event)
    requires Allowed(q, e) && (e.On? ==> Flow(q.ps[e.i]))
    ensures var gone, gone' := AllKept(q.ps), AllKept(Step(q, e).ps);
            if e.Start? then gone' == gone
            else
              var p := q.ps[e.i];
              && (gone' > gone <==> !LeftBehind(p) && Strands(p, e.e, e.link))
              && (gone' > gone ==> gone' == gone + |Held(PumpSpec.Step(p, e.e, e.link).d)|)
              && (gone' < gone ==> LeftBehind(p) && Wakes(p, e.e, e.link))
  {
    hide PumpSpec.Step, Flow, Regular, Strands, Wakes, Release, Added, AllKept;
    match e
    case Start => KeptStarted(q.ps);
    case On(i, ev, link) =>
      var p, p' := q.ps[i], PumpSpec.Step(q.ps[i], ev, link);
      KeptReplaced(q.ps, i, p');
      StrandsExactly(p, ev, link);
      if LeftBehind(p) {
        KeepsNoMore(p, ev, link);
      } else {
        assert Held(p'.d) == [] ==> !LeftBehind(p');
      }
      hide LeftBehind, Held;
  }

  /**
   * Over every run, exactly which steps lose blocks of the slab: those of
   * `PumpBlocks.Strands` by a pump that has left none behind yet, and each loses what that pump
   * then holds. Blocks are won back only by an error end that wakes a pump which left some.
   */
  lemma LossExactly(qs: seq<Pool>, es: seq<Event>, count: nat, n: nat)
    requires IsRun(qs, es, count) && n < |es|
    ensures var gone, gone', e := AllKept(qs[n].ps), AllKept(qs[n + 1].ps), es[n];
            && (gone' > gone <==>
                  e.On? && !LeftBehind(qs[n].ps[e.i]) && Strands(qs[n].ps[e.i], e.e, e.link))
            && (gone' > gone ==> gone' == gone + |Held(qs[n + 1].ps[e.i].d)|)
            && (gone' < gone ==> e.On? && LeftBehind(qs[n].ps[e.i]) && Wakes(qs[n].ps[e.i], e.e, e.link))
  {
    hide IsRun, AllKept, LeftBehind, Strands, Wakes, Flow, Balanced, Held, PumpSpec.Step;
    RunAt(qs, es, count, n);
    RunConserves(qs, es, count, n, One());
    LossStep(qs[n], es[n]);
  }

  /** In a run, pump i is left alone by an error end that would wake it. */
  predicate NotWoken(q: Pool, e: Event, i: nat)
    requires i < |q.ps|
  {
    e.On? && e.i == i ==> !Wakes(q.ps[i], e.e, e.link)
  }

  lemma LeftStep(q: Pool, e: Event, i: nat)
    requires Allowed(q, e) && i < |q.ps| && Flow(q.ps[i]) && LeftBehind(q.ps[i])
    requires q.ps[i].ended || NotWoken(q, e, i)
    ensures var q' := Step(q, e);
            && i < |q'.ps| && q'.ps[i].d == q.ps[i].d && LeftBehind(q'.ps[i])
            && (q.ps[i].ended ==> q'.ps[i].ended)
  {
    hide PumpSpec.Step, Flow, LeftBehind, Release, Added;
    if e.On? && e.i == i {
      StrandedStays(q.ps[i], e.e, e.link);
      HistoryStays(q.ps[i], e.e, e.link);
    }
  }

  /** What a pump left behind stays: whatever the others do, it holds the same blocks, and none of them is ever free. */
  lemma {:induction false} LeftForever(qs: seq<Pool>, es: seq<Event>, count: nat, i: nat, n: nat, m: nat)
    requires IsRun(qs, es, count) && n <= m <= |es| && i < |qs[n].ps| && LeftBehind(qs[n].ps[i])
    requires qs[n].ps[i].ended || forall k :: n <= k < m && i < |qs[k].ps| ==> NotWoken(qs[k], es[k], i)
    ensures i < |qs[m].ps| && qs[m].ps[i].d == qs[n].ps[i].d && LeftBehind(qs[m].ps[i])
    ensures qs[n].ps[i].ended ==> qs[m].ps[i].ended
    decreases m
  {
    hide IsRun, Step, LeftBehind, NotWoken, Flow, Sound, Total, Allowed;
    RunStart(qs, es, count);
    if n < m {
      RunAt(qs, es, count, m - 1);
      LeftForever(qs, es, count, i, n, m - 1);
      RunConserves(qs, es, count, m - 1, One());
      SoundAt(qs[m - 1], One(), i);
      LeftStep(qs[m - 1], es[m - 1], i);
    }
  }

  lemma StrandedNeverFree(qs: seq<Pool>, es: seq<Event>, count: nat, i: nat, n: nat, m: nat, x: nat)
    requires IsRun(qs, es, count) && n <= m <= |es| && i < |qs[n].ps| && LeftBehind(qs[n].ps[i])
    requires qs[n].ps[i].ended || forall k :: n <= k < m && i < |qs[k].ps| ==> NotWoken(qs[k], es[k], i)
    requires x in Slots(Held(qs[n].ps[i].d))
    ensures x !in qs[m].free
  {
    hide IsRun, Held, Slots, LeftBehind, NotWoken, Downlinks.AllHeld;
    RunStart(qs, es, count);
    LeftForever(qs, es, count, i, n, m);
    EachBlockOnce(qs, es, count, m, x);
    DownsAt(qs[m].ps, i);
    Downlinks.HeldAmongAll(Downs(qs[m].ps), i, Is(x));
    WeighOccurrences(Slots(Held(qs[m].ps[i].d)), x);
    WeighOccurrences(qs[m].free, x);
  }
}
