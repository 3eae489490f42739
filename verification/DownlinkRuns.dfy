/** Every interleaving of cloud blocks and reads of any size on one downlink, with an abort anywhere. */
module DownlinkRuns {
  import opened Base
  import opened DownlinkSpec
  import Holdings

  datatype Event =
    | Feed(data: seq<byte>, last: bool, slot: nat)
    | Get(cap: nat)
    | Cancel

  /** A downlink with the bytes put in and taken out, the last marks reported, and whether the last block came. */
  datatype History = History(s: State, received: seq<byte>, delivered: seq<byte>, marks: nat, sealed: bool)

  function Start(): History {
    History(Opened(), [], [], 0, false)
  }

  /** Blocks come until the last one or an abort; an abort of a complete downlink would free it. */
  predicate Legal(h: History, e: Event) {
    match e
    case Feed(_, _, _) => !h.sealed && !h.s.aborted
    case Get(_) => true
    case Cancel => !h.s.complete
  }

  function Step(h: History, e: Event): History {
    match e
    case Feed(data, last, slot) =>
      h.(s := BlockCb(h.s, data, last, Some(slot)).s, received := h.received + data, sealed := last)
    case Get(cap) =>
      var got := GetData(h.s, cap);
      h.(s := got.s, delivered := h.delivered + got.bytes, marks := h.marks + (if got.last then 1 else 0))
    case Cancel => h.(s := Abort(h.s).s)
  }

  predicate Inv(h: History) {
    && h.s.alive
    && h.received == h.delivered + Bytes(Held(h.s))
    && OnlyFinal(Held(h.s))
    && h.marks == (if h.s.complete then 1 else 0)
    && (if h.s.complete then Held(h.s) == [] && (h.sealed || h.s.aborted) else h.sealed == HasLast(Held(h.s)))
  }

  lemma FeedKeeps(h: History, data: seq<byte>, last: bool, slot: nat)
    requires Inv(h) && Legal(h, Feed(data, last, slot))
    ensures Inv(Step(h, Feed(data, last, slot)))
  {
    hide Held, Bytes, Slots, OnlyFinal, HasLast;
    var c := Chunk(slot, data, last);
    Holdings.FeedHolds(h.s, c, BlockCb(h.s, data, last, Some(slot)).s);
    Appended(Held(h.s), c);
  }

  lemma GetKeeps(h: History, cap: nat)
    requires Inv(h)
    ensures Inv(Step(h, Get(cap)))
  {
    if !h.s.complete && cap > 0 {
      GetDataMoves(h.s, cap);
      hide GetData, Held, Bytes, OnlyFinal, HasLast;
    }
  }

  lemma StepKeeps(h: History, e: Event)
    requires Inv(h) && Legal(h, e)
    ensures Inv(Step(h, e))
  {
    match e
    case Feed(data, last, slot) => FeedKeeps(h, data, last, slot);
    case Get(cap) => GetKeeps(h, cap);
    case Cancel =>
  }

  predicate LegalRun(h: History, es: seq<Event>)
    decreases |es|
  {
    es == [] || (Legal(h, es[0]) && LegalRun(Step(h, es[0]), es[1..]))
  }

  function Run(h: History, es: seq<Event>): History
    decreases |es|
  {
    if es == [] then h else Run(Step(h, es[0]), es[1..])
  }

  /**
   * Bytes delivered, the rest of the current block and the queue together are the bytes received,
   * after any run. The last mark has been reported once if the downlink is complete, and never
   * before; complete without an abort means that everything up to the last block was delivered.
   */
  lemma {:induction false} StreamRefinement(h: History, es: seq<Event>)
    requires Inv(h) && LegalRun(h, es)
    ensures var h' := Run(h, es);
            && Inv(h')
            && h'.received == h'.delivered + Bytes(Held(h'.s))
            && h'.marks == (if h'.s.complete then 1 else 0)
            && (h'.s.complete ==> h'.delivered == h'.received && (h'.s.aborted || h'.sealed))
    decreases |es|
  {
    if es == [] {
      assert Bytes([]) == [];
    } else {
      StepKeeps(h, es[0]);
      StreamRefinement(Step(h, es[0]), es[1..]);
    }
  }

  lemma StartHolds()
    ensures Inv(Start())
  {
    assert Held(Opened()) == [];
    assert Bytes([]) == [];
  }

  /** Without an abort the mark is reported by exactly the call that uses up the last-marked block. */
  lemma MarkedByTheLastBlock(h: History, cap: nat)
    requires Inv(h) && !h.s.aborted
    ensures var got := GetData(h.s, cap);
            got.last <==> HasLast(Held(h.s)) && !HasLast(Held(got.s))
  {
    if !h.s.complete && cap > 0 {
      GetDataMoves(h.s, cap);
      hide GetData, Held;
    }
  }

  /** A read takes as much as there is room for and due, whatever the sizes of the blocks. */
  lemma ReadIsGreedy(s: State, cap: nat)
    requires !s.complete
    ensures GetData(s, cap).bytes == Due(Held(s))[..Min(cap, |Due(Held(s))|)]
    ensures GetData(s, cap).code == Again ==> |Due(Held(s))| < cap && !HasLast(Held(s)) && !s.aborted
  {
    TakeIsGreedy(Held(s), cap);
    hide Take, Held, Due, HasLast;
  }

  // ----- Draining after an abort

  function Calls(s: State, caps: seq<nat>): (r: seq<Got>)
    ensures |r| == |caps|
    decreases |caps|
  {
    if caps == [] then [] else [GetData(s, caps[0])] + Calls(GetData(s, caps[0]).s, caps[1..])
  }

  function Delivered(gots: seq<Got>): seq<byte> {
    if gots == [] then [] else gots[0].bytes + Delivered(gots[1..])
  }

  lemma {:induction false} CompleteGivesNothing(s: State, caps: seq<nat>)
    requires s.complete
    ensures forall j :: 0 <= j < |caps| ==>
      Calls(s, caps)[j].code == NoData && Calls(s, caps)[j].bytes == [] && !Calls(s, caps)[j].last
    decreases |caps|
  {
    if caps != [] {
      CompleteGivesNothing(s, caps[1..]);
    }
  }

  /** Call i is the one that ends the drain: nothing marked before it, only -ENODATA after it. */
  predicate EndsAt(gots: seq<Got>, i: nat) {
    && (forall j :: 0 <= j < |gots| && j < i ==> gots[j].code == Ok && !gots[j].last)
    && (i < |gots| ==> gots[i].code == Ok && gots[i].last)
    && (forall j :: i < j < |gots| ==> gots[j].code == NoData && gots[j].bytes == [] && !gots[j].last)
  }

  lemma {:induction false} DeliveredCons(got: Got, rest: seq<Got>)
    ensures Delivered([got] + rest) == got.bytes + Delivered(rest)
  {
    assert ([got] + rest)[1..] == rest;
  }

  lemma EndsLater(got: Got, rest: seq<Got>, k: nat)
    requires got.code == Ok && !got.last && EndsAt(rest, k)
    ensures EndsAt([got] + rest, k + 1)
  {
    var gots := [got] + rest;
    assert forall j :: 0 < j < |gots| ==> gots[j] == rest[j - 1];
  }

  lemma EndsNow(got: Got, rest: seq<Got>)
    requires got.code == Ok && got.last
    requires forall j :: 0 <= j < |rest| ==> rest[j].code == NoData && rest[j].bytes == [] && !rest[j].last
    ensures EndsAt([got] + rest, 0)
  {
    var gots := [got] + rest;
    assert forall j :: 0 < j < |gots| ==> gots[j] == rest[j - 1];
  }

  /**
   * After an abort with no further block, reads of any non-zero sizes return every byte still
   * held in order, then the last mark exactly once, then nothing; and the mark comes within one
   * more read than there are bytes.
   */
  lemma {:induction false} AbortDrains(s: State, caps: seq<nat>) returns (i: nat)
    requires s.aborted && !s.complete && OnlyFinal(Held(s))
    requires forall j :: 0 <= j < |caps| ==> caps[j] > 0
    ensures EndsAt(Calls(s, caps), i)
    ensures if i < |caps| then Delivered(Calls(s, caps)[..i + 1]) == Bytes(Held(s))
            else Delivered(Calls(s, caps)) <= Bytes(Held(s))
    ensures |caps| > |Bytes(Held(s))| ==> i < |caps|
    decreases |caps|
  {
    hide GetData, Held, Bytes, OnlyFinal, EndsAt, Delivered;
    i := 0;
    if caps == [] {
      NoCalls();
    } else {
      var got, rest := GetData(s, caps[0]), Calls(GetData(s, caps[0]).s, caps[1..]);
      GetDataMoves(s, caps[0]);
      if got.last {
        CompleteGivesNothing(got.s, caps[1..]);
        EndsNow(got, rest);
        assert ([got] + rest)[..1] == [got] + [];
        DeliveredCons(got, []);
        NoCalls();
      } else {
        var k := AbortDrains(got.s, caps[1..]);
        i := k + 1;
        EndsLater(got, rest, k);
        if k < |rest| {
          assert ([got] + rest)[..i + 1] == [got] + rest[..k + 1];
          DeliveredCons(got, rest[..k + 1]);
        } else {
          DeliveredCons(got, rest);
        }
      }
    }
  }

  lemma NoCalls()
    ensures EndsAt([], 0) && Delivered([]) == [] && Bytes([]) == []
  {}
}
