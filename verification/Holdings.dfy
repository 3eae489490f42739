/** Counting slab blocks: what each step of a downlink takes, gives back and keeps. */
module Holdings {
  import opened Base
  import opened DownlinkSpec

  /** A sum over slots: with the weights below, how often a slot occurs or how many there are. */
  function Weigh(slots: seq<nat>, f: nat -> nat): nat {
    if slots == [] then 0 else f(slots[0]) + Weigh(slots[1..], f)
  }

  function Is(x: nat): nat -> nat {
    y => if y == x then 1 else 0
  }

  function One(): nat -> nat {
    _ => 1
  }

  /** The weight of the blocks a downlink holds. */
  function Holding(s: State, f: nat -> nat): nat {
    Weigh(Slots(Held(s)), f)
  }

  lemma {:induction false} WeighConcat(a: seq<nat>, c: seq<nat>, f: nat -> nat)
    ensures Weigh(a + c, f) == Weigh(a, f) + Weigh(c, f)
  {
    if a == [] {
      assert a + c == c;
    } else {
      WeighConcat(a[1..], c, f);
      assert (a + c)[1..] == a[1..] + c;
    }
  }

  lemma {:induction false} WeighOnes(slots: seq<nat>)
    ensures Weigh(slots, One()) == |slots|
  {
    if slots != [] {
      WeighOnes(slots[1..]);
    }
  }

  lemma {:induction false} WeighOccurrences(slots: seq<nat>, x: nat)
    ensures Weigh(slots, Is(x)) == multiset(slots)[x]
  {
    if slots != [] {
      WeighOccurrences(slots[1..], x);
      assert slots == [slots[0]] + slots[1..];
    }
  }

  lemma {:induction false} ReleaseAdds(free: seq<nat>, slots: seq<nat>, f: nat -> nat)
    ensures Weigh(Release(free, slots), f) == Weigh(free, f) + Weigh(slots, f)
    decreases |slots|
  {
    if slots != [] {
      var free' := [slots[0]] + free;
      ReleaseAdds(free', slots[1..], f);
      assert free'[1..] == free;
    }
  }

  lemma HeldParts(s: State)
    ensures Slots(Held(s)) == Close(s).freed + Slots(s.q)
  {}

  lemma SlotsHeld(s: State, f: nat -> nat)
    ensures Holding(s, f) == Weigh(Close(s).freed, f) + Weigh(Slots(s.q), f)
  {
    hide Slots, Held, Close, Weigh;
    HeldParts(s);
    WeighConcat(Close(s).freed, Slots(s.q), f);
  }

  lemma HoldsNothing(s: State, f: nat -> nat)
    requires Held(s) == []
    ensures Slots(Held(s)) == [] && Holding(s, f) == 0
  {}

  /** What a read gives back is what it stops holding. */
  lemma GetMoves(s: State, cap: nat, f: nat -> nat)
    ensures Holding(s, f) == Weigh(GetData(s, cap).freed, f) + Holding(GetData(s, cap).s, f)
  {
    if s.complete || cap == 0 {
      hide Take, Held, Slots;
    } else {
      hide Take, Held, Slots, Bytes, NonEmpty, Weigh;
      var t := Take(Held(s), cap);
      TakeConserves(Held(s), cap);
      HeldOfHold(s, t.rest, GetData(s, cap).s);
      WeighConcat(t.freed, Slots(t.rest), f);
    }
  }

  /** A block accepted is the one taken from the slab; refused, everything held goes back. */
  lemma FeedMoves(s: State, data: seq<byte>, last: bool, slot: Option<nat>, f: nat -> nat)
    ensures var fed := BlockCb(s, data, last, slot);
            if fed.status == Accepted
            then slot.Some? && Holding(fed.s, f) == Holding(s, f) + f(slot.value) && fed.freed == []
            else Weigh(fed.freed, f) == Holding(s, f) && Held(fed.s) == []
  {
    var fed := BlockCb(s, data, last, slot);
    if fed.status == Accepted {
      FeedHolds(s, Chunk(slot.value, data, last), fed.s);
      WeighConcat(Slots(Held(s)), [slot.value], f);
      assert Weigh([slot.value], f) == f(slot.value);
      hide Slots, Held, Weigh;
    } else {
      SlotsHeld(s, f);
      WeighConcat(Slots(s.q), Close(s).freed, f);
      hide Slots, Weigh;
    }
  }

  lemma FeedHolds(s: State, c: Chunk, s': State)
    requires s'.cur == s.cur && s'.q == s.q + [c]
    ensures Held(s') == Held(s) + [c] && Slots(Held(s')) == Slots(Held(s)) + [c.slot]
  {}

  /** A close gives back what is held if nothing is queued. */
  lemma CloseMoves(s: State, f: nat -> nat)
    ensures Holding(Close(s).s, f) == 0
    ensures s.q == [] ==> Holding(s, f) == Weigh(Close(s).freed, f)
  {
    SlotsHeld(s, f);
    HoldsNothing(Close(s).s, f);
  }

  /**
   * An aborted downlink that is not complete and still holds blocks: a further block would free
   * it, and reads would empty it. It keeps its blocks for good when neither comes any more.
   */
  predicate GivenUp(s: State) {
    s.alive && s.aborted && !s.complete && Held(s) != []
  }
}
