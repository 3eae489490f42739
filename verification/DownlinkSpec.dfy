/**
 * What each entry point of lib/downlink.c does, on values. A downlink holds slab blocks; it
 * names them by slot, so that giving them back can be followed.
 */
module DownlinkSpec {
  import opened Base

  /** A held block: its slot, the bytes of it not yet delivered, and its last mark. */
  datatype Chunk = Chunk(slot: nat, bytes: seq<byte>, last: bool)

  datatype State = State(
    alive: bool, cur: Option<Chunk>, q: seq<Chunk>, complete: bool, aborted: bool, waiting: bool)

  function Opened(): State {
    State(true, None, [], false, false, true)
  }

  /** The current block and then the queue. */
  function Held(s: State): seq<Chunk> {
    (if s.cur.Some? then [s.cur.value] else []) + s.q
  }

  function Bytes(chunks: seq<Chunk>): seq<byte> {
    if chunks == [] then [] else chunks[0].bytes + Bytes(chunks[1..])
  }

  function Slots(chunks: seq<Chunk>): seq<nat> {
    seq(|chunks|, i requires 0 <= i < |chunks| => chunks[i].slot)
  }

  function Hold(s: State, chunks: seq<Chunk>): State {
    if chunks == [] then s.(cur := None, q := []) else s.(cur := Some(chunks[0]), q := chunks[1..])
  }

  /** Freeing slots one after the other; the slab hands out the slot freed last. */
  function Release(free: seq<nat>, slots: seq<nat>): seq<nat>
    decreases |slots|
  {
    if slots == [] then free else Release([slots[0]] + free, slots[1..])
  }

  lemma {:induction false} ReleaseConcat(free: seq<nat>, a: seq<nat>, c: seq<nat>)
    ensures Release(free, a + c) == Release(Release(free, a), c)
    decreases |a|
  {
    if a == [] {
      assert a + c == c;
    } else {
      ReleaseConcat([a[0]] + free, a[1..], c);
      assert (a + c)[1..] == a[1..] + c;
    }
  }

  lemma {:induction false} ReleaseMembers(free: seq<nat>, slots: seq<nat>)
    ensures forall x :: x in Release(free, slots) <==> x in free || x in slots
    decreases |slots|
  {
    if slots != [] {
      ReleaseMembers([slots[0]] + free, slots[1..]);
    }
  }

  /** What a drain of the held blocks yields: bytes, what stays, whether a last block was used up, slots freed. */
  datatype Taken = Taken(bytes: seq<byte>, rest: seq<Chunk>, last: bool, freed: seq<nat>)

  function Take(chunks: seq<Chunk>, cap: nat): Taken {
    if cap == 0 || chunks == [] then Taken([], chunks, false, [])
    else
      var c := chunks[0];
      if cap < |c.bytes| then
        Taken(c.bytes[..cap], [c.(bytes := c.bytes[cap..])] + chunks[1..], false, [])
      else if c.last then Taken(c.bytes, chunks[1..], true, [c.slot])
      else
        var t := Take(chunks[1..], cap - |c.bytes|);
        Taken(c.bytes + t.bytes, t.rest, t.last, [c.slot] + t.freed)
  }

  /**
   * Where a drain in progress stands: what was copied, followed by the rest of the drain, is the
   * whole drain; and so for the slots given back.
   */
  predicate Resumes(copied: seq<byte>, free: seq<nat>, whole: Taken, part: Taken, free0: seq<nat>) {
    && whole.bytes == copied + part.bytes
    && whole.rest == part.rest && whole.last == part.last
    && Release(free0, whole.freed) == Release(free, part.freed)
  }

  function Min(a: int, c: int): int {
    if a < c then a else c
  }

  /** Delivering from the first held block. */
  lemma TakeStep(held: seq<Chunk>, left: nat, free: seq<nat>)
    requires held != [] && left > 0
    ensures var c, more := held[0], held[1..];
            var n := Min(left, |c.bytes|);
            if n < |c.bytes| then
              Resumes(c.bytes[..n], free, Take(held, left), Take([c.(bytes := c.bytes[n..])] + more, left - n), free)
            else
              Resumes(c.bytes[..n], [c.slot] + free, Take(held, left),
                      if c.last then Taken([], more, true, []) else Take(more, left - n), free)
  {}

  lemma ResumesThen(out: seq<byte>, more: seq<byte>, free: seq<nat>, free1: seq<nat>, free0: seq<nat>,
                    whole: Taken, part: Taken, end: Taken)
    requires Resumes(out, free1, whole, part, free0) && Resumes(more, free, part, end, free1)
    ensures Resumes(out + more, free, whole, end, free0)
  {}

  lemma ResumesAtOnce(whole: Taken, free: seq<nat>)
    ensures Resumes([], free, whole, whole, free)
  {}

  /** A drain without room, without blocks or past a last block takes nothing more. */
  lemma DrainDone(copied: seq<byte>, free: seq<nat>, whole: Taken, held: seq<Chunk>, left: nat, isLast: bool,
                  free0: seq<nat>)
    requires isLast || left == 0 || held == []
    requires Resumes(copied, free, whole, if isLast then Taken([], held, true, []) else Take(held, left), free0)
    ensures whole.bytes == copied && whole.rest == held && whole.last == isLast
    ensures free == Release(free0, whole.freed)
  {}

  /** The results 0, -EAGAIN and -ENODATA. */
  datatype Code = Ok | Again | NoData

  datatype Got = Got(s: State, code: Code, bytes: seq<byte>, last: bool, freed: seq<nat>)

  function GetData(s: State, cap: nat): Got {
    if s.complete then Got(s, NoData, [], false, [])
    else if cap == 0 then Got(s, Ok, [], false, [])
    else
      var t := Take(Held(s), cap);
      Settle(Hold(s, t.rest), t, cap)
  }

  /** How a drain to `cap` bytes is reported: the last mark, full, the end of an abort, or dry. */
  function Settle(s: State, t: Taken, cap: nat): Got {
    if t.last then Got(s.(complete := true), Ok, t.bytes, true, t.freed)
    else if |t.bytes| == cap then Got(s, Ok, t.bytes, false, t.freed)
    else if s.aborted then Got(s.(complete := true), Ok, t.bytes, true, t.freed)
    else Got(s.(waiting := s.waiting || t.bytes == []), Again, t.bytes, false, t.freed)
  }

  /** A state and the slots given back on the way to it. */
  datatype Left = Left(s: State, freed: seq<nat>)

  function Freed(s: State): State {
    s.(alive := false, cur := None, q := [])
  }

  /** Closing gives back the current block only; blocks still queued are not given back. */
  function Close(s: State): Left {
    Left(Freed(s), if s.cur.Some? then [s.cur.value.slot] else [])
  }

  function FlushAndClose(s: State): Left {
    Left(Freed(s), Slots(s.q) + Close(s).freed)
  }

  function Abort(s: State): Left {
    var s' := s.(aborted := true);
    if s.complete then Close(s') else Left(s', [])
  }

  datatype Status = Accepted | Nack | MemAlloc

  /** `kick` says that the data-available callback is called. */
  datatype Fed = Fed(s: State, status: Status, kick: bool, freed: seq<nat>)

  /** A block from the cloud; `slot` is what the slab gives, if it has one. */
  function BlockCb(s: State, data: seq<byte>, last: bool, slot: Option<nat>): Fed {
    if s.aborted then
      Fed(FlushAndClose(s).s, Nack, false, FlushAndClose(s).freed)
    else if slot == None then
      Fed(FlushAndClose(s).s, MemAlloc, false, FlushAndClose(s).freed)
    else
      var s' := s.(q := s.q + [Chunk(slot.value, data, last)]);
      var kick := s.cur == None && s.waiting;
      Fed(if kick then s'.(waiting := false) else s', Accepted, kick, [])
  }

  /** The answer to a block: refused after an abort, out of memory without a free block, accepted otherwise. */
  lemma StatusExactly(s: State, data: seq<byte>, last: bool, slot: Option<nat>)
    ensures var status := BlockCb(s, data, last, slot).status;
            && (status == Nack <==> s.aborted)
            && (status == MemAlloc <==> !s.aborted && slot.None?)
            && (status == Accepted <==> !s.aborted && slot.Some?)
  {}

  /** What a block leaves: freed exactly if refused, and with the client waiting exactly if it was and is not woken. */
  lemma FedExactly(s: State, data: seq<byte>, last: bool, slot: Option<nat>)
    requires s.alive
    ensures var fed := BlockCb(s, data, last, slot);
            && (fed.kick <==> fed.status == Accepted && s.cur == None && s.waiting)
            && (fed.s.alive <==> fed.status == Accepted)
            && (fed.s.waiting <==> s.waiting && !fed.kick)
            && fed.s.complete == s.complete && fed.s.aborted == s.aborted
  {}

  // ----- Draining, independently of how it is done

  /** The bytes due before the downlink is complete: everything up to the first last-marked block. */
  function Due(chunks: seq<Chunk>): seq<byte> {
    if chunks == [] then []
    else if chunks[0].last then chunks[0].bytes
    else chunks[0].bytes + Due(chunks[1..])
  }

  predicate HasLast(chunks: seq<Chunk>) {
    exists i :: 0 <= i < |chunks| && chunks[i].last
  }

  predicate NonEmpty(chunks: seq<Chunk>) {
    forall i :: 0 <= i < |chunks| ==> chunks[i].bytes != []
  }

  lemma {:induction false} BytesConcat(a: seq<Chunk>, c: seq<Chunk>)
    ensures Bytes(a + c) == Bytes(a) + Bytes(c)
  {
    if a == [] {
      assert a + c == c;
    } else {
      BytesConcat(a[1..], c);
      assert (a + c)[1..] == a[1..] + c && (a + c)[0] == a[0];
      assert Bytes(a + c) == a[0].bytes + (Bytes(a[1..]) + Bytes(c));
    }
  }

  /** Draining loses and reorders nothing, and each block is either still held or given back. */
  lemma {:induction false} TakeConserves(chunks: seq<Chunk>, cap: nat)
    ensures var t := Take(chunks, cap);
            && t.bytes + Bytes(t.rest) == Bytes(chunks)
            && t.freed + Slots(t.rest) == Slots(chunks)
            && (NonEmpty(chunks) ==> NonEmpty(t.rest))
  {
    if cap > 0 && chunks != [] {
      var c := chunks[0];
      if cap < |c.bytes| {
        var t := Take(chunks, cap);
        assert t.rest[1..] == chunks[1..];
      } else if !c.last {
        TakeConserves(chunks[1..], cap - |c.bytes|);
        SlotsCons(chunks);
      } else {
        SlotsCons(chunks);
      }
    }
  }

  /** What a read or a close gives back was held. */
  lemma FreedWereHeld(s: State, cap: nat)
    ensures forall x :: x in GetData(s, cap).freed ==> x in Slots(Held(s))
    ensures forall x :: x in FlushAndClose(s).freed ==> x in Slots(Held(s))
    ensures forall x :: x in Close(s).freed ==> x in Slots(Held(s))
  {
    var held := Held(s);
    TakeConserves(held, cap);
    assert Slots(held) == Close(s).freed + Slots(s.q);
    hide Take, Held, Slots, Bytes, NonEmpty;
    assert forall x :: x in Take(held, cap).freed + Slots(Take(held, cap).rest) <==> x in Slots(held);
  }

  lemma SlotsCons(chunks: seq<Chunk>)
    requires chunks != []
    ensures Slots(chunks) == [chunks[0].slot] + Slots(chunks[1..])
  {}

  lemma LastIsBehind(chunks: seq<Chunk>)
    requires chunks != [] && !chunks[0].last
    ensures HasLast(chunks) <==> HasLast(chunks[1..])
  {
    if HasLast(chunks) {
      var i :| 0 <= i < |chunks| && chunks[i].last;
      assert chunks[1..][i - 1].last;
    }
    if HasLast(chunks[1..]) {
      var i :| 0 <= i < |chunks[1..]| && chunks[1..][i].last;
      assert chunks[i + 1].last;
    }
  }

  /**
   * Draining is greedy: for any blocks, empty ones included, it yields exactly the first
   * min(cap, available) bytes due, and stops short of the capacity only when it ran into a
   * last-marked block or out of blocks.
   */
  lemma {:induction false} TakeIsGreedy(chunks: seq<Chunk>, cap: nat)
    ensures var t := Take(chunks, cap);
            && t.bytes == Due(chunks)[..Min(cap, |Due(chunks)|)]
            && (t.last ==> t.bytes == Due(chunks) && HasLast(chunks))
            && (!t.last && |t.bytes| < cap ==> t.rest == [] && !HasLast(chunks))
            && (|Due(chunks)| < cap && HasLast(chunks) ==> t.last)
  {
    if cap > 0 && chunks != [] {
      var c, more := chunks[0], chunks[1..];
      if c.last {
        assert HasLast(chunks);
      } else if |c.bytes| <= cap {
        TakeIsGreedy(more, cap - |c.bytes|);
        LastIsBehind(chunks);
      }
    }
  }

  /** The bytes in front of the first last-marked block. */
  function Ahead(chunks: seq<Chunk>): seq<byte> {
    if chunks == [] || chunks[0].last then [] else chunks[0].bytes + Ahead(chunks[1..])
  }

  /**
   * For any blocks, the mark comes exactly if there is room for every byte due and some is left
   * when the drain gets to the last block, which may be empty.
   */
  lemma {:induction false} TakeMarksExactly(chunks: seq<Chunk>, cap: nat)
    ensures Take(chunks, cap).last <==> HasLast(chunks) && |Due(chunks)| <= cap && |Ahead(chunks)| < cap
  {
    if cap > 0 && chunks != [] {
      var c, more := chunks[0], chunks[1..];
      if c.last {
        assert HasLast(chunks);
      } else {
        LastIsBehind(chunks);
        if |c.bytes| <= cap {
          TakeMarksExactly(more, cap - |c.bytes|);
        }
      }
    }
  }

  /** With non-empty blocks the mark comes with the last byte due, not one call later. */
  lemma TakeMarksAtOnce(chunks: seq<Chunk>, cap: nat)
    requires NonEmpty(chunks) && cap > 0
    ensures Take(chunks, cap).last <==> HasLast(chunks) && |Due(chunks)| <= cap
  {
    TakeMarksExactly(chunks, cap);
    if HasLast(chunks) {
      AheadIsShorter(chunks);
    }
  }

  lemma {:induction false} AheadIsShorter(chunks: seq<Chunk>)
    requires NonEmpty(chunks) && HasLast(chunks)
    ensures |Ahead(chunks)| < |Due(chunks)|
  {
    assert chunks[0].bytes != [];
    if !chunks[0].last {
      LastIsBehind(chunks);
      AheadIsShorter(chunks[1..]);
    }
  }

  lemma {:induction false} AheadIsWithin(chunks: seq<Chunk>)
    ensures |Ahead(chunks)| <= |Due(chunks)|
  {
    if chunks != [] && !chunks[0].last {
      AheadIsWithin(chunks[1..]);
    }
  }

  /** What a drain that does not get to the end of the last block leaves due. */
  lemma {:induction false} TakeLeaves(chunks: seq<Chunk>, cap: nat)
    requires HasLast(chunks) && !Take(chunks, cap).last
    ensures var rest := Take(chunks, cap).rest;
            && |Due(chunks)| >= cap && |Due(rest)| == |Due(chunks)| - cap
            && |Ahead(rest)| == (if |Ahead(chunks)| < cap then 0 else |Ahead(chunks)| - cap)
  {
    if cap > 0 {
      var c, more := chunks[0], chunks[1..];
      if cap < |c.bytes| {
        var rest := Take(chunks, cap).rest;
        assert rest[0] == c.(bytes := c.bytes[cap..]) && rest[1..] == more;
      } else {
        LastIsBehind(chunks);
        TakeLeaves(more, cap - |c.bytes|);
      }
    }
  }

  /** A read of `cap` bytes has room for all that is left, up to the last block or the end of an abort. */
  predicate Finishes(s: State, cap: nat) {
    && !s.complete
    && (if HasLast(Held(s)) then |Due(Held(s))| <= cap && |Ahead(Held(s))| < cap
        else s.aborted && |Bytes(Held(s))| < cap)
  }

  /** Exactly the reads with room for all that is left complete the downlink. */
  lemma FinishesExactly(s: State, cap: nat)
    ensures GetData(s, cap).last <==> Finishes(s, cap)
    ensures GetData(s, cap).s.complete <==> s.complete || Finishes(s, cap)
  {
    var held := Held(s);
    TakeMarksExactly(held, cap);
    TakeIsGreedy(held, cap);
    if !HasLast(held) {
      DueIsAll(held);
    }
    hide Take, Held, Due, Ahead, Bytes, HasLast;
  }

  /** What a read does to what is due, once the last block is here. */
  lemma ReadLeaves(s: State, cap: pos)
    requires !s.complete && HasLast(Held(s))
    ensures var got, due, ahead := GetData(s, cap), |Due(Held(s))|, |Ahead(Held(s))|;
            && ahead <= due && (got.last <==> due <= cap && ahead < cap)
            && (!got.last ==>
                  && due >= cap && |Due(Held(got.s))| == due - cap
                  && |Ahead(Held(got.s))| == (if ahead < cap then 0 else ahead - cap))
  {
    hide Take, Held, Due, Ahead, Bytes, HasLast;
    var t := Take(Held(s), cap);
    FinishesExactly(s, cap);
    AheadIsWithin(Held(s));
    HeldOfHold(s, t.rest, GetData(s, cap).s);
    if !t.last {
      TakeLeaves(Held(s), cap);
      TakeIsGreedy(Held(s), cap);
    }
  }

  /**
   * The result of every read: -ENODATA exactly of a complete downlink; -EAGAIN exactly of one not
   * aborted whose blocks, none of them the last, run out before the room does; 0 otherwise.
   */
  lemma CodeExactly(s: State, cap: nat)
    ensures GetData(s, cap).code == NoData <==> s.complete
    ensures GetData(s, cap).code == Again <==>
            !s.complete && !s.aborted && !HasLast(Held(s)) && |Bytes(Held(s))| < cap
    ensures s.complete || cap == 0 ==> GetData(s, cap).s == s && GetData(s, cap).bytes == []
  {
    var held := Held(s);
    TakeMarksExactly(held, cap);
    TakeIsGreedy(held, cap);
    if !HasLast(held) {
      DueIsAll(held);
    }
    hide Take, Held, Due, Ahead, Bytes, HasLast;
  }

  /** What a read changes of a downlink that is not complete. */
  lemma ReadOutcome(s: State, cap: pos)
    requires !s.complete
    ensures var got := GetData(s, cap);
            && got.code != NoData
            && got.s == s.(cur := got.s.cur, q := got.s.q, complete := got.last,
                           waiting := s.waiting || (!got.last && got.bytes == []))
  {
    hide Take, Held;
  }

  /** No byte is held, and no end is in sight: a read yields nothing. */
  predicate Dry(s: State) {
    !s.complete && !s.aborted && !HasLast(Held(s)) && Bytes(Held(s)) == []
  }

  /** Exactly the reads of a dry downlink yield neither a byte nor the last mark. */
  lemma DryExactly(s: State, cap: pos)
    requires !s.complete
    ensures GetData(s, cap).bytes == [] && !GetData(s, cap).last <==> Dry(s)
  {
    var held := Held(s);
    TakeIsGreedy(held, cap);
    FinishesExactly(s, cap);
    if !HasLast(held) {
      DueIsAll(held);
    }
    hide Take, Held, Due, Ahead, Bytes, HasLast;
  }

  lemma {:induction false} TakeShrinks(chunks: seq<Chunk>, cap: nat)
    ensures |Take(chunks, cap).rest| <= |chunks|
  {
    if cap > 0 && chunks != [] && |chunks[0].bytes| <= cap && !chunks[0].last {
      TakeShrinks(chunks[1..], cap - |chunks[0].bytes|);
    }
  }

  /** A read never holds more blocks than before. */
  lemma ReadShrinks(s: State, cap: pos)
    ensures |Held(GetData(s, cap).s)| <= |Held(s)|
  {
    hide Take, Held;
    if !s.complete {
      TakeShrinks(Held(s), cap);
      HeldOfHold(s, Take(Held(s), cap).rest, GetData(s, cap).s);
    }
  }

  lemma WithoutCurrent(s: State)
    ensures Held(s.(cur := None)) == s.q && Hold(s.(cur := None), s.q) == Hold(s, s.q)
    ensures Held(Hold(s, s.q)) == s.q
  {
    HoldHeld(s, s.q);
    assert [] + s.q == s.q;
    hide Held;
  }

  lemma HeldNothing(s: State)
    ensures Held(s) == [] <==> s.cur == None && s.q == []
  {}

  lemma AbortHolds(s: State)
    ensures Held(Abort(s).s) == if s.complete then [] else Held(s)
    ensures Held(Close(s).s) == []
  {}

  lemma HeldOfHold(s: State, chunks: seq<Chunk>, s': State)
    requires s'.cur == Hold(s, chunks).cur && s'.q == Hold(s, chunks).q
    ensures Held(s') == chunks
  {}

  lemma HoldHeld(s: State, chunks: seq<Chunk>)
    ensures Held(Hold(s, chunks)) == chunks
    ensures forall more :: Hold(Hold(s, chunks), more) == Hold(s, more)
  {}

  /** Only the final block may carry the last mark: nothing arrives behind it. */
  predicate OnlyFinal(chunks: seq<Chunk>) {
    forall i :: 0 <= i < |chunks| - 1 ==> !chunks[i].last
  }

  /** A block put behind blocks none of which is the last one. */
  lemma Appended(chunks: seq<Chunk>, c: Chunk)
    requires !HasLast(chunks)
    ensures Bytes(chunks + [c]) == Bytes(chunks) + c.bytes
    ensures OnlyFinal(chunks + [c]) && (HasLast(chunks + [c]) <==> c.last)
  {
    BytesConcat(chunks, [c]);
    assert Bytes([c]) == c.bytes + Bytes([]) == c.bytes;
    var all := chunks + [c];
    assert all[|chunks|] == c;
    assert forall i :: 0 <= i < |chunks| ==> all[i] == chunks[i];
  }

  lemma {:induction false} TakeKeepsOrder(chunks: seq<Chunk>, cap: nat)
    requires OnlyFinal(chunks)
    ensures var t := Take(chunks, cap);
            && OnlyFinal(t.rest)
            && (if t.last then t.rest == [] && HasLast(chunks) else HasLast(t.rest) == HasLast(chunks))
  {
    if cap > 0 && chunks != [] {
      var c, more := chunks[0], chunks[1..];
      if cap < |c.bytes| {
        var rest := Take(chunks, cap).rest;
        assert forall i :: 0 <= i < |rest| ==> rest[i].last == chunks[i].last;
      } else if !c.last {
        TakeKeepsOrder(more, cap - |c.bytes|);
        LastIsBehind(chunks);
      } else {
        assert more == [];
      }
    }
  }

  lemma {:induction false} DueIsAll(chunks: seq<Chunk>)
    requires OnlyFinal(chunks)
    ensures Due(chunks) == Bytes(chunks)
  {
    if chunks != [] {
      if chunks[0].last {
        assert chunks[1..] == [];
      } else {
        DueIsAll(chunks[1..]);
      }
    }
  }

  /** The bytes in front of the final block. */
  function Front(chunks: seq<Chunk>): seq<byte> {
    if |chunks| <= 1 then [] else chunks[0].bytes + Front(chunks[1..])
  }

  /** Draining uses up all blocks exactly if there is room for their bytes and some left at the final block. */
  lemma {:induction false} TakeEmptiesExactly(chunks: seq<Chunk>, cap: nat)
    requires OnlyFinal(chunks) && chunks != []
    ensures Take(chunks, cap).rest == [] <==> |Bytes(chunks)| <= cap && |Front(chunks)| < cap
  {
    if cap > 0 {
      var c, more := chunks[0], chunks[1..];
      if more == [] {
        assert Bytes(chunks) == c.bytes + [];
      } else if |c.bytes| <= cap {
        assert !c.last;
        TakeEmptiesExactly(more, cap - |c.bytes|);
      }
    }
  }

  /** A read of `cap` bytes leaves no block behind. */
  predicate Empties(s: State, cap: nat) {
    Held(s) == [] || (|Bytes(Held(s))| <= cap && |Front(Held(s))| < cap)
  }

  lemma EmptiesExactly(s: State, cap: pos)
    requires !s.complete && OnlyFinal(Held(s))
    ensures Held(GetData(s, cap).s) == [] <==> Empties(s, cap)
  {
    hide Take, Held, Bytes, OnlyFinal, Front;
    var held := Held(s);
    if held == [] {
      NothingToTake(cap);
    } else {
      TakeEmptiesExactly(held, cap);
    }
    HeldOfHold(s, Take(held, cap).rest, GetData(s, cap).s);
  }

  lemma NothingToTake(cap: nat)
    ensures Take([], cap).rest == []
  {}

  /** What one call does to a downlink that is not complete. */
  lemma GetDataMoves(s: State, cap: nat)
    requires !s.complete && cap > 0 && OnlyFinal(Held(s))
    ensures var got := GetData(s, cap);
            && got.code != NoData
            && got.bytes + Bytes(Held(got.s)) == Bytes(Held(s))
            && got.s == s.(cur := got.s.cur, q := got.s.q, complete := got.last,
                           waiting := s.waiting || (!got.last && got.bytes == []))
            && OnlyFinal(Held(got.s))
            && (got.last ==> Held(got.s) == [] && (HasLast(Held(s)) || s.aborted))
            && (!got.last ==> HasLast(Held(got.s)) == HasLast(Held(s)))
            && (!got.last && got.bytes == [] ==> Held(got.s) == [])
            && (s.aborted ==> got.code == Ok && (got.last || |got.bytes| == cap))
  {
    hide Take, Held, Slots, Bytes, HasLast, OnlyFinal, NonEmpty, Due;
    var held := Held(s);
    TakeConserves(held, cap);
    TakeKeepsOrder(held, cap);
    TakeIsGreedy(held, cap);
    HeldOfHold(s, Take(held, cap).rest, GetData(s, cap).s);
  }
}
