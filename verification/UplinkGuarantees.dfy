/** What every legal run of an uplink promises to the cloud and to the caller. */
module UplinkGuarantees {
  import opened Base
  import opened UplinkSpec
  import opened UplinkRuns

  // ----- The blocks sent are a function of the byte stream

  /** The stream cut into b-byte blocks, numbered in order, the last one marked if `flagged`. */
  function Canonical(stream: seq<byte>, b: pos, flagged: bool): seq<Frame> {
    var chunks := Split(stream, b);
    seq(|chunks|, i requires 0 <= i < |chunks| =>
      Frame(i % INDEX_MODULUS, chunks[i], flagged && i == |chunks| - 1))
  }

  lemma SentIsPrefix(h: History, b: pos)
    requires Inv(h, b)
    ensures h.s.sent <= Canonical(h.accepted, b, h.held)
    ensures h.s.ends == [Success] ==> h.s.sent == Canonical(h.accepted, b, h.held)
    ensures !h.s.closed && h.s.alive && h.accepted != [] && !h.lost ==>
              |h.s.sent| + |h.s.q| + 1 == |Split(h.accepted, b)|
  {
    if h.s.alive && !h.s.closed {
      OpenSplit(h, b);
    }
    assert Data(h.s.sent) <= Split(h.accepted, b);
    forall i | 0 <= i < |h.s.sent|
      ensures h.s.sent[i] == Canonical(h.accepted, b, h.held)[i]
    {
      assert h.s.sent[i].data == Data(h.s.sent)[i] == Split(h.accepted, b)[i];
    }
  }

  /**
   * Whatever the fragment sizes and whenever the reports come, the blocks sent are a prefix of
   * the canonical division of the bytes accepted; success means all of it was sent. Until the
   * close the block being written is held back. After it the last flag is on the final block
   * exactly if something was still unsent at the close, which is so for every non-empty stream
   * that no allocation failure cut short.
   */
  lemma ScheduleIndependence(hs: seq<History>, es: seq<Event>, b: pos)
    requires IsRun(hs, es, b)
    ensures var h := hs[|es|];
            && h.s.sent <= Canonical(h.accepted, b, h.held)
            && (h.s.ends == [Success] ==> h.s.sent == Canonical(h.accepted, b, h.held))
            && (h.accepted != [] && !h.lost && h.s.alive && !h.s.closed ==> |h.s.sent| < |Split(h.accepted, b)|)
            && (h.accepted != [] && !h.lost && h.s.alive && h.s.closed ==> h.held)
            && (h.accepted != [] && !h.lost && h.s.ends == [Success] ==>
                  h.s.sent == Canonical(h.accepted, b, true))
  {
    RunKeeps(hs, es, b);
    SentIsPrefix(hs[|es|], b);
  }

  /** Two uploads of the same bytes look the same to the cloud. */
  lemma SameStreamSameFrames(hs: seq<History>, es: seq<Event>, hs': seq<History>, es': seq<Event>, b: pos)
    requires IsRun(hs, es, b) && IsRun(hs', es', b)
    requires var h, h' := hs[|es|], hs'[|es'|];
             h.accepted == h'.accepted && !h.lost && !h'.lost && h.s.ends == h'.s.ends == [Success]
    ensures hs[|es|].s.sent == hs'[|es'|].s.sent
  {
    ScheduleIndependence(hs, es, b);
    ScheduleIndependence(hs', es', b);
    if hs[|es|].accepted == [] {
      assert Canonical([], b, true) == Canonical([], b, false) == [];
    }
  }

  /**
   * An allocation failure can cost the last flag: the third byte finds no memory, both blocks are
   * with the cloud when the disconnect that follows closes the uplink, so the upload succeeds and
   * no block was ever marked last.
   */
  lemma FlagCanBeMissing(x: byte, y: byte, z: byte) returns (hs: seq<History>, es: seq<Event>)
    ensures IsRun(hs, es, 1)
    ensures hs[|es|].s.ends == [Success]
    ensures hs[|es|].s.sent == [Frame(0, [x], false), Frame(1, [y], false)]
  {
    hide Fill, Step;
    es := [WriteCall([x], false, 0, true), WriteCall([y], false, 1, true), WriteCall([z], false, 0, true),
           Report(true, true), CloseCall(true), Report(true, true)];
    TwoBlocksNoThird(x, y, z);
    var h1 := Step(Start(), es[0], 1);
    var h2 := Step(h1, es[1], 1);
    var h3 := Step(h2, es[2], 1);
    ClosedTooLate(h3, x, y);
    var h4 := Step(h3, es[3], 1);
    var h5 := Step(h4, es[4], 1);
    hs := [Start(), h1, h2, h3, h4, h5, Step(h5, es[5], 1)];
  }

  /** The first block is with the cloud, the second goes to the queue for want of a third. */
  lemma TwoBlocksNoThird(x: byte, y: byte, z: byte)
    ensures var h1 := Step(Start(), WriteCall([x], false, 0, true), 1);
            var h2 := Step(h1, WriteCall([y], false, 1, true), 1);
            var h3 := Step(h2, WriteCall([z], false, 0, true), 1);
            && h1.s.alive && !h1.s.closed && h2.s.alive && !h2.s.closed
            && FirstSent(h3, x, y)
  {
    hide Fill, Split;
    FillByte([], x);
    var h1 := Step(Start(), WriteCall([x], false, 0, true), 1);
    assert h1.s == Opened().(w := Some([x]));
    FillSubmit([], [x], [y], 1, 1);
    assert [] + [[x]] == [[x]] && [] + [[y]] == [[y]];
    FillAlloc([[x]], [y], 1, 1);
    FillByte([[x]], y);
    var h2 := Step(h1, WriteCall([y], false, 1, true), 1);
    assert h2.s.sent == [] + [Frame(0, [x], false)] == [Frame(0, [x], false)];
    FillSubmit([], [y], [z], 0, 1);
    FillNone([[y]], z);
    assert h2.s == State(true, false, true, 1, Some([y]), Some([x]), [], [Frame(0, [x], false)], []);
    var h3 := Step(h2, WriteCall([z], false, 0, true), 1);
    assert h3.s == h2.s.(w := None, q := [[y]]);
  }

  predicate FirstSent(h: History, x: byte, y: byte) {
    && h.acked == 0
    && h.s == State(true, false, true, 1, None, Some([x]), [[y]], [Frame(0, [x], false)], [])
  }

  lemma FillByte(q: seq<seq<byte>>, x: byte)
    ensures Fill(q, Some([]), [x], 0, 1) == Filled(q, Some([x]), 1, true)
  {
    assert [] + [x] == [x] && Split([x], 1) == [[x]];
    assert q + [[x]][..0] == q;
  }

  lemma FillNone(q: seq<seq<byte>>, x: byte)
    ensures Fill(q, None, [x], 0, 1) == Filled(q, None, 0, false)
  {
    assert [] + [x] == [x] && Split([x], 1) == [[x]];
    assert q + [[x]][..0] == q;
  }

  /** The second block goes out unmarked before the close, which then finds nothing left to mark. */
  lemma ClosedTooLate(h: History, x: byte, y: byte)
    requires FirstSent(h, x, y)
    ensures var h1 := Step(h, Report(true, true), 1);
            var h2 := Step(h1, CloseCall(true), 1);
            var h3 := Step(h2, Report(true, true), 1);
            && Legal(h, Report(true, true)) && Legal(h1, CloseCall(true)) && Legal(h2, Report(true, true))
            && h3.s.ends == [Success] && h3.s.sent == [Frame(0, [x], false), Frame(1, [y], false)]
  {
    var h1 := Step(h, Report(true, true), 1);
    assert h1.s.sent == [Frame(0, [x], false), Frame(1, [y], false)];
    var h2 := Step(h1, CloseCall(true), 1);
    assert h2.s.q == [] && h2.s.sending && h2.s.closed;
  }

  // ----- Conservation and flow

  /** No byte accepted is lost or reordered while the uplink lives, also when allocations fail. */
  lemma Conservation(hs: seq<History>, es: seq<Event>, b: pos)
    requires IsRun(hs, es, b)
    ensures var h := hs[|es|];
            && (h.s.alive ==> h.accepted == Flatten(Data(h.s.sent)) + Flatten(h.s.q) + Written(h.s.w))
            && (h.s.alive && !h.s.closed ==> AllFull(Data(h.s.sent), b) && AllFull(h.s.q, b))
            && (h.s.ends == [Success] ==> h.accepted == Flatten(Data(h.s.sent)))
  {
    RunKeeps(hs, es, b);
    var h := hs[|es|];
    var sent := Data(h.s.sent);
    FlattenConcat(sent, h.s.q);
    SplitFlatten(h.accepted, b);
    if h.s.alive && !h.s.closed {
      forall i | 0 <= i < |sent| ensures |sent[i]| == b { assert sent[i] == (sent + h.s.q)[i]; }
      forall i | 0 <= i < |h.s.q| ensures |h.s.q[i]| == b { assert h.s.q[i] == (sent + h.s.q)[|sent| + i]; }
    }
  }

  /** One block in flight at most, and nothing queued waits for no reason. */
  lemma StopAndWait(hs: seq<History>, es: seq<Event>, b: pos)
    requires IsRun(hs, es, b) && hs[|es|].s.alive
    ensures var h := hs[|es|];
            && (h.s.sending <==> h.s.r.Some?)
            && |h.s.sent| - h.acked == (if h.s.sending then 1 else 0)
            && h.s.blockIdx == |h.s.sent| % 0x1_0000_0000
            && (h.s.q != [] ==> h.s.sending || h.starved)
            && (h.s.closed && h.accepted != [] ==> h.s.sending)
  {
    RunKeeps(hs, es, b);
  }

  // ----- Endings

  /** The end callback is called once, and the uplink is freed then and only then. */
  lemma EndsOnce(hs: seq<History>, es: seq<Event>, b: pos)
    requires IsRun(hs, es, b)
    ensures var h := hs[|es|];
            |h.s.ends| == (if h.s.alive then 0 else 1) && (!h.s.alive ==> h.acked == |h.s.sent|)
  {
    RunKeeps(hs, es, b);
  }

  predicate Ok(e: Event) {
    e.sendOk && (e.Report? ==> e.ok)
  }

  /** A block is ready for the cloud client in this step. */
  predicate Offers(h: History, e: Event, b: pos)
    requires Fits(h.s.w, b)
  {
    match e
    case WriteCall(payload, last, mallocs, _) =>
      var f := Fill(h.s.q, h.s.w, payload, mallocs, b);
      !h.s.sending && f.ok && (f.q != [] || (last && Written(f.w) != []))
    case CloseCall(_) => !h.s.sending && Unsent(h.s)
    case Report(ok, _) => ok && h.s.q != []
  }

  /** What it takes for this step to end the uplink in success: nothing is left and it is closed. */
  predicate Finishes(h: History, e: Event, b: pos)
    requires Fits(h.s.w, b)
  {
    match e
    case WriteCall(payload, last, mallocs, _) =>
      var f := Fill(h.s.q, h.s.w, payload, mallocs, b);
      !h.s.sending && f.ok && last && f.q == [] && f.w == None
    case CloseCall(_) => !h.s.sending && h.s.q == [] && h.s.w == None
    case Report(ok, _) => ok && h.s.q == [] && h.s.closed
  }

  predicate EndedIn(s: State, outcome: Outcome) {
    |s.ends| == 1 && s.ends[0] == outcome
  }

  /** Which events end an uplink, and how. */
  lemma EndCause(h: History, e: Event, b: pos)
    requires Inv(h, b) && h.s.alive && Legal(h, e)
    ensures var s' := Step(h, e, b).s;
            && (EndedIn(s', ErrorCloud) <==> e.Report? && !e.ok)
            && (EndedIn(s', ErrorLocal) <==> Offers(h, e, b) && !e.sendOk)
            && (EndedIn(s', Success) <==> Finishes(h, e, b))
  {
    if e.WriteCall? {
      WriteEndCause(h, e, b);
    }
  }

  /** Whether an uplink survives a step. */
  lemma SurvivesExactly(h: History, e: Event, b: pos)
    requires Inv(h, b) && h.s.alive && Legal(h, e)
    ensures Step(h, e, b).s.alive <==>
            !(e.Report? && !e.ok) && !(Offers(h, e, b) && !e.sendOk) && !Finishes(h, e, b)
  {
    EndCause(h, e, b);
    StepKeeps(h, e, b);
    hide Step, Offers, Finishes;
    var s' := Step(h, e, b).s;
    assert s'.alive || |s'.ends| == 1;
    assert s'.alive ==> s'.ends == [];
  }

  /** As long as no write ran out of memory, there is a write block to close with. */
  lemma WriteDoesNotFinish(h: History, e: Event, b: pos)
    requires Inv(h, b) && h.s.alive && Legal(h, e) && e.WriteCall? && !h.lost
    ensures !Finishes(h, e, b)
  {}

  lemma WriteEndCause(h: History, e: Event, b: pos)
    requires Inv(h, b) && h.s.alive && Legal(h, e) && e.WriteCall?
    ensures var s' := Step(h, e, b).s;
            && !EndedIn(s', ErrorCloud)
            && (EndedIn(s', ErrorLocal) <==> Offers(h, e, b) && !e.sendOk)
            && (EndedIn(s', Success) <==> Finishes(h, e, b))
  {
    hide Fill, Framed, Open, Shut, Over;
    PackKeeps(h, e.payload, e.mallocs, b);
    var p := Packed(h, e.payload, e.mallocs, b);
    Ready(p, b);
    hide Inv, Core;
    if p.s.w == Some([]) {
      assert Submit(p.s).q == [[]];
    }
  }

  /** What a live uplink that is not closed has ready to send: blocks with bytes, none if nothing was written. */
  lemma Ready(h: History, b: pos)
    requires Core(h, b) && h.s.alive && !h.s.closed
    ensures h.s.ends == [] && (h.s.q != [] ==> h.s.q[0] != []) && (h.s.w == Some([]) ==> h.s.q == [])
  {
    if h.s.w == Some([]) {
      NothingQueued(h, b);
    }
  }

  function Reports(es: seq<Event>): nat {
    if es == [] then 0 else (if es[0].Report? then 1 else 0) + Reports(es[1..])
  }

  /** A closed uplink that is sending: a close changes nothing, a report takes the next block or ends it. */
  lemma ClosedStep(h: History, e: Event, b: pos)
    requires Inv(h, b) && h.s.alive && h.s.closed && h.s.sending && Legal(h, e) && Ok(e)
    ensures var h' := Step(h, e, b);
            && Inv(h', b)
            && (e.Report? && h.s.q == [] ==> !h'.s.alive && h'.s.ends == [Success])
            && (e.CloseCall? || h.s.q != [] ==>
                  h'.s.alive && h'.s.closed && h'.s.sending && h'.s.ends == []
                  && |h'.s.q| == |h.s.q| - (if e.Report? then 1 else 0))
  {
    StepKeeps(h, e, b);
  }

  /**
   * Once a closed uplink has p blocks unsent or in flight, success is announced by exactly the
   * p-th report, no matter how many closes come in between.
   */
  lemma {:induction false} EndsOnLastReport(hs: seq<History>, es: seq<Event>, b: pos)
    requires Steps(hs, es, b) && forall i :: 0 <= i < |es| ==> Ok(es[i])
    requires Inv(hs[0], b) && hs[0].s.alive && hs[0].s.closed && hs[0].s.sending
    ensures var p, h := |hs[0].s.q| + 1, hs[|es|];
            && Reports(es) <= p
            && h.s.ends == (if Reports(es) == p then [Success] else [])
            && h.s.alive == (Reports(es) < p)
    decreases |es|
  {
    if es == [] {
      assert hs[0].s.ends == [];
    } else {
      hide Step, Inv, Ok;
      ClosedStep(hs[0], es[0], b);
      StepsTail(hs, es, b);
      if hs[1].s.alive {
        EndsOnLastReport(hs[1..], es[1..], b);
      }
    }
  }

  lemma StepsTail(hs: seq<History>, es: seq<Event>, b: pos)
    requires Steps(hs, es, b) && es != []
    ensures Steps(hs[1..], es[1..], b) && hs[1] == Step(hs[0], es[0], b)
    ensures !hs[1].s.alive ==> |es| == 1
  {
    hide Step;
    forall i | 0 <= i < |es[1..]|
      ensures Legal(hs[1..][i], es[1..][i]) && hs[1..][i + 1] == Step(hs[1..][i], es[1..][i], b)
    {
      assert es[1..][i] == es[i + 1];
    }
    if |es| > 1 {
      assert Legal(hs[1], es[1]);
    }
  }

  /** Without failures an uplink ends only in success. */
  lemma OkStepSucceeds(h: History, e: Event, b: pos)
    requires Inv(h, b) && h.s.alive && Legal(h, e) && Ok(e)
    ensures var h' := Step(h, e, b); Inv(h', b) && (h'.s.alive || h'.s.ends == [Success])
  {
    assert Fits(h.s.w, b);
    hide Step, Offers, Finishes, Core, Progress;
    StepKeeps(h, e, b);
    EndCause(h, e, b);
    EndsIfOver(Step(h, e, b), b);
  }

  lemma EndsIfOver(h: History, b: pos)
    requires Inv(h, b)
    ensures |h.s.ends| == if h.s.alive then 0 else 1
  {}

  lemma {:induction false} OkRunsSucceed(hs: seq<History>, es: seq<Event>, b: pos)
    requires Steps(hs, es, b) && Inv(hs[0], b) && hs[0].s.alive
    requires forall i :: 0 <= i < |es| ==> Ok(es[i])
    ensures hs[|es|].s.alive || hs[|es|].s.ends == [Success]
    decreases |es|
  {
    hide Step, Inv, Ok;
    if es != [] {
      StepsTail(hs, es, b);
      OkStepSucceeds(hs[0], es[0], b);
      if hs[1].s.alive {
        OkRunsSucceed(hs[1..], es[1..], b);
      }
    }
  }

  /**
   * When a closed uplink has had all its reports, it has ended if and only if some byte was
   * accepted or it was closed twice: the first close of an empty stream leaves it open.
   */
  lemma EndedWhenQuiet(hs: seq<History>, es: seq<Event>, b: pos)
    requires IsRun(hs, es, b) && forall i :: 0 <= i < |es| ==> Ok(es[i])
    requires hs[|es|].s.closed && hs[|es|].acked == |hs[|es|].s.sent|
    ensures var h := hs[|es|]; h.s.ends == [Success] <==> h.accepted != [] || h.closes > 1
  {
    RunKeeps(hs, es, b);
    OkRunsSucceed(hs, es, b);
  }

  /**
   * Closing again right after the last write sends nothing more. With any byte accepted it
   * changes nothing at all; for an empty stream it is what announces success.
   */
  lemma SecondClose(h: History, payload: seq<byte>, mallocs: nat, sendOk: bool, sendOk': bool, b: pos)
    requires Inv(h, b) && Legal(h, WriteCall(payload, true, mallocs, sendOk))
    requires Step(h, WriteCall(payload, true, mallocs, sendOk), b).s.alive
    requires !Step(h, WriteCall(payload, true, mallocs, sendOk), b).starved
    ensures var h1 := Step(h, WriteCall(payload, true, mallocs, sendOk), b);
            var h2 := Step(h1, CloseCall(sendOk'), b);
            && h2.s.sent == h1.s.sent
            && if h2.accepted == [] then h2.s.ends == [Success] else h2.s == h1.s
  {
    var e := WriteCall(payload, true, mallocs, sendOk);
    StepKeeps(h, e, b);
    PackKeeps(h, payload, mallocs, b);
    assert Step(h, e, b).s.closed;
  }
}
