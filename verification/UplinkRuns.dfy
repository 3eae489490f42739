/**
 * Every run of an uplink: any interleaving of writes of any size, closes, and reports of the
 * cloud client, with allocations and sends failing anywhere.
 */
module UplinkRuns {
  import opened Base
  import opened UplinkSpec

  datatype Event =
    | WriteCall(payload: seq<byte>, last: bool, mallocs: nat, sendOk: bool)
    | CloseCall(sendOk: bool)
    | Report(ok: bool, sendOk: bool)

  /**
   * An uplink with its past: the bytes accepted so far, how many reports came in, how often it
   * was closed, whether anything was still unsent at the first close, whether the latest write
   * ran out of memory, and whether any write did.
   */
  datatype History = History(
    s: State, accepted: seq<byte>, acked: nat, closes: nat, held: bool, starved: bool, lost: bool)

  function Start(): History {
    History(Opened(), [], 0, 0, false, false, false)
  }

  predicate Unsent(s: State) {
    s.q != [] || Written(s.w) != []
  }

  /**
   * What the surroundings guarantee: no call on a freed uplink, no write after the close, and
   * one report for each accepted block.
   */
  predicate Legal(h: History, e: Event) {
    && h.s.alive
    && (e.WriteCall? ==> !h.s.closed)
    && (e.Report? ==> h.acked < |h.s.sent|)
  }

  function Step(h: History, e: Event, b: pos): (h': History)
    requires Fits(h.s.w, b)
    ensures Fits(h'.s.w, b)
  {
    match e
    case WriteCall(payload, last, mallocs, sendOk) =>
      var p := Packed(h, payload, mallocs, b);
      (if !p.starved && last then Closing(p) else p).(s := Write(h.s, payload, last, mallocs, sendOk, b))
    case CloseCall(sendOk) =>
      Closing(h).(s := Close(h.s, sendOk))
    case Report(ok, sendOk) =>
      h.(s := Uploaded(h.s, ok, sendOk), acked := h.acked + 1)
  }

  /** After packing a payload, before anything else. */
  function Packed(h: History, payload: seq<byte>, mallocs: nat, b: pos): (p: History)
    requires Fits(h.s.w, b)
  {
    var f := Fill(h.s.q, h.s.w, payload, mallocs, b);
    h.(s := h.s.(q := f.q, w := f.w), accepted := h.accepted + payload[..f.taken],
       starved := !f.ok, lost := h.lost || !f.ok)
  }

  /** With the close noted, before the queue is looked at. */
  function Closing(h: History): History {
    h.(closes := h.closes + 1, held := if h.s.closed then h.held else Unsent(h.s),
       s := (if h.s.closed then h.s else Submit(h.s)).(closed := true))
  }

  /** With the report noted, before the queue is looked at. */
  function Idle(h: History): History {
    h.(s := h.s.(sending := false, r := None), acked := h.acked + 1)
  }

  function Processed(h: History, sendOk: bool): History {
    h.(s := Process(h.s, sendOk))
  }

  /** A run: each state but the first is where the event between leads the state before it. */
  predicate Steps(hs: seq<History>, es: seq<Event>, b: pos) {
    && |hs| == |es| + 1
    && forall i :: 0 <= i < |es| ==>
         Fits(hs[i].s.w, b) && Legal(hs[i], es[i]) && hs[i + 1] == Step(hs[i], es[i], b)
  }

  /** A run of a new uplink. */
  predicate IsRun(hs: seq<History>, es: seq<Event>, b: pos) {
    Steps(hs, es, b) && hs[0] == Start()
  }

  // ----- The invariant of all runs

  function Data(frames: seq<Frame>): seq<seq<byte>> {
    seq(|frames|, i requires 0 <= i < |frames| => frames[i].data)
  }

  /** Block i carries index i, and the last flag exactly if it ends a stream held back for it. */
  predicate Framed(h: History, b: pos) {
    forall i :: 0 <= i < |h.s.sent| ==>
      h.s.sent[i].index == i % INDEX_MODULUS &&
      (h.s.sent[i].last <==> h.held && i == |Split(h.accepted, b)| - 1)
  }

  /** Before the close every block that left the write block is full. */
  predicate Open(h: History, b: pos) {
    && AllFull(Data(h.s.sent) + h.s.q, b)
    && h.accepted == Flatten(Data(h.s.sent) + h.s.q) + Written(h.s.w)
    && (h.s.w == Some([]) ==> h.accepted == [])
    && (h.s.w == None ==> h.lost && Data(h.s.sent) + h.s.q != [])
    && h.closes == 0 && !h.held
  }

  predicate Shut(h: History, b: pos) {
    && h.s.w == None
    && Data(h.s.sent) + h.s.q == Split(h.accepted, b)
    && h.closes > 0
    && (h.s.q != [] ==> h.held)
    && (h.accepted != [] && !h.lost ==> h.held)
  }

  predicate Flow(h: History) {
    && h.s.ends == []
    && (h.s.sending <==> h.s.r.Some?)
    && |h.s.sent| == h.acked + (if h.s.sending then 1 else 0)
    && (h.s.sending ==> h.s.r == Some(h.s.sent[h.acked].data))
    && h.s.blockIdx == |h.s.sent| % INDEX_MODULUS
    && (forall i :: 0 <= i < |h.s.q| ==> h.s.q[i] != [])
  }

  predicate Over(h: History, b: pos) {
    && |h.s.ends| == 1 && h.acked == |h.s.sent|
    && h.s.w == None && h.s.r == None && h.s.q == []
    && Data(h.s.sent) <= Split(h.accepted, b)
    && (h.s.ends[0] == Success ==>
          h.s.closed && Data(h.s.sent) == Split(h.accepted, b)
          && (h.accepted != [] && !h.lost ==> h.held)
          && (h.accepted == [] ==> h.closes > 1))
  }

  predicate Core(h: History, b: pos) {
    && Fits(h.s.w, b) && Framed(h, b)
    && if !h.s.alive then Over(h, b)
       else Flow(h) && if h.s.closed then Shut(h, b) else Open(h, b)
  }

  /** Nothing waits without a reason. */
  predicate Progress(h: History) {
    h.s.alive && !h.s.sending ==>
      && (h.s.q != [] ==> h.starved && !h.s.closed)
      && (h.s.closed ==> h.accepted == [] && h.closes == 1)
  }

  predicate Inv(h: History, b: pos) {
    Core(h, b) && Progress(h)
  }

  lemma OpenSplit(h: History, b: pos)
    requires Fits(h.s.w, b) && Open(h, b)
    ensures Split(h.accepted, b) == Data(h.s.sent) + h.s.q + Split(Written(h.s.w), b)
  {
    SplitAfterFull(Data(h.s.sent) + h.s.q, Written(h.s.w), b);
  }

  lemma PackKeeps(h: History, payload: seq<byte>, mallocs: nat, b: pos)
    requires Core(h, b) && h.s.alive && !h.s.closed
    ensures Core(Packed(h, payload, mallocs, b), b)
  {
    var f := Fill(h.s.q, h.s.w, payload, mallocs, b);
    var p := Packed(h, payload, mallocs, b);
    if payload == [] {
      assert payload[..0] == [];
    } else {
      PackedBytes(Data(h.s.sent), h.s.q, h.s.w, payload, mallocs, b);
      OpenSplit(h, b);
      assert Open(p, b);
    }
  }

  /** Packing keeps the order of the bytes and puts only full blocks in the queue. */
  ghost predicate InOrder(sent: seq<seq<byte>>, q: seq<seq<byte>>, w: Option<seq<byte>>, payload: seq<byte>,
                          f: Filled, b: pos)
    requires f.taken <= |payload|
  {
    && AllFull(sent + f.q, b)
    && Flatten(sent + f.q) + Written(f.w) == Flatten(sent + q) + Written(w) + payload[..f.taken]
    && f.w != Some([])
    && (f.w == None <==> !f.ok)
    && (f.w == None && (w.Some? || sent + q != []) ==> sent + f.q != [])
  }

  /** Full chunks behind full blocks. */
  lemma FullBehindFull(sent: seq<seq<byte>>, q: seq<seq<byte>>, more: seq<seq<byte>>, b: pos)
    requires AllFull(sent + q, b) && AllFull(more, b)
    ensures AllFull(sent + (q + more), b)
    ensures Flatten(sent + (q + more)) == Flatten(sent + q) + Flatten(more)
  {
    FlattenConcat(sent + q, more);
    assert sent + (q + more) == sent + q + more;
  }

  /** The blocks a packing adds to the queue. */
  ghost predicate Adds(q: seq<seq<byte>>, w: Option<seq<byte>>, payload: seq<byte>, f: Filled,
                       more: seq<seq<byte>>, b: pos)
    requires f.taken <= |payload|
  {
    && f.q == q + more && AllFull(more, b)
    && Flatten(more) + Written(f.w) == Written(w) + payload[..f.taken]
    && f.w != Some([]) && (f.w == None <==> !f.ok)
    && (w.Some? && f.w == None ==> more != [])
  }

  lemma RefusedAdds(q: seq<seq<byte>>, w: Option<seq<byte>>, payload: seq<byte>, mallocs: nat, b: pos)
      returns (more: seq<seq<byte>>)
    requires Fits(w, b) && payload != [] && !Fill(q, w, payload, mallocs, b).ok
    ensures Adds(q, w, payload, Fill(q, w, payload, mallocs, b), more, b)
  {
    var t := Written(w) + payload;
    var chunks, blocks := Split(t, b), (if w.Some? then 1 else 0) + mallocs;
    FullPrefix(t, blocks, b);
    more := chunks[..blocks];
    assert t[..blocks * b] == Written(w) + payload[..Fill(q, w, payload, mallocs, b).taken];
  }

  lemma WholeAdds(q: seq<seq<byte>>, w: Option<seq<byte>>, payload: seq<byte>, mallocs: nat, b: pos)
      returns (more: seq<seq<byte>>)
    requires Fits(w, b) && payload != [] && Fill(q, w, payload, mallocs, b).ok
    ensures Adds(q, w, payload, Fill(q, w, payload, mallocs, b), more, b)
  {
    hide Split;
    var t := Written(w) + payload;
    SplitLast(t, b);
    more := Split(t, b)[..|Split(t, b)| - 1];
    assert payload[..|payload|] == payload;
  }

  lemma Regroup(a: seq<byte>, c: seq<byte>, d: seq<byte>, c': seq<byte>, d': seq<byte>)
    requires c + d == c' + d'
    ensures a + c + d == a + c' + d'
  {
    assert a + c + d == a + (c + d);
    assert a + c' + d' == a + (c' + d');
  }

  lemma PackedBytes(sent: seq<seq<byte>>, q: seq<seq<byte>>, w: Option<seq<byte>>, payload: seq<byte>,
                    mallocs: nat, b: pos)
    requires Fits(w, b) && payload != [] && AllFull(sent + q, b)
    ensures InOrder(sent, q, w, payload, Fill(q, w, payload, mallocs, b), b)
  {
    hide Fill, Flatten, AllFull;
    var f := Fill(q, w, payload, mallocs, b);
    var more;
    if f.ok {
      more := WholeAdds(q, w, payload, mallocs, b);
    } else {
      more := RefusedAdds(q, w, payload, mallocs, b);
    }
    FullBehindFull(sent, q, more, b);
    Regroup(Flatten(sent + q), Flatten(more), Written(f.w), Written(w), payload[..f.taken]);
  }

  lemma SendMoves(s: State, f: Frame)
    requires s.q != [] && f.data == s.q[0]
    ensures Data(s.sent + [f]) + s.q[1..] == Data(s.sent) + s.q
    ensures Data(s.sent + [f]) == Data(s.sent) + [f.data]
  {}

  /** The next frame is numbered in order, and marked exactly if it is the last of a closed stream. */
  lemma SendFrames(h: History, b: pos)
    requires Core(h, b) && h.s.alive && !h.s.sending && h.s.q != []
    ensures Framed(Processed(h, true), b)
  {
    if !h.s.closed {
      OpenSplit(h, b);
    }
    hide Split, Flatten, AllFull;
    assert |Split(h.accepted, b)| >= |h.s.sent| + |h.s.q|;
    assert h.s.closed ==> |Split(h.accepted, b)| == |h.s.sent| + |h.s.q|;
  }

  lemma SendAccepted(h: History, b: pos)
    requires Core(h, b) && h.s.alive && !h.s.sending && h.s.q != []
    ensures Core(Processed(h, true), b)
  {
    SendFrames(h, b);
    hide Split, Flatten, AllFull, Framed;
    SendMoves(h.s, Frame(h.s.blockIdx, h.s.q[0], h.s.q[1..] == [] && h.s.closed));
  }

  lemma SendRefused(h: History, b: pos)
    requires Core(h, b) && h.s.alive && !h.s.sending && h.s.q != []
    ensures Core(Processed(h, false), b)
  {
    hide Split, Flatten, AllFull;
    if !h.s.closed {
      OpenSplit(h, b);
    }
  }

  lemma ProcessKeeps(h: History, sendOk: bool, b: pos)
    requires Core(h, b) && h.s.alive
    requires h.s.closed && h.accepted == [] ==> h.closes > 1
    ensures Core(Processed(h, sendOk), b)
    ensures var s' := Processed(h, sendOk).s;
            s'.alive && !s'.sending ==> s'.q == [] && !s'.closed
  {
    if !h.s.sending && h.s.q != [] {
      if sendOk { SendAccepted(h, b); } else { SendRefused(h, b); }
    }
  }

  /** With an empty write block nothing was ever queued. */
  lemma NothingQueued(h: History, b: pos)
    requires Core(h, b) && h.s.alive && !h.s.closed && h.s.w == Some([])
    ensures h.s.q == [] && h.s.sent == [] && h.accepted == []
  {
    var all := Data(h.s.sent) + h.s.q;
    FlattenFullLength(all, b);
    hide Flatten, Split;
    assert |all| > 0 ==> |all| * b >= b;
    assert |all| == |h.s.sent| + |h.s.q|;
  }

  /** Closing before any byte was written queues an empty block, which is skipped. */
  lemma CloseEmptyKeeps(h: History, sendOk: bool, b: pos)
    requires Core(h, b) && h.s.alive && !h.s.closed && h.s.w == Some([])
    ensures Inv(Processed(Closing(h), sendOk), b)
  {
    NothingQueued(h, b);
    assert Data([]) + [] == [];
    assert Submit(h.s).q == [[]];
  }

  lemma ClosingKeeps(h: History, b: pos)
    requires Core(h, b) && h.s.alive && !h.s.closed && h.s.w != Some([])
    ensures Core(Closing(h), b) && h.accepted != []
  {
    OpenSplit(h, b);
    var c := Closing(h);
    assert Data(c.s.sent) + c.s.q == Split(h.accepted, b) by {
      if h.s.w.Some? {
        assert Split(h.s.w.value, b) == [h.s.w.value];
        assert Data(h.s.sent) + (h.s.q + [h.s.w.value]) == Data(h.s.sent) + h.s.q + [h.s.w.value];
      } else {
        assert Data(h.s.sent) + h.s.q + [] == Data(h.s.sent) + h.s.q;
      }
    }
    assert |Split(h.accepted, b)| == |h.s.sent| + |c.s.q|;
    assert Shut(c, b);
  }

  lemma CloseKeeps(h: History, sendOk: bool, b: pos)
    requires Core(h, b) && h.s.alive
    ensures Inv(Processed(Closing(h), sendOk), b)
  {
    if !h.s.closed && h.s.w == Some([]) {
      CloseEmptyKeeps(h, sendOk, b);
    } else {
      if !h.s.closed {
        ClosingKeeps(h, b);
      }
      ProcessKeeps(Closing(h), sendOk, b);
    }
  }

  lemma ReportKeeps(h: History, ok: bool, sendOk: bool, b: pos)
    requires Inv(h, b) && Legal(h, Report(ok, sendOk))
    ensures Inv(Step(h, Report(ok, sendOk), b), b)
  {
    if !h.s.closed {
      OpenSplit(h, b);
    }
    if ok {
      ProcessKeeps(Idle(h), sendOk, b);
    }
  }

  lemma StepKeeps(h: History, e: Event, b: pos)
    requires Inv(h, b) && Legal(h, e)
    ensures Inv(Step(h, e, b), b)
  {
    match e
    case WriteCall(payload, last, mallocs, sendOk) =>
      PackKeeps(h, payload, mallocs, b);
      var p := Packed(h, payload, mallocs, b);
      if !p.starved {
        if last { CloseKeeps(p, sendOk, b); } else { ProcessKeeps(p, sendOk, b); }
      }
    case CloseCall(sendOk) => CloseKeeps(h, sendOk, b);
    case Report(ok, sendOk) => ReportKeeps(h, ok, sendOk, b);
  }

  lemma StartHolds(b: pos)
    ensures Inv(Start(), b)
  {
    assert Data(Start().s.sent) + [] == [];
  }

  /** The invariant holds in every state of every run. */
  lemma RunKeeps(hs: seq<History>, es: seq<Event>, b: pos)
    requires IsRun(hs, es, b)
    ensures forall i :: 0 <= i < |hs| ==> Inv(hs[i], b)
  {
    hide Inv, Step;
    StartHolds(b);
    for i := 0 to |es|
      invariant forall j :: 0 <= j <= i ==> Inv(hs[j], b)
    {
      StepKeeps(hs[i], es[i], b);
    }
  }
}
