/**
 * The Bluetooth side of an uplink (lib/bt/uplink.c) on values: what the node's uplink handle
 * points at while fragments, terminations, disconnects and cloud reports interleave.
 */
module UplinkNodeRuns {
  import opened Base
  import opened UplinkSpec
  import opened UplinkRuns
  import opened UplinkGuarantees

  datatype Event =
    /** A packet of the peer; `body` is None when it cannot be decoded. */
    | Packet(body: Option<seq<byte>>, last: bool, mallocs: nat, sendOk: bool, sendOk': bool)
    /** The subscription ended. */
    | Unsubscribed(sendOk: bool)
    /** The connection is gone. */
    | Stopped(sendOk: bool)
    /** The cloud client reports on the block in flight. */
    | Delivered(ok: bool, sendOk: bool)

  /**
   * `held` says that node->uplink is not NULL, `finished` counts the calls of
   * pouch_gateway_bt_finished, `lastSeen` remembers that the last fragment was written, and
   * `fault` that a NULL uplink was passed on.
   */
  datatype Node = Node(h: History, held: bool, finished: nat, lastSeen: bool, fault: bool)

  function Begin(): Node {
    Node(Start(), true, 0, false, false)
  }

  /** The uplink moves on; if that ends it, the end callback clears the handle. */
  function Follow(n: Node, h': History): Node {
    if n.h.s.alive && !h'.s.alive then
      n.(h := h', held := false, finished := n.finished + (if h'.s.ends == [Success] then 0 else 1))
    else n.(h := h')
  }

  function Call(n: Node, e: UplinkRuns.Event, b: pos): (n': Node)
    requires Fits(n.h.s.w, b)
    ensures Fits(n'.h.s.w, b)
  {
    Follow(n, UplinkRuns.Step(n.h, e, b))
  }

  function CloseHandle(n: Node, sendOk: bool, b: pos): (n': Node)
    requires Fits(n.h.s.w, b)
    ensures Fits(n'.h.s.w, b)
  {
    Call(n, CloseCall(sendOk), b).(held := false)
  }

  function HandlePayload(n: Node, payload: seq<byte>, last: bool, mallocs: nat, sendOk: bool, sendOk': bool, b: pos)
      : (n': Node)
    requires Fits(n.h.s.w, b)
    ensures Fits(n'.h.s.w, b)
  {
    var written := Call(n, WriteCall(payload, last, mallocs, sendOk), b);
    if written.h.starved then written.(finished := written.finished + 1)
    else if !last then written
    else if !written.held then written.(fault := true)
    else CloseHandle(written, sendOk', b).(lastSeen := true)
  }

  function NodeStep(n: Node, e: Event, b: pos): (n': Node)
    requires Fits(n.h.s.w, b)
    ensures Fits(n'.h.s.w, b)
  {
    match e
    case Packet(body, last, mallocs, sendOk, sendOk') =>
      if body == None then n.(finished := n.finished + 1)
      else if !n.held then n.(fault := true)
      else HandlePayload(n, body.value, last, mallocs, sendOk, sendOk', b)
    case Unsubscribed(sendOk) =>
      if n.held then var c := CloseHandle(n, sendOk, b); c.(finished := c.finished + 1) else n
    case Stopped(sendOk) =>
      if n.held then CloseHandle(n, sendOk, b) else n
    case Delivered(ok, sendOk) =>
      Call(n, Report(ok, sendOk), b)
  }

  /** Nothing happens after a fault, and the cloud client reports only on blocks it has. */
  predicate Possible(n: Node, e: Event) {
    !n.fault && (e.Delivered? ==> n.h.acked < |n.h.s.sent|)
  }

  predicate NodeInv(n: Node, b: pos) {
    && Inv(n.h, b)
    && (n.held ==> n.h.s.alive && !n.h.s.closed)
    && (!n.held && n.h.s.alive ==> n.h.s.closed)
    && (n.lastSeen ==> !n.held && (n.h.s.alive ==> n.h.closes > 1))
  }

  lemma HeldIsLive(n: Node, b: pos)
    requires NodeInv(n, b)
    ensures Inv(n.h, b) && (n.held ==> n.h.s.alive && !n.h.s.closed)
    ensures n.h.acked < |n.h.s.sent| ==> n.h.s.alive
  {}

  /** A run of a node: each state but the first is where the event between leads the one before it. */
  predicate NodeSteps(ns: seq<Node>, es: seq<Event>, b: pos) {
    && |ns| == |es| + 1
    && forall i :: 0 <= i < |es| ==>
         Fits(ns[i].h.s.w, b) && Possible(ns[i], es[i]) && ns[i + 1] == NodeStep(ns[i], es[i], b)
  }

  lemma CallKeeps(n: Node, e: UplinkRuns.Event, b: pos)
    requires NodeInv(n, b) && Legal(n.h, e)
    ensures Inv(Call(n, e, b).h, b)
    ensures var n' := Call(n, e, b); n'.held <==> n.held && n'.h.s.alive
    ensures var n' := Call(n, e, b); n'.h.s.alive && (n.h.s.closed || e.CloseCall?) ==> n'.h.s.closed
    ensures var n' := Call(n, e, b); n'.h.closes >= n.h.closes && (e.Report? ==> n'.h.s.closed == n.h.s.closed)
  {
    StepKeeps(n.h, e, b);
  }

  /** What a call on the uplink does to the node, in terms of how the call ended. */
  predicate Follows(n: Node, n': Node) {
    && n.h.s.ends == []
    && if n'.h.s.alive then n' == n.(h := n'.h)
       else |n'.h.s.ends| == 1 &&
            n' == n.(h := n'.h, held := false,
                     finished := n.finished + (if n'.h.s.ends[0] == Success then 0 else 1))
  }

  lemma CallOutcome(n: Node, e: UplinkRuns.Event, b: pos)
    requires Inv(n.h, b) && Legal(n.h, e)
    ensures Follows(n, Call(n, e, b)) && Call(n, e, b).h == UplinkRuns.Step(n.h, e, b)
  {
    hide UplinkRuns.Step, Framed, Open, Shut;
    StepKeeps(n.h, e, b);
  }

  lemma WriteCloses(h: History, payload: seq<byte>, last: bool, mallocs: nat, sendOk: bool, b: pos)
    requires Inv(h, b) && Legal(h, WriteCall(payload, last, mallocs, sendOk))
    ensures var h' := UplinkRuns.Step(h, WriteCall(payload, last, mallocs, sendOk), b);
            && (h'.s.alive ==> (h'.s.closed <==> last && !h'.starved))
            && (last && !h'.starved ==> h'.closes == 1)
  {
    hide Fill, Framed, Split, Flatten;
  }

  lemma PacketKeeps(n: Node, payload: seq<byte>, last: bool, mallocs: nat, sendOk: bool, sendOk': bool, b: pos)
    requires NodeInv(n, b) && n.held && !n.fault
    ensures var n' := HandlePayload(n, payload, last, mallocs, sendOk, sendOk', b); n'.fault || NodeInv(n', b)
  {
    var e := WriteCall(payload, last, mallocs, sendOk);
    CallKeeps(n, e, b);
    WriteCloses(n.h, payload, last, mallocs, sendOk, b);
    var written := Call(n, e, b);
    hide UplinkRuns.Step;
    if last && !written.h.starved && written.held {
      StepKeeps(written.h, CloseCall(sendOk'), b);
      SecondCloseCounts(written.h, sendOk', b);
    }
  }

  lemma SecondCloseCounts(h: History, sendOk: bool, b: pos)
    requires Fits(h.s.w, b)
    ensures var h' := UplinkRuns.Step(h, CloseCall(sendOk), b); h'.closes == h.closes + 1 && h'.s.closed
  {}

  lemma NodeStepKeeps(n: Node, e: Event, b: pos)
    requires NodeInv(n, b) && Possible(n, e)
    ensures NodeStep(n, e, b).fault || NodeInv(NodeStep(n, e, b), b)
  {
    hide Inv, HandlePayload, UplinkRuns.Step;
    HeldIsLive(n, b);
    match e
    case Packet(body, last, mallocs, sendOk, sendOk') =>
      if body.Some? && n.held {
        PacketKeeps(n, body.value, last, mallocs, sendOk, sendOk', b);
      }
    case Unsubscribed(sendOk) => if n.held { CallKeeps(n, CloseCall(sendOk), b); }
    case Stopped(sendOk) => if n.held { CallKeeps(n, CloseCall(sendOk), b); }
    case Delivered(ok, sendOk) => CallKeeps(n, Report(ok, sendOk), b);
  }

  /**
   * Over every run the handle denotes a live uplink that was never closed, and an uplink the
   * node has let go of is closed or gone.
   */
  lemma HandleIsLive(ns: seq<Node>, es: seq<Event>, b: pos)
    requires NodeSteps(ns, es, b) && ns[0] == Begin()
    ensures forall i :: 0 <= i < |ns| && !ns[i].fault ==>
              NodeInv(ns[i], b)
              && (ns[i].held <==> ns[i].h.s.alive && !ns[i].h.s.closed) && |ns[i].h.s.ends| <= 1
  {
    hide NodeInv, NodeStep;
    BeginHolds(b);
    for i := 0 to |es|
      invariant forall j :: 0 <= j <= i && !ns[j].fault ==> NodeInv(ns[j], b)
    {
      NodeStepKeeps(ns[i], es[i], b);
    }
    forall i | 0 <= i < |ns| && !ns[i].fault
      ensures (ns[i].held <==> ns[i].h.s.alive && !ns[i].h.s.closed) && |ns[i].h.s.ends| <= 1
    {
      HandleAndEnds(ns[i], b);
    }
  }

  lemma HandleAndEnds(n: Node, b: pos)
    requires NodeInv(n, b)
    ensures (n.held <==> n.h.s.alive && !n.h.s.closed) && |n.h.s.ends| <= 1
  {}

  lemma BeginHolds(b: pos)
    ensures NodeInv(Begin(), b)
  {
    StartHolds(b);
  }

  /**
   * Exactly when a NULL uplink is passed on: a packet comes without a handle, or writing the
   * last fragment itself already ends the uplink, because its first send is refused or because
   * nothing at all is left to send.
   */
  lemma FaultExactly(n: Node, e: Event, b: pos)
    requires NodeInv(n, b) && Possible(n, e)
    ensures NodeStep(n, e, b).fault <==>
            e.Packet? && e.body.Some? &&
            (!n.held || (e.last && Fill(n.h.s.q, n.h.s.w, e.body.value, e.mallocs, b).ok &&
              var w := WriteCall(e.body.value, true, e.mallocs, e.sendOk);
              ((Offers(n.h, w, b) && !e.sendOk) || Finishes(n.h, w, b))))
  {
    assert Fits(n.h.s.w, b);
    hide UplinkRuns.Step, Inv, Fill, Offers, Finishes, HandlePayload;
    HeldIsLive(n, b);
    if e.Packet? && e.body.Some? && n.held {
      var w := WriteCall(e.body.value, e.last, e.mallocs, e.sendOk);
      PayloadFault(n, e.body.value, e.last, e.mallocs, e.sendOk, e.sendOk', b);
      CallKeeps(n, w, b);
      SurvivesExactly(n.h, w, b);
      MemoryExactly(n.h, w, b);
    }
  }

  lemma PayloadFault(n: Node, payload: seq<byte>, last: bool, mallocs: nat, sendOk: bool, sendOk': bool, b: pos)
    requires Fits(n.h.s.w, b) && !n.fault
    ensures var w := WriteCall(payload, last, mallocs, sendOk);
            && (HandlePayload(n, payload, last, mallocs, sendOk, sendOk', b).fault <==>
                  last && !UplinkRuns.Step(n.h, w, b).starved && !Call(n, w, b).held)
            && Call(n, w, b).h == UplinkRuns.Step(n.h, w, b)
  {
    hide UplinkRuns.Step;
  }

  lemma MemoryExactly(h: History, e: UplinkRuns.Event, b: pos)
    requires Fits(h.s.w, b)
    ensures var h' := UplinkRuns.Step(h, e, b);
            var refused := e.WriteCall? && !Fill(h.s.q, h.s.w, e.payload, e.mallocs, b).ok;
            (e.WriteCall? ==> h'.starved == refused) && h'.lost == (h.lost || refused)
  {}

  // ----- Letting go, and finishing the connection

  /** The close that lets go of the uplink sends at once, and its block is refused. */
  predicate CloseRefused(n: Node, sendOk: bool) {
    !n.h.s.sending && Unsent(n.h.s) && !sendOk
  }

  /**
   * Letting go of the uplink, when the subscription ends or the connection is gone: the handle is
   * NULL and the uplink closed or gone afterwards. A handle that was set is closed once and
   * without a byte added or lost; one that was not set stays so, and nothing happens.
   */
  lemma LetsGo(n: Node, e: Event, sendOk: bool, b: pos)
    requires NodeInv(n, b) && Possible(n, e) && (e == Unsubscribed(sendOk) || e == Stopped(sendOk))
    ensures var n' := NodeStep(n, e, b);
            && !n'.held && (!n'.h.s.alive || n'.h.s.closed) && !n'.fault && n'.lastSeen == n.lastSeen
            && (!n.held ==> n' == n)
            && (n.held ==>
                  && n'.h.closes == n.h.closes + 1
                  && n'.h.accepted == n.h.accepted && n'.h.lost == n.h.lost
                  && n'.finished == n.finished + (if e.Unsubscribed? then 1 else 0)
                                  + (if CloseRefused(n, sendOk) then 1 else 0))
  {
    assert Fits(n.h.s.w, b);
    hide Inv, CloseHandle, CloseRefused;
    HeldIsLive(n, b);
    if n.held {
      ClosesOnce(n, sendOk, b);
    }
  }

  lemma ClosesOnce(n: Node, sendOk: bool, b: pos)
    requires NodeInv(n, b) && n.held
    ensures Fits(n.h.s.w, b)
    ensures var n' := CloseHandle(n, sendOk, b);
            && !n'.held && (!n'.h.s.alive || n'.h.s.closed) && n'.fault == n.fault && n'.lastSeen == n.lastSeen
            && n'.h.closes == n.h.closes + 1 && n'.h.accepted == n.h.accepted && n'.h.lost == n.h.lost
            && n'.finished == n.finished + (if CloseRefused(n, sendOk) then 1 else 0)
  {
    assert Fits(n.h.s.w, b);
    hide UplinkRuns.Step, Inv, Call;
    HeldIsLive(n, b);
    var c := CloseCall(sendOk);
    CallKeeps(n, c, b);
    CallOutcome(n, c, b);
    EndCause(n.h, c, b);
    CloseMoves(n.h, sendOk, b);
  }

  lemma CloseMoves(h: History, sendOk: bool, b: pos)
    requires Fits(h.s.w, b)
    ensures var h' := UplinkRuns.Step(h, CloseCall(sendOk), b);
            h'.closes == h.closes + 1 && h'.accepted == h.accepted && h'.lost == h.lost && h'.starved == h.starved
  {}

  /** The uplink ended in an error of its own or of the cloud. */
  predicate Errored(n: Node) {
    !n.h.s.alive && n.h.s.ends != [Success]
  }

  /**
   * The finishes of the node itself: for a packet that cannot be decoded, for one that finds no
   * memory, and for a subscription that ends with the uplink open.
   */
  predicate FinishesItself(n: Node, e: Event, b: pos)
    requires Fits(n.h.s.w, b)
  {
    match e
    case Packet(body, _, mallocs, _, _) =>
      body.None? || (n.held && !Fill(n.h.s.q, n.h.s.w, body.value, mallocs, b).ok)
    case Unsubscribed(_) => n.held
    case Stopped(_) => false
    case Delivered(_, _) => false
  }

  lemma CallFinishes(n: Node, e: UplinkRuns.Event, b: pos)
    requires Inv(n.h, b) && Legal(n.h, e)
    ensures var n' := Call(n, e, b);
            && !Errored(n) && n'.finished == n.finished + (if Errored(n') then 1 else 0)
            && n'.h == UplinkRuns.Step(n.h, e, b) && n'.fault == n.fault
  {
    hide UplinkRuns.Step, Inv;
    CallOutcome(n, e, b);
  }

  lemma PacketFinishes(n: Node, payload: seq<byte>, last: bool, mallocs: nat, sendOk: bool, sendOk': bool, b: pos)
    requires NodeInv(n, b) && n.held
    ensures Fits(n.h.s.w, b) && !Errored(n)
    ensures var n' := HandlePayload(n, payload, last, mallocs, sendOk, sendOk', b);
            n'.finished == n.finished + (if Errored(n') then 1 else 0)
                         + (if Fill(n.h.s.q, n.h.s.w, payload, mallocs, b).ok then 0 else 1)
  {
    assert Fits(n.h.s.w, b);
    hide UplinkRuns.Step, Inv, Fill, Call, Errored;
    HeldIsLive(n, b);
    var w := WriteCall(payload, last, mallocs, sendOk);
    CallKeeps(n, w, b);
    CallFinishes(n, w, b);
    MemoryExactly(n.h, w, b);
    var written := Call(n, w, b);
    if last && written.held {
      CallFinishes(written, CloseCall(sendOk'), b);
    }
    SameErrored(written);
  }

  lemma SameErrored(n: Node)
    ensures forall n': Node :: n'.h == n.h ==> Errored(n') == Errored(n)
  {}

  lemma StepFinishes(n: Node, e: Event, b: pos)
    requires NodeInv(n, b) && Possible(n, e)
    ensures Fits(n.h.s.w, b)
    ensures var n' := NodeStep(n, e, b);
            n'.finished + (if Errored(n) then 1 else 0) ==
              n.finished + (if FinishesItself(n, e, b) then 1 else 0) + (if Errored(n') then 1 else 0)
  {
    assert Fits(n.h.s.w, b);
    hide UplinkRuns.Step, Inv, Fill, Call, HandlePayload;
    HeldIsLive(n, b);
    match e
    case Packet(body, last, mallocs, sendOk, sendOk') =>
      if body.Some? && n.held {
        PacketFinishes(n, body.value, last, mallocs, sendOk, sendOk', b);
      }
    case Unsubscribed(sendOk) => if n.held { CallFinishes(n, CloseCall(sendOk), b); }
    case Stopped(sendOk) => if n.held { CallFinishes(n, CloseCall(sendOk), b); }
    case Delivered(ok, sendOk) => CallFinishes(n, Report(ok, sendOk), b);
  }

  /** How many of the first n events make the node finish the connection itself. */
  function OwnFinishes(ns: seq<Node>, es: seq<Event>, b: pos, n: nat): nat
    requires NodeSteps(ns, es, b) && n <= |es|
  {
    if n == 0 then 0
    else OwnFinishes(ns, es, b, n - 1) + (if FinishesItself(ns[n - 1], es[n - 1], b) then 1 else 0)
  }

  /**
   * Over every run the connection is finished once for each of these events, and once more if the
   * uplink ended in an error.
   */
  lemma {:induction false} FinishesExactly(ns: seq<Node>, es: seq<Event>, b: pos, n: nat)
    requires NodeSteps(ns, es, b) && ns[0] == Begin() && n <= |es|
    ensures ns[n].finished == OwnFinishes(ns, es, b, n) + (if Errored(ns[n]) then 1 else 0)
    decreases n
  {
    if n > 0 {
      HandleIsLive(ns, es, b);
      FinishesExactly(ns, es, b, n - 1);
      StepFinishes(ns[n - 1], es[n - 1], b);
      hide NodeStep, NodeInv, FinishesItself, Errored;
    }
  }

  // ----- Clean runs

  /** Packets come only while the node holds an uplink; no allocation, send or upload fails. */
  predicate Clean(n: Node, e: Event, b: pos)
    requires Fits(n.h.s.w, b)
  {
    match e
    case Packet(body, last, mallocs, sendOk, sendOk') =>
      sendOk && sendOk' &&
      (body.Some? ==> n.held && Fill(n.h.s.q, n.h.s.w, body.value, mallocs, b).ok)
    case Unsubscribed(sendOk) => sendOk
    case Stopped(sendOk) => sendOk
    case Delivered(ok, sendOk) => ok && sendOk && n.h.acked < |n.h.s.sent|
  }

  /** A run in which every step is clean. */
  predicate CleanSteps(ns: seq<Node>, es: seq<Event>, b: pos) {
    && |ns| == |es| + 1
    && forall i :: 0 <= i < |es| ==>
         Fits(ns[i].h.s.w, b) && Clean(ns[i], es[i], b) && ns[i + 1] == NodeStep(ns[i], es[i], b)
  }

  predicate CleanInv(n: Node, b: pos) {
    && NodeInv(n, b) && !n.fault && !n.h.lost
    && (!n.h.s.alive ==> n.h.s.ends == [Success])
  }

  lemma CleanCall(n: Node, e: UplinkRuns.Event, b: pos)
    requires Inv(n.h, b) && n.h.s.alive && !n.h.lost && Legal(n.h, e) && Ok(e)
    requires e.WriteCall? ==> Fill(n.h.s.q, n.h.s.w, e.payload, e.mallocs, b).ok
    ensures var n' := Call(n, e, b);
            && !n'.h.lost
            && (!n'.h.s.alive ==> n'.h.s.ends == [Success])
            && (e.WriteCall? ==> n'.h.s.alive && !n'.h.starved)
            && n'.finished == n.finished
            && n'.fault == n.fault
  {
    assert Fits(n.h.s.w, b);
    hide UplinkRuns.Step, Fill, Offers, Finishes, Inv;
    EndCause(n.h, e, b);
    SurvivesExactly(n.h, e, b);
    MemoryExactly(n.h, e, b);
    OverMeansOne(UplinkRuns.Step(n.h, e, b), n.h, e, b);
    if e.WriteCall? {
      WriteDoesNotFinish(n.h, e, b);
    }
  }

  lemma OverMeansOne(h': History, h: History, e: UplinkRuns.Event, b: pos)
    requires Inv(h, b) && Legal(h, e) && h' == UplinkRuns.Step(h, e, b)
    ensures !h'.s.alive ==> |h'.s.ends| == 1
  {
    StepKeeps(h, e, b);
  }

  lemma CleanPacket(n: Node, payload: seq<byte>, last: bool, mallocs: nat, sendOk: bool, sendOk': bool, b: pos)
    requires CleanInv(n, b) && n.held && sendOk && sendOk'
    requires Fill(n.h.s.q, n.h.s.w, payload, mallocs, b).ok
    ensures var n' := HandlePayload(n, payload, last, mallocs, sendOk, sendOk', b);
            && !n'.fault && !n'.h.lost && (!n'.h.s.alive ==> n'.h.s.ends == [Success]) && n'.finished == n.finished
            && n'.lastSeen == (n.lastSeen || last)
  {
    var w := WriteCall(payload, last, mallocs, sendOk);
    CleanCall(n, w, b);
    CallKeeps(n, w, b);
    var written := Call(n, w, b);
    hide Fill, UplinkRuns.Step;
    if last {
      CleanCall(written, CloseCall(sendOk'), b);
    }
  }

  /** The packet with the last fragment. */
  predicate IsLastPacket(e: Event) {
    e.Packet? && e.body.Some? && e.last
  }

  lemma CleanStep(n: Node, e: Event, b: pos)
    requires CleanInv(n, b) && Clean(n, e, b)
    ensures CleanInv(NodeStep(n, e, b), b)
    ensures NodeStep(n, e, b).lastSeen <==> n.lastSeen || IsLastPacket(e)
    ensures !e.Unsubscribed? && (e.Packet? ==> e.body.Some?) ==> NodeStep(n, e, b).finished == n.finished
  {
    NodeStepKeeps(n, e, b);
    match e
    case Packet(body, last, mallocs, sendOk, sendOk') =>
      if body.Some? {
        CleanPacket(n, body.value, last, mallocs, sendOk, sendOk', b);
      }
    case Unsubscribed(sendOk) => if n.held { CleanCall(n, CloseCall(sendOk), b); }
    case Stopped(sendOk) => if n.held { CleanCall(n, CloseCall(sendOk), b); }
    case Delivered(ok, sendOk) => CleanCall(n, Report(ok, sendOk), b);
  }

  lemma CleanRunKeeps(ns: seq<Node>, es: seq<Event>, b: pos)
    requires CleanSteps(ns, es, b) && ns[0] == Begin()
    ensures forall i :: 0 <= i < |ns| ==> CleanInv(ns[i], b)
    ensures ns[|es|].lastSeen <==> exists k :: 0 <= k < |es| && IsLastPacket(es[k])
  {
    BeginHolds(b);
    assert CleanInv(Begin(), b);
    hide CleanInv, NodeStep, Clean, IsLastPacket;
    for i := 0 to |es|
      invariant forall j :: 0 <= j <= i ==> CleanInv(ns[j], b)
      invariant ns[i].lastSeen <==> exists k :: 0 <= k < i && IsLastPacket(es[k])
    {
      CleanStep(ns[i], es[i], b);
    }
  }

  /**
   * In a clean run no NULL uplink is ever passed on; and once the packet with the last fragment
   * has come and every block is reported, success has been announced exactly once, also for an
   * empty pouch, and the cloud has exactly the canonical blocks of the stream.
   */
  lemma CleanRunDelivers(ns: seq<Node>, es: seq<Event>, b: pos)
    requires CleanSteps(ns, es, b) && ns[0] == Begin()
    ensures var n := ns[|es|];
            && !n.fault
            && ((exists k :: 0 <= k < |es| && IsLastPacket(es[k])) && n.h.acked == |n.h.s.sent| ==>
                  n.h.s.ends == [Success] && n.h.s.sent == Canonical(n.h.accepted, b, true))
  {
    CleanRunKeeps(ns, es, b);
    var n := ns[|es|];
    SentIsPrefix(n.h, b);
    if n.lastSeen && n.h.acked == |n.h.s.sent| {
      assert !n.h.s.alive;
      if n.h.accepted == [] {
        assert Canonical(n.h.accepted, b, true) == [] == Canonical(n.h.accepted, b, n.h.held);
      }
    }
  }

  /**
   * A clean upload leaves the connection to the downlink: unless a packet cannot be decoded or
   * the subscription ends, the connection is not finished from here.
   */
  lemma CleanRunStaysConnected(ns: seq<Node>, es: seq<Event>, b: pos)
    requires CleanSteps(ns, es, b) && ns[0] == Begin()
    requires forall i :: 0 <= i < |es| ==> !es[i].Unsubscribed? && (es[i].Packet? ==> es[i].body.Some?)
    ensures ns[|es|].finished == 0
  {
    CleanRunKeeps(ns, es, b);
    hide CleanInv, NodeStep, Clean;
    for i := 0 to |es|
      invariant ns[i].finished == 0
    {
      CleanStep(ns[i], es[i], b);
    }
  }

  // ----- A connection that goes before the first byte

  /**
   * A single close before any byte is the case the ending does not cover: if the connection
   * goes then, nothing that can still happen ends or frees the uplink.
   */
  lemma EmptyDisconnectNeverEnds(n: Node, e: Event, b: pos)
    requires n.h.s == Opened().(closed := true, w := None) && n.h.acked == 0 && !n.held && Possible(n, e)
    ensures NodeStep(n, e, b).h == n.h && !NodeStep(n, e, b).held
  {}

  lemma StoppedBeforeFirstByte(ns: seq<Node>, es: seq<Event>, b: pos)
    requires NodeSteps(ns, es, b) && ns[0] == Begin() && es != [] && es[0].Stopped?
    ensures forall i :: 0 < i < |ns| ==> ns[i].h == ns[1].h
    ensures ns[|es|].h.s.alive && ns[|es|].h.s.ends == []
  {
    assert Submit(Opened()).q == [[]];
    assert ns[1] == NodeStep(Begin(), es[0], b);
    assert ns[1].h.s == Opened().(closed := true, w := None) && ns[1].h.acked == 0 && !ns[1].held;
    hide NodeStep;
    for i := 1 to |es|
      invariant forall j :: 0 < j <= i ==> ns[j].h == ns[1].h && !ns[j].held
    {
      EmptyDisconnectNeverEnds(ns[i], es[i], b);
    }
  }
}
