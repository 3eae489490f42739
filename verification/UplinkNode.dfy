/** The node's side of an uplink, lib/bt/uplink.c: callbacks that drive the uplink and drop it. */
module UplinkNode {
  import opened Base
  import Spec = UplinkSpec
  import Runs = UplinkRuns
  import opened UplinkNodeRuns
  import U = Uplink

  datatype Iter = Stop | Continue

  class UplinkNode {
    const b: pos
    var uplink: U.Uplink?
    var finished: nat
    /** A NULL uplink was about to be used. */
    var fault: bool
    /** The uplink the cloud client calls back on, its past, and whether the last fragment came. */
    ghost var session: U.Uplink
    ghost var h: Runs.History
    ghost var lastSeen: bool

    ghost function Model(): Node
      reads this
    {
      Node(h, uplink != null, finished, lastSeen, fault)
    }

    /** The handle is the session or NULL, and the session is where its past led. */
    ghost predicate Linked()
      reads this, session, session.Buffer()
    {
      && session.Valid() && session.b == b
      && h.s == session.Model()
      && (uplink != null ==> uplink == session && session.alive)
    }

    ghost predicate Valid()
      reads this, session, session.Buffer()
    {
      Linked() && (fault || NodeInv(Model(), b))
    }

    constructor (started: U.Uplink)
      requires started.Valid() && started.alive && started.Model() == Spec.Opened()
      ensures Valid() && b == started.b && session == started && Model() == Begin()
    {
      b := started.b;
      uplink, session, finished, fault := started, started, 0, false;
      h, lastSeen := Runs.Start(), false;
      BeginHolds(started.b);
    }

    /**
     * pouch_gateway_uplink_start: a node whose uplink opens; if it does not, the connection is
     * finished at once.
     */
    static method Start(b: pos, uplinkMalloc: bool, blockMalloc: bool, sessionOk: bool)
        returns (node: UplinkNode?, finishes: nat)
      ensures node == null <==> !(uplinkMalloc && blockMalloc && sessionOk)
      ensures finishes == if node == null then 1 else 0
      ensures node != null ==> fresh(node) && fresh(node.session) && fresh(node.session.Buffer()) && node.b == b
      ensures node != null ==> node.Valid() && node.Model() == Begin()
    {
      node, finishes := null, 0;
      var started := U.Uplink.Open(b, uplinkMalloc, blockMalloc, sessionOk);
      if started == null {
        finishes := 1;
      } else {
        node := new UplinkNode(started);
      }
    }

    method UplinkEndCb(result: Spec.Outcome)
      modifies this`uplink, this`finished
      ensures uplink == null && finished == old(finished) + (if result == Spec.Success then 0 else 1)
    {
      uplink := null;
      if result != Spec.Success {
        finished := finished + 1;
      }
    }

    /** Runs the end callback that a call on the uplink reported, if any. */
    method Notify(ended: Option<Spec.Outcome>)
      modifies this`uplink, this`finished
      ensures uplink == if ended.Some? then null else old(uplink)
      ensures finished == old(finished) + (if ended.None? || ended.value == Spec.Success then 0 else 1)
    {
      if ended.Some? {
        UplinkEndCb(ended.value);
      }
    }

    method WriteThrough(payload: seq<byte>, last: bool, mallocs: nat, sendOk: bool) returns (ok: bool)
      requires Linked() && uplink != null && Runs.Inv(h, b) && !session.closed
      modifies this`uplink, this`finished, this`h, session, session.Buffer()
      ensures fresh(session.Buffer() - old(session.Buffer()))
      ensures Model() == Call(old(Model()), Runs.WriteCall(payload, last, mallocs, sendOk), b)
      ensures Linked() && ok == !h.starved
    {
      ghost var e := Runs.WriteCall(payload, last, mallocs, sendOk);
      hide U.Uplink.Valid, U.Uplink.Model, U.Uplink.W, Runs.Inv, Spec.Write, Spec.Fill, Call;
      CallOutcome(Model(), e, b);
      MemoryExactly(h, e, b);
      var ended;
      ok, ended := uplink.Write(payload, last, mallocs, sendOk);
      Notify(ended);
      h := Runs.Step(h, e, b);
    }

    method CloseThrough(sendOk: bool)
      requires Linked() && uplink != null && Runs.Inv(h, b)
      modifies this`uplink, this`finished, this`h, session
      ensures session.Buffer() <= old(session.Buffer())
      ensures Model() == CloseHandle(old(Model()), sendOk, b)
      ensures Linked()
    {
      ghost var e := Runs.CloseCall(sendOk);
      hide U.Uplink.Valid, U.Uplink.Model, U.Uplink.W, Runs.Inv, Spec.Close, Call;
      CallOutcome(Model(), e, b);
      var ended := uplink.Close(sendOk);
      Notify(ended);
      h := Runs.Step(h, e, b);
      uplink := null;
    }

    method WritePayload(payload: seq<byte>, last: bool, mallocs: nat, sendOk: bool, sendOk': bool)
        returns (iter: Iter)
      requires Valid() && !fault && uplink != null
      modifies this, session, session.Buffer()
      ensures Linked() && session == old(session) && fresh(session.Buffer() - old(session.Buffer()))
      ensures Model() == HandlePayload(old(Model()), payload, last, mallocs, sendOk, sendOk', b)
      ensures iter == Continue <==> !last && !h.starved
    {
      hide U.Uplink.Valid, U.Uplink.Model, U.Uplink.W, Runs.Inv, NodeInv, Call, CloseHandle;
      HeldIsLive(Model(), b);
      CallKeeps(Model(), Runs.WriteCall(payload, last, mallocs, sendOk), b);
      var ok := WriteThrough(payload, last, mallocs, sendOk);
      iter := Stop;
      if !ok {
        finished := finished + 1;
      } else if last {
        if uplink == null {
          fault := true;
        } else {
          CloseThrough(sendOk');
          lastSeen := true;
        }
      } else {
        iter := Continue;
      }
    }

    /** One packet; `body` is None when it cannot be decoded. */
    method HandleUplinkPayload(body: Option<seq<byte>>, last: bool, mallocs: nat, sendOk: bool, sendOk': bool)
        returns (iter: Iter)
      requires Valid() && !fault
      modifies this, session, session.Buffer()
      ensures Valid() && session == old(session) && fresh(session.Buffer() - old(session.Buffer()))
      ensures Model() == NodeStep(old(Model()), Packet(body, last, mallocs, sendOk, sendOk'), b)
      ensures iter == Continue <==> body.Some? && old(uplink) != null && !last && !h.starved
    {
      hide U.Uplink.Valid, U.Uplink.Model, HandlePayload, NodeInv;
      NodeStepKeeps(Model(), Packet(body, last, mallocs, sendOk, sendOk'), b);
      iter := Stop;
      if body.None? {
        finished := finished + 1;
      } else if uplink == null {
        fault := true;
      } else {
        iter := WritePayload(body.value, last, mallocs, sendOk, sendOk');
      }
    }

    /** tf_uplink_indicate_cb without data. */
    method SubscriptionTerminated(sendOk: bool)
      requires Valid() && !fault
      modifies this`uplink, this`finished, this`h, session
      ensures Valid() && session.Buffer() <= old(session.Buffer())
      ensures Model() == NodeStep(old(Model()), Unsubscribed(sendOk), b)
    {
      hide U.Uplink.Valid, U.Uplink.Model, Runs.Inv, NodeInv, CloseHandle;
      HeldIsLive(Model(), b);
      NodeStepKeeps(Model(), Unsubscribed(sendOk), b);
      if uplink != null {
        CloseThrough(sendOk);
        finished := finished + 1;
      }
    }

    /** pouch_gateway_uplink_cleanup. */
    method UplinkCleanup(sendOk: bool)
      requires Valid() && !fault
      modifies this`uplink, this`finished, this`h, session
      ensures Valid() && session.Buffer() <= old(session.Buffer())
      ensures Model() == NodeStep(old(Model()), Stopped(sendOk), b)
    {
      hide U.Uplink.Valid, U.Uplink.Model, Runs.Inv, NodeInv, CloseHandle;
      HeldIsLive(Model(), b);
      NodeStepKeeps(Model(), Stopped(sendOk), b);
      if uplink != null {
        CloseThrough(sendOk);
      }
    }

    /** The cloud client reports on a block of its session. */
    method BlockDelivered(target: U.Uplink, ok: bool, sendOk: bool)
      requires Valid() && target == session && Possible(Model(), Delivered(ok, sendOk))
      modifies this`uplink, this`finished, this`h, session
      ensures Valid() && session.Buffer() <= old(session.Buffer())
      ensures Model() == NodeStep(old(Model()), Delivered(ok, sendOk), b)
    {
      ghost var e := Runs.Report(ok, sendOk);
      hide U.Uplink.Valid, U.Uplink.Model, U.Uplink.W, NodeInv, Call, Spec.Uploaded, Runs.Inv, Runs.Step;
      HeldIsLive(Model(), b);
      ReportMoves(h, ok, sendOk, b);
      NodeStepKeeps(Model(), Delivered(ok, sendOk), b);
      CallOutcome(Model(), e, b);
      var ended := target.BlockUploadCallback(ok, sendOk);
      Notify(ended);
      h := Runs.Step(h, e, b);
    }
  }

  lemma ReportMoves(h: Runs.History, ok: bool, sendOk: bool, b: pos)
    requires Runs.Inv(h, b) && h.acked < |h.s.sent|
    ensures h.s.alive && h.s.sending && h.s.r.Some?
    ensures Runs.Step(h, Runs.Report(ok, sendOk), b).s == Spec.Uploaded(h.s, ok, sendOk)
  {
    hide Runs.Framed, Runs.Open, Runs.Shut;
  }
}
