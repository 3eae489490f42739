/**
 * What each entry point of the uplink does, on values. The class in Uplink.dfy is proved to
 * take exactly these steps; UplinkRuns.dfy proves what any sequence of them guarantees.
 */
module UplinkSpec {
  import opened Base

  /** block_idx is a uint32_t. */
  const INDEX_MODULUS := 0x1_0000_0000

  /** The argument of the end callback. */
  datatype Outcome = Success | ErrorLocal | ErrorCloud

  /** One block accepted by the cloud client. */
  datatype Frame = Frame(index: nat, data: seq<byte>, last: bool)

  /**
   * An uplink: its two flags, the block being written, the block in flight and the queue
   * between them, plus what the outside has seen: the blocks handed to the cloud client and
   * the calls of the end callback. `alive` is false once the uplink has been freed.
   */
  datatype State = State(
    alive: bool, closed: bool, sending: bool, blockIdx: nat,
    w: Option<seq<byte>>, r: Option<seq<byte>>, q: seq<seq<byte>>,
    sent: seq<Frame>, ends: seq<Outcome>)

  function Opened(): State {
    State(true, false, false, 0, Some([]), None, [], [], [])
  }

  predicate Fits(w: Option<seq<byte>>, b: pos) {
    w.Some? ==> |w.value| <= b
  }

  function Written(w: Option<seq<byte>>): seq<byte> {
    if w.Some? then w.value else []
  }

  /** The end callback followed by the release of every block and of the uplink itself. */
  function Ended(s: State, outcome: Outcome): State {
    s.(alive := false, w := None, r := None, q := [], ends := s.ends + [outcome])
  }

  /** The block in flight is offered to the cloud client, which accepts it if `sendOk`. */
  function Send(s: State, sendOk: bool): State
    requires s.r.Some?
  {
    var next := s.(blockIdx := (s.blockIdx + 1) % INDEX_MODULUS);
    if sendOk then next.(sent := s.sent + [Frame(s.blockIdx, s.r.value, s.q == [] && s.closed)])
    else Ended(next, ErrorLocal)
  }

  /** One attempt to get the next queued block under way. */
  function Process(s: State, sendOk: bool): (s': State)
    ensures s'.w == None || s'.w == s.w
  {
    if s.sending then s
    else if s.q == [] then
      if s.closed then Ended(s.(sending := true), Success) else s
    else if s.q[0] == [] then
      s.(q := s.q[1..], r := None)
    else
      Send(s.(sending := true, q := s.q[1..], r := Some(s.q[0])), sendOk)
  }

  /** The queue and write block after a payload, how much of it was taken, and whether all was. */
  datatype Filled = Filled(q: seq<seq<byte>>, w: Option<seq<byte>>, taken: nat, ok: bool)

  /**
   * Packing a payload behind the block being written when `mallocs` allocations succeed.
   * The stream so far is divided as a whole; the last block stays open. With too few blocks
   * available, those there are go out full and the rest of the payload is refused.
   */
  function Fill(q: seq<seq<byte>>, w: Option<seq<byte>>, payload: seq<byte>, mallocs: nat, b: pos): (f: Filled)
    requires Fits(w, b)
    ensures Fits(f.w, b) && f.taken <= |payload|
    ensures f.ok ==> f.taken == |payload|
  {
    var blocks := (if w.Some? then 1 else 0) + mallocs;
    var chunks := Split(Written(w) + payload, b);
    if payload == [] then Filled(q, w, 0, true)
    else if |chunks| <= blocks then
      Filled(q + chunks[..|chunks| - 1], Some(chunks[|chunks| - 1]), |payload|, true)
    else
      FullPrefix(Written(w) + payload, blocks, b);
      FirstChunk(Written(w) + payload, b);
      assert blocks > 0 ==> blocks * b >= b;
      Filled(q + chunks[..blocks], None, blocks * b - |Written(w)|, false)
  }

  lemma FirstChunk(t: seq<byte>, b: pos)
    ensures t != [] ==> |Split(t, b)[0]| <= |t|
  {}

  /** All chunks but the last are full, so the first n of several hold n * b bytes of the stream. */
  lemma {:induction false} FullPrefix(t: seq<byte>, n: nat, b: pos)
    requires n < |Split(t, b)|
    ensures n * b < |t|
    ensures AllFull(Split(t, b)[..n], b)
    ensures Flatten(Split(t, b)[..n]) == t[..n * b]
    decreases n
  {
    if n == 0 {
      assert Split(t, b)[..0] == [];
    } else {
      var tail := Split(t[b..], b)[..n - 1];
      FullPrefix(t[b..], n - 1, b);
      assert n * b == b + (n - 1) * b;
      assert Split(t, b)[..n] == [t[..b]] + tail;
      FlattenConcat([t[..b]], tail);
      FlattenSnoc([], t[..b]);
      assert [] + [t[..b]] == [t[..b]];
      assert t[..n * b] == t[..b] + t[b..][..(n - 1) * b];
    }
  }

  /** The three moves of the packing loop leave the outcome of the rest of the packing unchanged. */
  predicate Resumes(whole: Filled, part: Filled, done: nat) {
    whole.q == part.q && whole.w == part.w && whole.ok == part.ok && whole.taken == done + part.taken
  }

  lemma FillNothing(q: seq<seq<byte>>, w: Option<seq<byte>>, mallocs: nat, b: pos)
    requires Fits(w, b)
    ensures Fill(q, w, [], mallocs, b) == Filled(q, w, 0, true)
  {}

  lemma FillSubmit(q: seq<seq<byte>>, full: seq<byte>, rest: seq<byte>, mallocs: nat, b: pos)
    requires |full| == b && rest != []
    ensures Fill(q, Some(full), rest, mallocs, b) == Fill(q + [full], None, rest, mallocs, b)
  {
    hide Split;
    SplitCons(full, rest, b);
    assert [] + rest == rest;
    var chunks, tail := Split(full + rest, b), Split(rest, b);
    if |chunks| <= 1 + mallocs {
      assert q + chunks[..|chunks| - 1] == q + [full] + tail[..|tail| - 1];
    } else {
      assert q + chunks[..1 + mallocs] == q + [full] + tail[..mallocs];
      assert (1 + mallocs) * b == b + mallocs * b;
    }
  }

  lemma FillAlloc(q: seq<seq<byte>>, rest: seq<byte>, mallocs: nat, b: pos)
    requires rest != [] && mallocs > 0
    ensures Fill(q, None, rest, mallocs, b) == Fill(q, Some([]), rest, mallocs - 1, b)
  {}

  lemma FillCopy(q: seq<seq<byte>>, w: seq<byte>, rest: seq<byte>, n: nat, mallocs: nat, b: pos)
    requires 0 < n <= |rest| && |w| + n <= b
    ensures Resumes(Fill(q, Some(w), rest, mallocs, b), Fill(q, Some(w + rest[..n]), rest[n..], mallocs, b), n)
  {
    assert w + rest == w + rest[..n] + rest[n..];
    if n == |rest| {
      assert rest[..n] == rest;
      assert Split(w + rest, b) == [w + rest];
      assert q + [w + rest][..0] == q;
    }
  }

  function Write(s: State, payload: seq<byte>, last: bool, mallocs: nat, sendOk: bool, b: pos): (s': State)
    requires Fits(s.w, b)
    ensures Fits(s'.w, b)
  {
    var f := Fill(s.q, s.w, payload, mallocs, b);
    var packed := s.(q := f.q, w := f.w);
    if !f.ok then packed
    else if last then Close(packed, sendOk)
    else Process(packed, sendOk)
  }

  function Submit(s: State): State {
    if s.w.Some? then s.(q := s.q + [s.w.value], w := None) else s
  }

  function Close(s: State, sendOk: bool): State {
    Process((if s.closed then s else Submit(s)).(closed := true), sendOk)
  }

  /** The client reports on the block in flight; `ok` is its status. */
  function Uploaded(s: State, ok: bool, sendOk: bool): State {
    if !s.sending then s
    else
      var idle := s.(sending := false, r := None);
      if ok then Process(idle, sendOk) else Ended(idle, ErrorCloud)
  }
}
