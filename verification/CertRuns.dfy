/**
 * The server certificate exchange, lib/bt/cert.c: chunks go out one write at a time while
 * refreshes of the certificate come in between.
 */
module CertRuns {
  import opened Base
  import opened CertSpec

  /**
   * The handle of the certificate characteristic, the MTU, which every write reads again, and the
   * room for payload in a packet.
   */
  datatype Link = Link(handle: nat, mtu: nat, cap: pos)

  /** Under way; done and on to the device certificate, with the certificate installed then; or given up. */
  datatype Phase = Running | MovedOn(cert: seq<byte>) | Stopped

  /**
   * The store and the exchange with its past: the certificate last installed, the number of
   * installs, the number when the current transfer started, its chunks, and the transfers begun.
   */
  datatype Exchange = Exchange(
    st: Store, cert: seq<byte>, installs: nat,
    phase: Phase, ctx: Option<Context>, outstanding: nat,
    since: nat, chunks: seq<seq<byte>>, rounds: nat)

  datatype Event =
    | Refreshed(d: Download)
    | Response(scratchOk: bool, gattOk: bool)

  function Cleanup(x: Exchange, phase: Phase): Exchange {
    x.(phase := phase, ctx := None)
  }

  /** `ok` is false when nothing was written because of the MTU or for want of data. */
  datatype Tried = Tried(x: Exchange, ok: bool)

  function WriteCharacteristic(x: Exchange, link: Link, gattOk: bool): Tried
    requires Sound(x.st) && x.ctx.Some?
  {
    if link.mtu < ATT_OVERHEAD then Tried(x, false)
    else
      match GetData(x.st, x.ctx.value, link.cap)
      case NoData => Tried(x, false)
      case Data(c, bytes, _) =>
        var x' := x.(ctx := Some(c));
        if gattOk then Tried(x'.(outstanding := x.outstanding + 1, chunks := x.chunks + [bytes]), true)
        else Tried(Cleanup(x', Stopped), true)
  }

  /** The result of the first write is not looked at. */
  function WriteStart(x: Exchange, link: Link, scratchOk: bool, gattOk: bool): Exchange
    requires Sound(x.st)
  {
    if link.handle == 0 || !scratchOk || link.mtu < ATT_OVERHEAD then Cleanup(x, Stopped)
    else
      var x' := x.(phase := Running, ctx := Some(Begin(x.st)),
                   since := x.installs, chunks := [], rounds := x.rounds + 1);
      WriteCharacteristic(x', link, gattOk).x
  }

  function WriteResponse(x: Exchange, link: Link, scratchOk: bool, gattOk: bool): Exchange
    requires Sound(x.st) && x.ctx.Some?
  {
    if IsComplete(x.st, x.ctx.value) then
      if IsNewest(x.st, x.ctx.value) then Cleanup(x, MovedOn(x.cert))
      else WriteStart(Cleanup(x, Running), link, scratchOk, gattOk)
    else
      var t := WriteCharacteristic(x, link, gattOk);
      if t.ok then t.x else Cleanup(t.x, Stopped)
  }

  function Install(x: Exchange, d: Download): Exchange
    requires d.Downloaded? ==> |d.data| <= |x.st.buf|
  {
    var x' := x.(st := Refresh(x.st, d));
    if d.Downloaded? && d.parses then x'.(cert := d.data, installs := x.installs + 1) else x'
  }

  /** What the surroundings guarantee: downloads fit the buffer, responses answer writes. */
  predicate Legal(x: Exchange, e: Event) {
    Sound(x.st) && match e
    case Refreshed(d) => d.Downloaded? ==> |d.data| <= |x.st.buf|
    case Response(_, _) => x.outstanding > 0 && x.ctx.Some?
  }

  function Step(x: Exchange, e: Event, link: Link): Exchange
    requires Legal(x, e)
  {
    match e
    case Refreshed(d) => Install(x, d)
    case Response(scratchOk, gattOk) =>
      WriteResponse(x.(outstanding := x.outstanding - 1), link, scratchOk, gattOk)
  }

  // ----- What keeps the buffer and the installed certificate the same

  predicate Installed(x: Exchange) {
    Sound(x.st) && x.st.buf[..x.st.len] == x.cert
  }

  /** A download that fails to parse does no harm where it repeats the installed bytes. */
  predicate Harmless(x: Exchange, d: Download)
    requires Sound(x.st)
  {
    d.Downloaded? && !d.parses ==>
      forall i :: 0 <= i < |d.data| && i < x.st.len ==> d.data[i] == x.st.buf[i]
  }

  /** Exactly the harmless refreshes leave the buffer holding the installed certificate. */
  lemma RefreshHarmless(x: Exchange, d: Download)
    requires Installed(x) && Legal(x, Refreshed(d))
    ensures Installed(Install(x, d)) <==> Harmless(x, d)
  {
    var x' := Install(x, d);
    if d.Downloaded? && d.parses {
      assert x'.st.buf[..x'.st.len] == d.data;
    } else if d.Downloaded? {
      var n := x.st.len;
      if Harmless(x, d) {
        assert x'.st.buf[..n] == x.st.buf[..n];
      } else {
        var i :| 0 <= i < |d.data| && i < n && d.data[i] != x.st.buf[i];
        assert x'.st.buf[..n][i] != x.st.buf[..n][i];
      }
    }
  }

  // ----- Runs

  /** A run: each state but the first is where the event between leads the state before it. */
  predicate Steps(xs: seq<Exchange>, es: seq<Event>, ls: seq<Link>) {
    && |xs| == |es| + 1 && |ls| == |es|
    && forall i :: 0 <= i < |es| ==> Legal(xs[i], es[i]) && xs[i + 1] == Step(xs[i], es[i], ls[i])
  }

  /** Refreshes are harmless, and fewer than 2^32 certificates are installed during one transfer. */
  predicate Tame(x: Exchange, e: Event) {
    Legal(x, e) && match e
    case Refreshed(d) =>
      Harmless(x, d) &&
      (d.Downloaded? && d.parses && x.phase == Running ==> x.installs + 1 - x.since < ID_MODULUS)
    case Response(_, _) => true
  }

  predicate Capable(link: Link) {
    link.handle != 0 && link.mtu >= ATT_OVERHEAD
  }

  /** Besides, writes and allocations succeed, and no certificate is empty. */
  predicate Fine(x: Exchange, e: Event, link: Link) {
    Tame(x, e) && match e
    case Refreshed(d) => d.Downloaded? && d.parses ==> d.data != []
    case Response(scratchOk, gattOk) => scratchOk && gattOk && x.phase == Running && Capable(link)
  }

  predicate Stale(x: Exchange) {
    x.since < x.installs
  }

  /**
   * Whatever fails: there is a context only while the exchange is under way; the chunks of a
   * transfer that nothing overtook are the beginning of the installed certificate; and those of
   * an exchange that moved on were all of it.
   */
  predicate Safe(x: Exchange) {
    && Installed(x)
    && x.st.id == x.installs % ID_MODULUS
    && x.since <= x.installs
    && (x.ctx.Some? ==>
          && x.phase == Running
          && x.installs < x.since + ID_MODULUS
          && x.ctx.value.id == x.since % ID_MODULUS
          && |Flatten(x.chunks)| == x.ctx.value.offset
          && (!Stale(x) ==> x.ctx.value.offset <= x.st.len && Flatten(x.chunks) == x.cert[..x.ctx.value.offset]))
    && (x.phase.MovedOn? ==> Flatten(x.chunks) == x.phase.cert)
  }

  /** If nothing fails, one write is under way until the exchange moves on. */
  predicate Inv(x: Exchange) {
    && Safe(x) && x.cert != [] && x.phase != Stopped
    && (x.phase == Running ==> x.outstanding == 1 && x.ctx.Some? && x.ctx.value.offset > 0)
  }

  /** An exchange about to start on an installed certificate. */
  function Starting(st: Store, installs: nat): Exchange
    requires Sound(st)
  {
    Exchange(st, st.buf[..st.len], installs, Running, None, 0, installs, [], 0)
  }

  lemma StartingIsSafe(st: Store, installs: nat)
    requires Sound(st) && st.id == installs % ID_MODULUS
    ensures Safe(Starting(st, installs))
  {}

  /** Within 2^32 installs the ids agree only if nothing was installed. */
  lemma SameIdSameVersion(x: Exchange)
    requires Safe(x) && x.ctx.Some?
    ensures IsNewest(x.st, x.ctx.value) <==> !Stale(x)
  {
    var a, c := x.since, x.installs;
    assert a % ID_MODULUS == c % ID_MODULUS ==> (c - a) % ID_MODULUS == 0;
  }

  /** The check itself, without a bound: the ids agree after each multiple of 2^32 installs. */
  lemma NewestExactly(x: Exchange)
    requires x.ctx.Some? && x.ctx.value.id == x.since % ID_MODULUS && x.st.id == x.installs % ID_MODULUS
    requires x.since <= x.installs
    ensures IsNewest(x.st, x.ctx.value) <==> (x.installs - x.since) % 0x1_0000_0000 == 0
  {
    var a, c := x.since, x.installs;
    assert (c - a) % ID_MODULUS == 0 <==> a % ID_MODULUS == c % ID_MODULUS;
  }

  /** A write attempt, whether it succeeds or not. */
  lemma WriteSafe(x: Exchange, link: Link, gattOk: bool)
    requires Safe(x) && x.ctx.Some?
    ensures var t := WriteCharacteristic(x, link, gattOk); Safe(t.x) && Safe(Cleanup(t.x, Stopped))
  {
    if link.mtu >= ATT_OVERHEAD && x.ctx.value.offset < x.st.len {
      var o, len := x.ctx.value.offset, x.st.len;
      var got := GetData(x.st, x.ctx.value, link.cap);
      FlattenSnoc(x.chunks, got.bytes);
      if !Stale(x) {
        SliceOfPrefix(x.st.buf, len, o, |got.bytes|);
        assert got.bytes == x.st.buf[..len][o..o + |got.bytes|] == x.cert[o..o + |got.bytes|];
        PrefixGrows(x.cert, o, |got.bytes|);
      }
    }
    hide Flatten;
  }

  lemma SliceOfPrefix(buf: seq<byte>, len: nat, o: nat, n: nat)
    requires o + n <= len <= |buf|
    ensures buf[..len][o..o + n] == buf[o..o + n]
  {}

  lemma PrefixGrows(cert: seq<byte>, o: nat, n: nat)
    requires o + n <= |cert|
    ensures cert[..o] + cert[o..o + n] == cert[..o + n]
  {}

  /** An accepted write moves the transfer on. */
  lemma WriteAdvances(x: Exchange, link: Link)
    requires Sound(x.st) && x.ctx.Some? && x.ctx.value.offset < x.st.len && link.mtu >= ATT_OVERHEAD
    ensures var t := WriteCharacteristic(x, link, true);
            && t.ok && t.x.ctx.Some? && t.x.ctx.value.offset > x.ctx.value.offset
            && t.x == x.(ctx := t.x.ctx, outstanding := x.outstanding + 1, chunks := t.x.chunks)
  {}

  /** The state of a transfer before its first write. */
  function Begun(x: Exchange): Exchange {
    x.(phase := Running, ctx := Some(Begin(x.st)), since := x.installs, chunks := [], rounds := x.rounds + 1)
  }

  lemma BegunIsSafe(x: Exchange)
    requires Safe(x)
    ensures Safe(Begun(x)) && !Stale(Begun(x))
  {
    assert x.cert[..0] == [];
  }

  lemma StartSafe(x: Exchange, link: Link, scratchOk: bool, gattOk: bool)
    requires Safe(x)
    ensures Safe(WriteStart(x, link, scratchOk, gattOk))
  {
    BegunIsSafe(x);
    WriteSafe(Begun(x), link, gattOk);
  }

  lemma StartKeeps(x: Exchange, link: Link)
    requires Capable(link) && Safe(x) && x.outstanding == 0 && x.cert != []
    ensures var x' := WriteStart(x, link, true, true);
            && Inv(x') && x'.phase == Running && !Stale(x') && x'.rounds == x.rounds + 1
            && x'.st == x.st && x'.installs == x.installs
  {
    hide Safe;
    StartSafe(x, link, true, true);
    CertLength(x);
    WriteAdvances(Begun(x), link);
  }

  lemma CertLength(x: Exchange)
    requires Safe(x)
    ensures Sound(x.st) && |x.cert| == x.st.len
  {}

  lemma ResponseSafe(x: Exchange, link: Link, scratchOk: bool, gattOk: bool)
    requires Safe(x) && Legal(x, Response(scratchOk, gattOk))
    ensures Safe(Step(x, Response(scratchOk, gattOk), link))
  {
    var y := x.(outstanding := x.outstanding - 1);
    if IsComplete(x.st, x.ctx.value) {
      SameIdSameVersion(x);
      if Stale(x) {
        StartSafe(Cleanup(y, Running), link, scratchOk, gattOk);
      } else {
        assert x.cert[..x.ctx.value.offset] == x.cert;
      }
    } else {
      WriteSafe(y, link, gattOk);
    }
    hide Flatten;
  }

  /** The three things a response can lead to when nothing fails. */
  lemma ResponseKeeps(x: Exchange, link: Link)
    requires Inv(x) && x.phase == Running && Capable(link)
    ensures var x' := Step(x, Response(true, true), link);
            && Inv(x') && x'.st == x.st && x'.installs == x.installs
            && (if !IsComplete(x.st, x.ctx.value) then
                  x'.phase == Running && x'.since == x.since && x'.rounds == x.rounds
                  && x'.ctx.value.offset > x.ctx.value.offset
                else if Stale(x) then
                  x'.phase == Running && !Stale(x') && x'.rounds == x.rounds + 1
                else
                  x'.phase == MovedOn(x.cert) && Flatten(x.chunks) == x.cert
                  && x'.rounds == x.rounds && x'.since == x.since)
  {
    var y := x.(outstanding := 0);
    ResponseSafe(x, link, true, true);
    SameIdSameVersion(x);
    if IsComplete(x.st, x.ctx.value) {
      if Stale(x) {
        StartKeeps(Cleanup(y, Running), link);
      } else {
        assert x.cert[..x.ctx.value.offset] == x.cert;
      }
    } else {
      WriteAdvances(y, link);
    }
    hide Flatten;
  }

  lemma RefreshSafe(x: Exchange, d: Download)
    requires Safe(x) && Tame(x, Refreshed(d))
    ensures Safe(Install(x, d))
  {
    RefreshHarmless(x, d);
    if d.Downloaded? && d.parses {
      ModStep(x.installs);
    }
    hide Flatten, Harmless;
  }

  lemma RefreshKeeps(x: Exchange, d: Download, link: Link)
    requires Inv(x) && Fine(x, Refreshed(d), link)
    ensures Inv(Step(x, Refreshed(d), link))
  {
    RefreshSafe(x, d);
    hide Safe, Harmless;
  }

  lemma ModStep(n: nat)
    ensures (n % ID_MODULUS + 1) % ID_MODULUS == (n + 1) % ID_MODULUS
  {}

  lemma StepSafe(x: Exchange, e: Event, link: Link)
    requires Safe(x) && Tame(x, e)
    ensures Safe(Step(x, e, link))
  {
    hide Safe;
    match e
    case Refreshed(d) => RefreshSafe(x, d);
    case Response(scratchOk, gattOk) => ResponseSafe(x, link, scratchOk, gattOk);
  }

  lemma StepKeeps(x: Exchange, e: Event, link: Link)
    requires Inv(x) && Fine(x, e, link)
    ensures Inv(Step(x, e, link))
  {
    hide Inv, Harmless;
    match e
    case Refreshed(d) => RefreshKeeps(x, d, link);
    case Response(_, _) => ResponseKeeps(x, link);
  }

  /**
   * Whenever the exchange moves on, the chunks sent since the last start are exactly the
   * certificate installed at that moment, however many refreshes came in between, and whatever
   * writes and allocations failed.
   */
  lemma SingleVersion(st: Store, installs: nat, link: Link, scratchOk: bool, gattOk: bool,
                      xs: seq<Exchange>, es: seq<Event>, ls: seq<Link>)
    requires Sound(st) && st.id == installs % ID_MODULUS
    requires Steps(xs, es, ls) && xs[0] == WriteStart(Starting(st, installs), link, scratchOk, gattOk)
    requires forall i :: 0 <= i < |es| ==> Tame(xs[i], es[i])
    ensures forall i :: 0 <= i < |xs| && xs[i].phase.MovedOn? ==> Flatten(xs[i].chunks) == xs[i].phase.cert
  {
    StartingIsSafe(st, installs);
    StartSafe(Starting(st, installs), link, scratchOk, gattOk);
    hide Step, Tame, WriteStart, Starting;
    for i := 0 to |es|
      invariant forall j :: 0 <= j <= i ==> Safe(xs[j])
    {
      hide Safe;
      StepSafe(xs[i], es[i], ls[i]);
    }
  }

  /** If nothing fails, one write is outstanding until the exchange moves on: it is never given up for want of data. */
  lemma NeverGivenUp(st: Store, installs: nat, link: Link, xs: seq<Exchange>, es: seq<Event>, ls: seq<Link>)
    requires Sound(st) && st.id == installs % ID_MODULUS && 0 < st.len && Capable(link)
    requires Steps(xs, es, ls) && xs[0] == WriteStart(Starting(st, installs), link, true, true)
    requires forall i :: 0 <= i < |es| ==> Fine(xs[i], es[i], ls[i])
    ensures forall i :: 0 <= i < |xs| ==>
              Inv(xs[i]) && (xs[i].phase == Running ==> xs[i].outstanding == 1) && xs[i].phase != Stopped
  {
    StartingIsSafe(st, installs);
    StartKeeps(Starting(st, installs), link);
    hide Step, Fine, WriteStart, Starting, Safe;
    for i := 0 to |es|
      invariant forall j :: 0 <= j <= i ==> Inv(xs[j])
    {
      hide Inv;
      StepKeeps(xs[i], es[i], ls[i]);
    }
  }

  /**
   * What ends a transfer: it moves on exactly if nothing was installed since it started, with the
   * certificate of that moment; otherwise a new transfer starts from the beginning.
   */
  lemma MixedIsResent(x: Exchange, link: Link)
    requires Inv(x) && x.phase == Running && IsComplete(x.st, x.ctx.value) && Capable(link)
    ensures var x' := Step(x, Response(true, true), link);
            if Stale(x) then x'.phase == Running && x'.rounds == x.rounds + 1 && !Stale(x')
            else x'.phase == MovedOn(x.cert) && Flatten(x.chunks) == x.cert
  {
    ResponseKeeps(x, link);
  }

  /**
   * Why refreshes must be harmless: a download that does not parse replaces the second byte of a
   * two-byte certificate between two writes, and the exchange moves on with a mixture.
   */
  lemma ParseFailureMixes(a: byte, c: byte, d: byte, mtu: nat)
    requires c != d && mtu >= ATT_OVERHEAD
    ensures var link := Link(1, mtu, 1);
            var x0 := WriteStart(Starting(Store([a, c], 2, 0, []), 0), link, true, true);
            var bad := Refreshed(Downloaded([a, d], false, []));
            && Legal(x0, bad) && !Harmless(x0, bad.d)
            && var x1 := Step(x0, bad, link);
               Legal(x1, Response(true, true)) &&
               var x2 := Step(x1, Response(true, true), link);
               Legal(x2, Response(true, true)) &&
               var x3 := Step(x2, Response(true, true), link);
               x3.phase == MovedOn([a, c]) && Flatten(x3.chunks) == [a, d]
  {
    var link := Link(1, mtu, 1);
    var x0 := WriteStart(Starting(Store([a, c], 2, 0, []), 0), link, true, true);
    assert [a, c][0..1] == [a] && [a, d][1..2] == [d] && [a, c][..2] == [a, c];
    assert x0.chunks == [] + [[a]] == [[a]];
    var bad := Downloaded([a, d], false, []);
    assert bad.data[1] != x0.st.buf[1];
    var x1 := Step(x0, Refreshed(bad), link);
    assert x1.st.buf == [a, d];
    var x2 := Step(x1, Response(true, true), link);
    assert x2.chunks == [[a], [d]];
    FlattenSnoc([[a]], [d]);
    FlattenSnoc([], [a]);
    assert [] + [[a]] == [[a]] && [[a]] + [[d]] == [[a], [d]];
    var x3 := Step(x2, Response(true, true), link);
    assert x3.chunks == x2.chunks && x3.cert == [a, c];
  }

  // ----- Termination

  function Installs(es: seq<Event>): nat {
    if es == [] then 0
    else (if es[0].Refreshed? && es[0].d.Downloaded? && es[0].d.parses then 1 else 0) + Installs(es[1..])
  }

  function Responses(es: seq<Event>): nat {
    if es == [] then 0 else (if es[0].Response? then 1 else 0) + Responses(es[1..])
  }

  function BytesLeft(x: Exchange): nat {
    if x.ctx.None? || x.ctx.value.offset >= x.st.len then 0 else x.st.len - x.ctx.value.offset
  }

  /** More responses than this cannot come when `r` more certificates are installed. */
  function Budget(x: Exchange, r: nat): nat {
    if x.phase != Running then 0
    else
      var k := |x.st.buf| + 1;
      2 * k * r + (if Stale(x) then k else 0) + BytesLeft(x) + 1
  }

  lemma ResponseSpends(x: Exchange, r: nat, link: Link)
    requires Inv(x) && x.phase == Running && Capable(link)
    ensures Budget(Step(x, Response(true, true), link), r) < Budget(x, r)
  {
    hide Step, Safe;
    CertLength(x);
    ResponseKeeps(x, link);
  }

  lemma RefreshSpends(x: Exchange, d: Download, r: nat, link: Link)
    requires Inv(x) && Fine(x, Refreshed(d), link) && (d.Downloaded? && d.parses ==> r > 0)
    ensures Budget(Step(x, Refreshed(d), link), if d.Downloaded? && d.parses then r - 1 else r) <= Budget(x, r)
  {
    hide Safe, Harmless;
    var x' := Step(x, Refreshed(d), link);
    var k := |x.st.buf| + 1;
    assert |x'.st.buf| == |x.st.buf|;
    assert r > 0 ==> 2 * k * r == 2 * k * (r - 1) + 2 * k;
    CertLength(x);
    RefreshKeeps(x, d, link);
    CertLength(x');
  }

  /**
   * The exchange ends: with finitely many certificates installed along the way there is a bound
   * on the responses it can take, and since one is always under way it gets there. A new
   * transfer starts at most once for each certificate installed.
   */
  lemma {:induction false} ExchangeTerminates(xs: seq<Exchange>, es: seq<Event>, ls: seq<Link>)
    requires Steps(xs, es, ls) && Inv(xs[0])
    requires forall i :: 0 <= i < |es| ==> Fine(xs[i], es[i], ls[i])
    ensures Responses(es) <= Budget(xs[0], Installs(es))
    ensures var x, x' := xs[0], xs[|es|];
            x'.rounds + (if Stale(x') then 1 else 0) <= x.rounds + (if Stale(x) then 1 else 0) + Installs(es)
    decreases |es|
  {
    if es != [] {
      var x, x' := xs[0], xs[1];
      StepKeeps(x, es[0], ls[0]);
      TailSteps(xs, es, ls);
      hide Steps, Safe, Fine;
      ExchangeTerminates(xs[1..], es[1..], ls[1..]);
      StepSpends(x, es[0], Installs(es[1..]), ls[0]);
    }
  }

  lemma TailSteps(xs: seq<Exchange>, es: seq<Event>, ls: seq<Link>)
    requires Steps(xs, es, ls) && es != []
    requires forall i :: 0 <= i < |es| ==> Fine(xs[i], es[i], ls[i])
    ensures |xs| == |es| + 1 && |ls| == |es| && xs[1] == Step(xs[0], es[0], ls[0])
    ensures Steps(xs[1..], es[1..], ls[1..])
    ensures forall i :: 0 <= i < |es[1..]| ==> Fine(xs[1..][i], es[1..][i], ls[1..][i])
  {
    hide Step, Fine, Legal;
    forall i | 0 <= i < |es[1..]|
      ensures Fine(xs[1..][i], es[1..][i], ls[1..][i])
      ensures Legal(xs[1..][i], es[1..][i]) && xs[1..][i + 1] == Step(xs[1..][i], es[1..][i], ls[1..][i])
    {
      assert xs[1..][i] == xs[i + 1] && es[1..][i] == es[i + 1] && ls[1..][i] == ls[i + 1];
      assert Legal(xs[i + 1], es[i + 1]) && Fine(xs[i + 1], es[i + 1], ls[i + 1]);
    }
  }

  /** A response uses up budget or ends the exchange; an install pays for the transfer it may cause. */
  lemma StepSpends(x: Exchange, e: Event, r: nat, link: Link)
    requires Inv(x) && Fine(x, e, link)
    ensures var x', own := Step(x, e, link), Installs([e]);
            && Budget(x', r) + Responses([e]) <= Budget(x, r + own)
            && x'.rounds + (if Stale(x') then 1 else 0) <= x.rounds + (if Stale(x) then 1 else 0) + own
  {
    assert [e][1..] == [];
    match e
    case Refreshed(d) =>
      RefreshSpends(x, d, r + Installs([e]), link);
      hide Budget, Safe, Harmless;
    case Response(_, _) =>
      ResponseSpends(x, r, link);
      ResponseKeeps(x, link);
      hide Budget, Safe, Step;
  }
}
