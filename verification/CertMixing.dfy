/**
 * What a transfer of the server certificate sends when the buffer under it is not the installed
 * certificate, and what becomes of an exchange started before there is one.
 */
module CertMixing {
  import opened Base
  import opened CertSpec
  import opened CertRuns

  // ----- Starting without a certificate

  /** Under way without a write whose response could carry it on. */
  predicate Stalled(x: Exchange) {
    x.phase == Running && x.outstanding == 0
  }

  /**
   * A start that could write leaves the exchange without one exactly if there is no certificate:
   * the first write then fails for want of data, which nothing looks at.
   */
  lemma EmptyStoreStalls(x: Exchange, link: Link, scratchOk: bool, gattOk: bool)
    requires Sound(x.st) && x.outstanding == 0
    ensures Stalled(WriteStart(x, link, scratchOk, gattOk)) <==> Capable(link) && scratchOk && x.st.len == 0
    ensures WriteStart(x, link, scratchOk, gattOk).phase.Stopped? <==>
            !Capable(link) || !scratchOk || (x.st.len > 0 && !gattOk)
  {}

  /** An exchange under way stalls exactly by starting over when the certificate installed meanwhile is empty. */
  lemma StallsExactly(x: Exchange, e: Event, link: Link)
    requires Legal(x, e) && x.phase == Running && x.outstanding == 1 && x.ctx.Some?
    ensures Stalled(Step(x, e, link)) <==>
            e.Response? && e.scratchOk && Capable(link) && x.st.len == 0 && !IsNewest(x.st, x.ctx.value)
  {
    if e.Response? && IsComplete(x.st, x.ctx.value) {
      EmptyStoreStalls(Cleanup(x.(outstanding := 0), Running), link, e.scratchOk, e.gattOk);
    }
  }

  /** A stalled exchange stays so whatever is installed later: only refreshes can follow, and they do not touch it. */
  lemma {:induction false} StalledForever(xs: seq<Exchange>, es: seq<Event>, ls: seq<Link>, n: nat)
    requires Steps(xs, es, ls) && Stalled(xs[0]) && n <= |es|
    ensures Stalled(xs[n]) && xs[n].ctx == xs[0].ctx && xs[n].chunks == xs[0].chunks
    ensures forall i :: 0 <= i < n ==> es[i].Refreshed?
    decreases n
  {
    if n > 0 {
      StalledForever(xs, es, ls, n - 1);
      assert Legal(xs[n - 1], es[n - 1]);
    }
  }

  // ----- Mixed chunks

  /** The event writes a chunk: the response to one, while the transfer is not complete. */
  predicate Writes(x: Exchange, e: Event) {
    e.Response? && x.phase == Running && x.ctx.Some? && !IsComplete(x.st, x.ctx.value)
  }

  /** The bytes the buffer holds where the next chunk is taken from are those of the installed certificate. */
  predicate Matches(x: Exchange, offset: nat, link: Link) {
    offset <= x.st.len == |x.cert| && Sound(x.st) &&
    var n := if link.cap > x.st.len - offset then x.st.len - offset else link.cap;
    x.st.buf[offset..offset + n] == x.cert[offset..offset + n]
  }

  /** If the event writes a chunk, the chunk is as installed. */
  predicate WriteMatches(x: Exchange, e: Event, link: Link) {
    Writes(x, e) ==> Matches(x, x.ctx.value.offset, link)
  }

  /** What has been sent is the beginning of the installed certificate. */
  predicate Intact(x: Exchange) {
    Flatten(x.chunks) <= x.cert
  }

  /** One transfer of a certificate while no other is installed, whatever happens to the buffer. */
  predicate Under(x: Exchange) {
    && Sound(x.st) && 0 < x.st.len == |x.cert|
    && (if x.phase == Running then
          x.outstanding == 1 && x.ctx.Some? && x.ctx.value.id == x.st.id
          && |Flatten(x.chunks)| == x.ctx.value.offset <= x.st.len
        else x.phase == MovedOn(x.cert) && |Flatten(x.chunks)| == x.st.len)
  }

  /** Refreshes that install nothing, and responses with everything at hand to go on. */
  predicate Quiet(x: Exchange, e: Event, link: Link) {
    match e
    case Refreshed(d) => !(d.Downloaded? && d.parses)
    case Response(scratchOk, gattOk) => scratchOk && gattOk && x.phase == Running && Capable(link)
  }

  lemma ChunkExtends(x: Exchange, link: Link)
    requires Capable(link) && Sound(x.st) && x.st.len == |x.cert| && x.ctx.Some? && x.ctx.value.offset < x.st.len
    requires |Flatten(x.chunks)| == x.ctx.value.offset
    ensures var t := WriteCharacteristic(x, link, true);
            && t.ok && |Flatten(t.x.chunks)| == t.x.ctx.value.offset <= x.st.len
            && t.x == x.(ctx := t.x.ctx, outstanding := x.outstanding + 1, chunks := t.x.chunks)
            && t.x.ctx.value.id == x.ctx.value.id
            && (Intact(t.x) <==> Intact(x) && Matches(x, x.ctx.value.offset, link))
  {
    var got := GetData(x.st, x.ctx.value, link.cap);
    FlattenSnoc(x.chunks, got.bytes);
    PrefixExtends(x.cert, Flatten(x.chunks), got.bytes);
    hide Flatten;
  }

  lemma PrefixExtends(cert: seq<byte>, sent: seq<byte>, more: seq<byte>)
    requires |sent| + |more| <= |cert|
    ensures sent + more <= cert <==> sent <= cert && more == cert[|sent|..|sent| + |more|]
  {
    var all, o := sent + more, |sent|;
    assert sent == all[..o] && more == all[o..];
    if sent <= cert && more == cert[o..o + |more|] {
      assert all == cert[..o + |more|];
    }
  }

  lemma QuietStep(x: Exchange, e: Event, link: Link)
    requires Under(x) && Legal(x, e) && Quiet(x, e, link)
    ensures var x' := Step(x, e, link);
            Under(x') && x'.cert == x.cert && (Intact(x') <==> Intact(x) && WriteMatches(x, e, link))
  {
    hide Flatten, Matches;
    if Writes(x, e) {
      ChunkExtends(x.(outstanding := 0), link);
      SameBuffer(x.(outstanding := 0), x, x.ctx.value.offset, link);
    }
  }

  lemma SameBuffer(x: Exchange, y: Exchange, offset: nat, link: Link)
    requires x.st == y.st && x.cert == y.cert && Sound(x.st) && x.st.len == |x.cert| && offset <= x.st.len
    ensures Matches(x, offset, link) == Matches(y, offset, link)
  {}

  /** The exchange before its first write has nothing to compare but that write. */
  lemma StartsUnder(x: Exchange, link: Link)
    requires Capable(link) && Sound(x.st) && 0 < x.st.len == |x.cert| && x.outstanding == 0
    ensures var x' := WriteStart(x, link, true, true);
            Under(x') && x'.cert == x.cert && (Intact(x') <==> Matches(x, 0, link))
  {
    var x' := x.(phase := Running, ctx := Some(Begin(x.st)), since := x.installs, chunks := [], rounds := x.rounds + 1);
    hide Matches;
    ChunkExtends(x', link);
    SameBuffer(x', x, 0, link);
  }

  /** Every write of the first n steps found the buffer as installed. */
  predicate AllMatch(xs: seq<Exchange>, es: seq<Event>, ls: seq<Link>, n: nat)
    requires n <= |es| <= |xs| && |ls| == |es|
  {
    forall i :: 0 <= i < n ==> WriteMatches(xs[i], es[i], ls[i])
  }

  /**
   * Over one transfer with any refreshes but installs: what was sent is the beginning of the
   * installed certificate, and the whole of it when the exchange moves on, if and only if each
   * write found, at its offset, the installed bytes in the buffer.
   */
  lemma {:induction false} MixedExactly(x: Exchange, link: Link, xs: seq<Exchange>, es: seq<Event>, ls: seq<Link>,
                                       n: nat)
    requires Capable(link) && Sound(x.st) && 0 < x.st.len == |x.cert| && x.outstanding == 0
    requires Steps(xs, es, ls) && xs[0] == WriteStart(x, link, true, true) && n <= |es|
    requires forall i :: 0 <= i < n ==> Quiet(xs[i], es[i], ls[i])
    ensures forall i :: 0 <= i <= n ==> Under(xs[i])
    ensures Intact(xs[n]) <==> Matches(x, 0, link) && AllMatch(xs, es, ls, n)
    ensures xs[n].phase != Running ==>
            xs[n].phase == MovedOn(x.cert) &&
            (Flatten(xs[n].chunks) == x.cert <==> Matches(x, 0, link) && AllMatch(xs, es, ls, n))
    ensures xs[n].cert == x.cert
    decreases n
  {
    hide Matches, WriteMatches, Step, Flatten;
    if n == 0 {
      StartsUnder(x, link);
    } else {
      MixedExactly(x, link, xs, es, ls, n - 1);
      assert Legal(xs[n - 1], es[n - 1]) && Quiet(xs[n - 1], es[n - 1], ls[n - 1]);
      QuietStep(xs[n - 1], es[n - 1], ls[n - 1]);
    }
  }
}
