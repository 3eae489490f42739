/** The node's side of the certificate exchange, lib/bt/cert.c. */
module CertNode {
  import opened Base
  import Spec = CertSpec
  import opened CertRuns
  import C = Cert

  class CertNode {
    const store: C.ServerCert
    /** server_cert_ctx; the transfer under way. */
    var ctx: C.CertContext?
    /** server_cert_scratch, and whether there is a packetizer. */
    var scratch: array?<byte>
    var packetizer: bool
    /**
     * What the outside sees: the exchange going on, moving on to the device certificate, or the
     * connection given up; the writes; and the certificates installed so far.
     */
    ghost var phase: Phase
    ghost var outstanding: nat
    ghost var cert: seq<byte>
    ghost var installs: nat
    ghost var since: nat
    ghost var chunks: seq<seq<byte>>
    ghost var rounds: nat

    ghost predicate Valid()
      reads this, store, ctx
    {
      && store.Valid()
      && (scratch != null ==> scratch != store.buf && scratch != store.serial)
      && (ctx != null ==> ctx.store == store && scratch != null && packetizer)
    }

    /** A packet of the connection as it is now fits the scratch buffer: its MTU has not grown. */
    predicate Fits(link: Link)
      reads this
    {
      scratch != null && link.mtu >= ATT_OVERHEAD ==> link.cap <= scratch.Length
    }

    ghost function Context(): Option<Spec.Context>
      reads this, ctx
    {
      if ctx == null then None else Some(ctx.Model())
    }

    ghost function Model(): Exchange
      requires Valid()
      reads this, ctx, store, store.buf, store.serial
    {
      Exchange(store.Model(), cert, installs, phase, Context(), outstanding, since, chunks, rounds)
    }

    /** A connection whose exchange is about to start, with the certificate installed then. */
    constructor (store: C.ServerCert, ghost installs: nat)
      requires store.Valid()
      ensures Valid() && this.store == store && ctx == null
      ensures Spec.Sound(store.Model()) && Model() == Starting(store.Model(), installs)
    {
      this.store, this.installs, this.since := store, installs, installs;
      ctx, scratch, packetizer, phase, outstanding, chunks, rounds := null, null, false, Running, 0, [], 0;
      cert := store.buf[..store.len];
      new;
      assert store.buf[..][..store.len] == store.buf[..store.len];
    }

    /** server_cert_cleanup on the way to `next`: whatever of the three there is is released. */
    method ServerCertCleanup(ghost next: Phase)
      requires Valid()
      modifies this`ctx, this`scratch, this`packetizer, this`phase
      ensures Valid() && Model() == Cleanup(old(Model()), next)
      ensures ctx == null && scratch == null && !packetizer
    {
      scratch, ctx, packetizer := null, null, false;
      phase := next;
    }

    /** `ok` is false for -EIO and for the packetizer's error. */
    method WriteServerCertCharacteristic(link: Link, gattOk: bool) returns (ok: bool)
      requires Valid() && ctx != null && Fits(link)
      modifies this`ctx, this`scratch, this`packetizer, this`phase, this`outstanding, this`chunks, ctx`offset, scratch
      ensures Valid() && (ctx == null || ctx == old(ctx)) && (scratch == null || scratch == old(scratch))
      ensures Spec.Sound(old(store.Model()))
      ensures var t := WriteCharacteristic(old(Model()), link, gattOk); Model() == t.x && ok == t.ok
      ensures ok <==> link.mtu >= ATT_OVERHEAD && old(ctx.offset) < store.len
    {
      if link.mtu < ATT_OVERHEAD {
        return false;
      }
      var found, len, last := ctx.GetData(scratch, link.cap);
      if !found {
        return false;
      }
      if gattOk {
        outstanding, chunks := outstanding + 1, chunks + [scratch[..len]];
      } else {
        ServerCertCleanup(Stopped);
      }
      ok := true;
    }

    /** The scratch buffer, the context and the packetizer of a new transfer. */
    method Prepare(link: Link)
      requires Valid()
      modifies this`ctx, this`scratch, this`packetizer, this`phase, this`since, this`chunks, this`rounds
      ensures Valid() && ctx != null && fresh(ctx) && scratch != null && fresh(scratch) && Fits(link)
      ensures var x := old(Model());
              Model() == x.(phase := Running, ctx := Some(Spec.Begin(x.st)), since := x.installs, chunks := [],
                            rounds := x.rounds + 1)
    {
      scratch := new byte[link.cap];
      ctx := new C.CertContext(store);
      packetizer, phase := true, Running;
      since, chunks, rounds := installs, [], rounds + 1;
    }

    /** gateway_server_cert_write_start; what its first write returns is ignored. */
    method WriteStart(link: Link, scratchOk: bool, gattOk: bool)
      requires Valid()
      modifies this
      ensures Valid() && (ctx == null || fresh(ctx)) && (scratch == null || fresh(scratch))
      ensures Spec.Sound(old(store.Model()))
      ensures Model() == CertRuns.WriteStart(old(Model()), link, scratchOk, gattOk)
    {
      if link.handle == 0 || !scratchOk || link.mtu < ATT_OVERHEAD {
        ServerCertCleanup(Stopped);
        return;
      }
      Prepare(link);
      var _ := WriteServerCertCharacteristic(link, gattOk);
    }

    /** The response to a chunk; its error code is not looked at. */
    method WriteResponseCb(link: Link, scratchOk: bool, gattOk: bool)
      requires Valid() && ctx != null && outstanding > 0 && Fits(link)
      modifies this, ctx`offset, scratch
      ensures Valid() && Legal(old(Model()), Response(scratchOk, gattOk))
      ensures Model() == Step(old(Model()), Response(scratchOk, gattOk), link)
    {
      outstanding := outstanding - 1;
      var complete := ctx.IsComplete();
      if complete {
        var newest := ctx.IsNewest();
        if newest {
          ServerCertCleanup(MovedOn(cert));
        } else {
          ServerCertCleanup(Running);
          WriteStart(link, scratchOk, gattOk);
        }
      } else {
        var ok := WriteServerCertCharacteristic(link, gattOk);
        if !ok {
          ServerCertCleanup(Stopped);
        }
      }
    }

    /** The gateway reconnects to the cloud and refreshes the certificate. */
    method Reconnected(d: Spec.Download)
      requires Valid()
      requires d.Downloaded? ==> |d.data| <= store.buf.Length && |d.serial| <= Spec.CERT_SERIAL_MAXLEN
      modifies this`cert, this`installs, store, store.buf, store.serial
      ensures Valid() && Legal(old(Model()), Refreshed(d))
      ensures Model() == Install(old(Model()), d)
    {
      store.OnConnected(d);
      if d.Downloaded? && d.parses {
        cert, installs := d.data, installs + 1;
      }
    }
  }
}
