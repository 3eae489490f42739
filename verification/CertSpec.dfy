/** The server certificate store and the context of one transfer of it, lib/cert.c, on values. */
module CertSpec {
  import opened Base

  /** The id is an atomic_t, 32 bits wide on the gateway's boards. */
  const ID_MODULUS := 0x1_0000_0000

  const CERT_SERIAL_MAXLEN := 20

  /**
   * The buffer, of which the first `len` bytes are the certificate, the version counter, and the
   * certificate's serial number.
   */
  datatype Store = Store(buf: seq<byte>, len: nat, id: nat, serial: seq<byte>)

  predicate Sound(st: Store) {
    st.len <= |st.buf|
  }

  /** The outcome of asking the cloud for the certificate; `serial` is what the parser finds in it. */
  datatype Download = Unavailable | Downloaded(data: seq<byte>, parses: bool, serial: seq<byte>)

  /** The download goes into the buffer at once; length, id and serial number follow only if it parses. */
  function Refresh(st: Store, d: Download): Store
    requires d.Downloaded? ==> |d.data| <= |st.buf|
  {
    if d.Unavailable? then st
    else
      var buf := d.data + st.buf[|d.data|..];
      if d.parses then Store(buf, |d.data|, (st.id + 1) % ID_MODULUS, d.serial) else st.(buf := buf)
  }

  datatype Context = Context(id: nat, offset: nat)

  function Begin(st: Store): Context {
    Context(st.id, 0)
  }

  predicate IsNewest(st: Store, c: Context) {
    c.id == st.id
  }

  predicate IsComplete(st: Store, c: Context) {
    c.offset >= st.len
  }

  datatype Got = NoData | Data(c: Context, bytes: seq<byte>, last: bool)

  /** The next bytes of the buffer as it is now; the last ones are marked. */
  function GetData(st: Store, c: Context, cap: nat): (got: Got)
    requires Sound(st)
    ensures got.NoData? <==> IsComplete(st, c)
    ensures got.Data? ==> |got.bytes| <= cap && got.c == Context(c.id, c.offset + |got.bytes|)
    ensures got.Data? ==> (got.last <==> IsComplete(st, got.c)) && (got.last || |got.bytes| == cap)
  {
    if c.offset >= st.len then NoData
    else
      var n := if cap > st.len - c.offset then st.len - c.offset else cap;
      Data(c.(offset := c.offset + n), st.buf[c.offset..c.offset + n], c.offset + n >= st.len)
  }

  // ----- Any sequence of refreshes

  /** A download installs a certificate. */
  predicate Parsed(d: Download) {
    d.Downloaded? && d.parses
  }

  /** The store after each refresh of a sequence. */
  predicate Refreshes(sts: seq<Store>, ds: seq<Download>) {
    && |sts| == |ds| + 1
    && forall i :: 0 <= i < |ds| ==>
         (ds[i].Downloaded? ==> |ds[i].data| <= |sts[i].buf|) && sts[i + 1] == Refresh(sts[i], ds[i])
  }

  /** What belongs to the certificate installed: its length, its version and its serial number. */
  predicate SameCertificate(st: Store, st': Store) {
    st'.len == st.len && st'.id == st.id && st'.serial == st.serial
  }

  /** As long as no download parses, length, version and serial number stay. */
  lemma {:induction false} NoneInstalled(sts: seq<Store>, ds: seq<Download>, k: nat, n: nat)
    requires Refreshes(sts, ds) && k <= n <= |ds| && forall j :: k <= j < n ==> !Parsed(ds[j])
    ensures SameCertificate(sts[k], sts[n])
    decreases n
  {
    if k < n {
      NoneInstalled(sts, ds, k, n - 1);
      assert sts[n] == Refresh(sts[n - 1], ds[n - 1]) && !Parsed(ds[n - 1]);
    }
  }

  /**
   * After any sequence of refreshes, length, version and serial number are those of the last
   * download that parsed, and all three have stayed since.
   */
  lemma LastInstalled(sts: seq<Store>, ds: seq<Download>, k: nat, n: nat)
    requires Refreshes(sts, ds) && k < n <= |ds| && Parsed(ds[k]) && forall j :: k < j < n ==> !Parsed(ds[j])
    ensures sts[n].serial == ds[k].serial && sts[n].len == |ds[k].data|
    ensures sts[n].id == (sts[k].id + 1) % ID_MODULUS
  {
    assert sts[k + 1] == Refresh(sts[k], ds[k]);
    NoneInstalled(sts, ds, k + 1, n);
  }
}
