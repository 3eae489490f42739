/** The server certificate of lib/cert.c: one buffer, replaced in place, and transfer contexts. */
module Cert {
  import opened Base
  import Spec = CertSpec

  /** The static server_crt_* variables. */
  class ServerCert {
    const buf: array<byte>
    const serial: array<byte>
    var serialLen: nat
    var len: nat
    var id: nat

    ghost predicate Valid()
      reads this
    {
      len <= buf.Length && serial.Length == Spec.CERT_SERIAL_MAXLEN && serialLen <= serial.Length && serial != buf
    }

    ghost function Model(): Spec.Store
      requires Valid()
      reads this, buf, serial
    {
      Spec.Store(buf[..], len, id, serial[..serialLen])
    }

    constructor (max: nat)
      ensures Valid() && fresh(buf) && fresh(serial) && buf.Length == max && len == 0 && id == 0 && serialLen == 0
    {
      buf := new byte[max];
      serial := new byte[Spec.CERT_SERIAL_MAXLEN];
      serialLen, len, id := 0, 0, 0;
    }

    /**
     * server_crt_update, with the outcome of the parser and the serial number it found; `ok` is
     * false for -EIO.
     */
    method Update(newLen: nat, parses: bool, number: seq<byte>) returns (ok: bool)
      requires Valid() && newLen <= buf.Length && |number| <= Spec.CERT_SERIAL_MAXLEN
      modifies this, serial
      ensures Valid() && ok == parses && buf[..] == old(buf[..])
      ensures len == (if parses then newLen else old(len))
      ensures id == (if parses then (old(id) + 1) % Spec.ID_MODULUS else old(id))
      ensures serial[..serialLen] == (if parses then number else old(serial[..serialLen]))
    {
      if !parses {
        return false;
      }
      forall i | 0 <= i < |number| {
        serial[i] := number[i];
      }
      serialLen := |number|;
      len := newLen;
      id := (id + 1) % Spec.ID_MODULUS;
      ok := true;
    }

    /** pouch_gateway_cert_module_on_connected: the cloud client writes straight into the buffer. */
    method OnConnected(d: Spec.Download)
      requires Valid()
      requires d.Downloaded? ==> |d.data| <= buf.Length && |d.serial| <= Spec.CERT_SERIAL_MAXLEN
      modifies this, buf, serial
      ensures Valid() && Model() == Spec.Refresh(old(Model()), d)
      ensures serial[..serialLen] == if d.Downloaded? && d.parses then d.serial else old(serial[..serialLen])
      ensures len == if d.Downloaded? && d.parses then |d.data| else old(len)
      ensures id == if d.Downloaded? && d.parses then (old(id) + 1) % Spec.ID_MODULUS else old(id)
      ensures forall i :: 0 <= i < buf.Length ==>
                buf[i] == if d.Downloaded? && i < |d.data| then d.data[i] else old(buf[i])
    {
      if d.Downloaded? {
        forall i | 0 <= i < |d.data| {
          buf[i] := d.data[i];
        }
        assert buf[..] == d.data + old(buf[..])[|d.data|..];
        var _ := Update(|d.data|, d.parses, d.serial);
      }
    }

    /** pouch_gateway_server_cert_get_serial; `n` is the new *dst_len. */
    method GetSerial(dst: array<byte>, dstLen: nat) returns (n: nat)
      requires Valid() && dstLen <= dst.Length && dst != serial
      modifies dst
      ensures n == (if dstLen > |old(Model()).serial| then |old(Model()).serial| else dstLen)
      ensures dst[..n] == old(Model()).serial[..n]
      ensures forall i :: n <= i < dst.Length ==> dst[i] == old(dst[i])
    {
      n := if dstLen > serialLen then serialLen else dstLen;
      forall i | 0 <= i < n {
        dst[i] := serial[i];
      }
    }
  }

  class CertContext {
    const store: ServerCert
    var id: nat
    var offset: nat

    ghost function Model(): Spec.Context
      reads this
    {
      Spec.Context(id, offset)
    }

    /** pouch_gateway_server_cert_start. */
    constructor (store: ServerCert)
      requires store.Valid()
      ensures this.store == store && Model() == Spec.Begin(store.Model()) && id == store.id && offset == 0
    {
      this.store := store;
      id, offset := store.id, 0;
    }

    method IsNewest() returns (newest: bool)
      requires store.Valid()
      ensures newest == Spec.IsNewest(store.Model(), Model()) && (newest <==> id == store.id)
    {
      newest := id == store.id;
    }

    method IsComplete() returns (complete: bool)
      requires store.Valid()
      ensures complete == Spec.IsComplete(store.Model(), Model()) && (complete <==> offset >= store.len)
    {
      complete := offset >= store.len;
    }

    /** Fills `dst` up to `dstLen`; `found` is false for -ENODATA, and `n` is the new *dst_len. */
    method GetData(dst: array<byte>, dstLen: nat) returns (found: bool, n: nat, isLast: bool)
      requires store.Valid() && dstLen <= dst.Length && dst != store.buf && dst != store.serial
      modifies this`offset, dst
      ensures var got := Spec.GetData(old(store.Model()), old(Model()), dstLen);
              && found == got.Data?
              && store.Model() == old(store.Model())
              && (found ==> Model() == got.c && isLast == got.last)
              && (found ==> n == |got.bytes| && n <= dstLen && dst[..n] == got.bytes)
              && (!found ==> Model() == old(Model()) && n == dstLen && !isLast && dst[..] == old(dst[..]))
      ensures forall i :: n <= i < dst.Length ==> dst[i] == old(dst[i])
    {
      var len := store.len;
      n, isLast := dstLen, false;
      if offset >= len {
        return false, n, isLast;
      }
      if n > len - offset {
        n := len - offset;
      }
      forall i | 0 <= i < n {
        dst[i] := store.buf[offset + i];
      }
      assert dst[..n] == old(store.buf[..])[offset..offset + n];
      offset := offset + n;
      if offset >= len {
        isLast := true;
      }
      found := true;
    }
  }
}
