/** The block slab of lib/block.c: a fixed pool of block structs, updated in place. */
module Slab {
  import opened Base

  /** struct block; `data` is the whole buffer, of which the first `len` bytes are used. */
  datatype Cell = Cell(last: bool, len: nat, data: seq<byte>)

  function Used(c: Cell): seq<byte>
    requires c.len <= |c.data|
  {
    c.data[..c.len]
  }

  const EINVAL := 22

  /** A block is referred to by its slot in the pool. */
  class Slab {
    const b: pos
    const cells: array<Cell>
    /** The free list, the slot freed last in front. */
    var free: seq<nat>

    ghost predicate Valid()
      reads this, cells
    {
      && (forall s :: 0 <= s < cells.Length ==> |cells[s].data| == b && cells[s].len <= b)
      && (forall i :: 0 <= i < |free| ==> free[i] < cells.Length)
      && (forall i, j :: 0 <= i < j < |free| ==> free[i] != free[j])
    }

    /** K_MEM_SLAB_DEFINE_STATIC with `count` blocks of `b` bytes. */
    constructor (count: nat, b: pos)
      ensures Valid() && this.b == b && cells.Length == count && fresh(cells)
      ensures free == seq(count, i => i)
    {
      this.b := b;
      cells := new Cell[count](_ => Cell(false, 0, seq(b, _ => 0)));
      free := seq(count, i => i);
    }

    /** None when the slab is exhausted for the whole timeout. */
    method BlockAlloc() returns (slot: Option<nat>)
      requires Valid()
      modifies this`free, cells
      ensures Valid()
      ensures slot == if old(free) == [] then None else Some(old(free)[0])
      ensures free == if slot.None? then old(free) else old(free)[1..]
      ensures slot.Some? ==> slot.value !in free && cells[slot.value].len == 0 && !cells[slot.value].last
      ensures forall s :: 0 <= s < cells.Length && slot != Some(s) ==> cells[s] == old(cells[s])
    {
      if free == [] {
        return None;
      }
      slot := Some(free[0]);
      free := free[1..];
      cells[slot.value] := cells[slot.value].(last := false, len := 0);
    }

    method BlockFree(slot: nat)
      requires Valid() && slot < cells.Length && slot !in free
      modifies this`free
      ensures Valid() && free == [slot] + old(free)
    {
      free := [slot] + free;
    }

    method BlockMarkLast(slot: nat)
      requires Valid() && slot < cells.Length
      modifies cells
      ensures Valid() && cells[slot] == old(cells[slot]).(last := true)
      ensures forall s :: 0 <= s < cells.Length && s != slot ==> cells[s] == old(cells[s])
    {
      cells[slot] := cells[slot].(last := true);
    }

    /** memcpy behind the bytes in use; the room is the caller's concern. */
    method BlockAppend(slot: nat, bytes: seq<byte>)
      requires Valid() && slot < cells.Length && cells[slot].len + |bytes| <= b
      modifies cells
      ensures Valid() && Used(cells[slot]) == Used(old(cells[slot])) + bytes
      ensures cells[slot].last == old(cells[slot].last)
      ensures forall s :: 0 <= s < cells.Length && s != slot ==> cells[s] == old(cells[s])
    {
      var c := cells[slot];
      var data := c.data[..c.len] + bytes + c.data[c.len + |bytes|..];
      cells[slot] := c.(len := c.len + |bytes|, data := data);
    }

    /** Copies bytes out to position `at` of `dst`; the bound is that of the buffer, not of `len`. */
    method BlockGet(slot: nat, offset: nat, dst: array<byte>, at: nat, n: nat) returns (err: int)
      requires Valid() && slot < cells.Length && at + n <= dst.Length
      modifies dst
      ensures err == if offset + n > b then -EINVAL else 0
      ensures dst[..at] == old(dst[..at]) && dst[at + n..] == old(dst[at + n..])
      ensures offset + n > b ==> dst[at..at + n] == old(dst[at..at + n])
      ensures offset + n <= b ==> |cells[slot].data| == b && dst[at..at + n] == cells[slot].data[offset..offset + n]
    {
      if offset + n > b {
        return -EINVAL;
      }
      forall i | 0 <= i < n {
        dst[at + i] := cells[slot].data[offset + i];
      }
      err := 0;
    }
  }
}
