/** Bytes, optional values and the canonical division of a byte stream into blocks. */
module Base {

  newtype byte = x: int | 0 <= x < 256

  type pos = x: int | 0 < x witness 1

  /** Opcode and handle of an ATT write. */
  const ATT_OVERHEAD := 3

  datatype Option<+T> = None | Some(value: T)

  function Flatten(blocks: seq<seq<byte>>): seq<byte> {
    if blocks == [] then [] else blocks[0] + Flatten(blocks[1..])
  }

  lemma {:induction false} FlattenConcat(a: seq<seq<byte>>, c: seq<seq<byte>>)
    ensures Flatten(a + c) == Flatten(a) + Flatten(c)
  {
    if a == [] {
      assert a + c == c;
    } else {
      FlattenConcat(a[1..], c);
      assert (a + c)[1..] == a[1..] + c && (a + c)[0] == a[0];
      assert Flatten(a + c) == a[0] + (Flatten(a[1..]) + Flatten(c));
    }
  }

  lemma FlattenSnoc(a: seq<seq<byte>>, x: seq<byte>)
    ensures Flatten(a + [x]) == Flatten(a) + x
  {
    FlattenConcat(a, [x]);
    assert Flatten([x]) == x + Flatten([]) == x;
  }

  /** The division of a stream into b-byte blocks, the last one possibly shorter but never empty. */
  function Split(t: seq<byte>, b: pos): (r: seq<seq<byte>>)
    ensures r == [] <==> t == []
    ensures forall i :: 0 <= i < |r| ==> 0 < |r[i]| <= b
    ensures forall i :: 0 <= i < |r| - 1 ==> |r[i]| == b
    decreases |t|
  {
    if t == [] then []
    else if |t| <= b then [t]
    else [t[..b]] + Split(t[b..], b)
  }

  predicate AllFull(blocks: seq<seq<byte>>, b: pos) {
    forall i :: 0 <= i < |blocks| ==> |blocks[i]| == b
  }

  lemma {:induction false} SplitFlatten(t: seq<byte>, b: pos)
    ensures Flatten(Split(t, b)) == t
    decreases |t|
  {
    if b < |t| {
      SplitFlatten(t[b..], b);
      assert Split(t, b)[1..] == Split(t[b..], b);
      assert t == t[..b] + t[b..];
    } else if t != [] {
      FlattenSnoc([], t);
      assert [] + [t] == [t];
    }
  }

  lemma SplitCons(x: seq<byte>, t: seq<byte>, b: pos)
    requires |x| == b
    ensures Split(x + t, b) == [x] + Split(t, b)
  {
    assert (x + t)[..b] == x && (x + t)[b..] == t;
    if t == [] {
      assert x + t == x;
    }
  }

  /** Full blocks in front of a stream are exactly the first blocks of the division. */
  lemma {:induction false} SplitAfterFull(full: seq<seq<byte>>, t: seq<byte>, b: pos)
    requires AllFull(full, b)
    ensures Split(Flatten(full) + t, b) == full + Split(t, b)
  {
    hide Split;
    if full == [] {
      assert Flatten(full) + t == t;
      assert full + Split(t, b) == Split(t, b);
    } else {
      var behind := Flatten(full[1..]) + t;
      SplitAfterFull(full[1..], t, b);
      SplitCons(full[0], behind, b);
      assert Flatten(full) + t == full[0] + behind;
      assert [full[0]] + (full[1..] + Split(t, b)) == full + Split(t, b);
    }
  }

  /** The last chunk and the full ones before it. */
  lemma SplitLast(t: seq<byte>, b: pos)
    requires t != []
    ensures var chunks := Split(t, b); var n := |chunks| - 1;
            AllFull(chunks[..n], b) && Flatten(chunks[..n]) + chunks[n] == t
  {
    hide Split;
    var chunks := Split(t, b);
    var n := |chunks| - 1;
    SplitFlatten(t, b);
    FlattenSnoc(chunks[..n], chunks[n]);
    assert chunks == chunks[..n] + [chunks[n]];
  }

  lemma {:induction false} FlattenFullLength(full: seq<seq<byte>>, b: pos)
    requires AllFull(full, b)
    ensures |Flatten(full)| == |full| * b
  {
    if full != [] {
      FlattenFullLength(full[1..], b);
      assert |full| * b == b + (|full| - 1) * b;
    }
  }

  /**
   * The division is the only one with its shape: full blocks, then at most one shorter
   * non-empty block.
   */
  lemma SplitIsUnique(blocks: seq<seq<byte>>, b: pos)
    requires forall i :: 0 <= i < |blocks| ==> 0 < |blocks[i]| <= b
    requires forall i :: 0 <= i < |blocks| - 1 ==> |blocks[i]| == b
    ensures Split(Flatten(blocks), b) == blocks
  {
    if blocks != [] {
      var n := |blocks| - 1;
      assert blocks == blocks[..n] + [blocks[n]];
      FlattenSnoc(blocks[..n], blocks[n]);
      SplitAfterFull(blocks[..n], blocks[n], b);
      assert Split(blocks[n], b) == [blocks[n]];
    }
  }
}
