/** Go slices of bytes: a window on an array that other slices may share. */
module Slices {
  import opened Bytes

  datatype Slice = Slice(arr: array<byte>, off: nat, len: nat, cap: nat) {
    ghost predicate Valid() {
      len <= cap && off + cap <= arr.Length
    }

    /** The bytes the slice shows. */
    ghost function View(): seq<byte>
      requires Valid()
      reads arr
    {
      arr[off..off + len]
    }

    /** data[:n], which may grow the slice up to its capacity. */
    function Upto(n: nat): (s: Slice)
      requires Valid() && n <= cap
      ensures s.Valid()
    {
      Slice(arr, off, n, cap)
    }
  }

  /** Two states of an array agree except on [off, off + n). */
  ghost predicate SameOutside(before: seq<byte>, after: seq<byte>, off: nat, n: nat) {
    |after| == |before| && forall i :: 0 <= i < |before| && !(off <= i < off + n) ==> after[i] == before[i]
  }

  lemma SameOutsideTwice(a: seq<byte>, b: seq<byte>, c: seq<byte>, off: nat, n: nat)
    requires SameOutside(a, b, off, n) && SameOutside(b, c, off, n)
    ensures SameOutside(a, c, off, n)
  {
  }

  /** Overwriting the end of a window. */
  lemma TailReplaced(before: seq<byte>, after: seq<byte>, off: nat, n: nat, tail: seq<byte>)
    requires off + n + |tail| <= |before| && SameOutside(before, after, off + n, |tail|)
    requires after[off + n..off + n + |tail|] == tail
    ensures after[off..off + n + |tail|] == before[off..off + n] + tail
    ensures SameOutside(before, after, off, n + |tail|)
  {
    assert after[off..off + n] == before[off..off + n];
    assert after[off..off + n + |tail|] == after[off..off + n] + after[off + n..off + n + |tail|];
  }

  /** binary.LittleEndian.PutUint16 and PutUint32 at an index of an array. */
  method StoreUint16(a: array<byte>, p: nat, w: u16)
    requires p + 2 <= a.Length
    modifies a
    ensures a[p..p + 2] == Put16(w)
    ensures SameOutside(old(a[..]), a[..], p, 2)
  {
    a[p] := w % 0x100;
    a[p + 1] := w / 0x100;
  }

  method StoreUint32(a: array<byte>, p: nat, w: u32)
    requires p + 4 <= a.Length
    modifies a
    ensures a[p..p + 4] == Put32(w)
    ensures SameOutside(old(a[..]), a[..], p, 4)
  {
    StoreUint16(a, p, w % 0x1_0000);
    StoreUint16(a, p + 2, w / 0x1_0000);
    assert a[p..p + 4] == a[p..p + 2] + a[p + 2..p + 4];
  }
}
