/** Slices of sequences. */
module Sequences {
  lemma SliceOfSlice<T>(data: seq<T>, pos: nat, next: nat, i: nat, j: nat)
    requires pos <= next <= |data| && i <= j <= next - pos
    ensures data[pos..next][i..j] == data[pos + i..pos + j]
  {
    var s, t := data[pos..next][i..j], data[pos + i..pos + j];
    forall k | 0 <= k < j - i ensures s[k] == t[k] {
      assert data[pos..next][i + k] == data[pos + i + k];
    }
  }

  lemma SliceSplit<T>(data: seq<T>, a: nat, b: nat, c: nat)
    requires a <= b <= c <= |data|
    ensures data[a..c] == data[a..b] + data[b..c]
  {
  }

  lemma PartAt<T>(data: seq<T>, pos: nat, s: seq<T>, i: nat, j: nat)
    requires pos + |s| <= |data| && data[pos..pos + |s|] == s && i <= j <= |s|
    ensures data[pos + i..pos + j] == s[i..j]
  {
    SliceOfSlice(data, pos, pos + |s|, i, j);
  }

  lemma ConcatAt<T>(data: seq<T>, pos: nat, a: seq<T>, b: seq<T>)
    requires pos + |a + b| <= |data| && data[pos..pos + |a + b|] == a + b
    ensures data[pos..pos + |a|] == a && data[pos + |a|..pos + |a + b|] == b
  {
    PartAt(data, pos, a + b, 0, |a|);
    PartAt(data, pos, a + b, |a|, |a + b|);
  }

  lemma ThreeParts<T>(a: seq<T>, b: seq<T>, c: seq<T>)
    ensures var s := a + b + c;
      s[..|a|] == a && s[|a|..|a| + |b|] == b && s[|a| + |b|..] == c
  {
  }

  lemma ConcatAssociates<T>(a: seq<T>, b: seq<T>, c: seq<T>)
    ensures a + b + c == a + (b + c)
  {
  }
}
