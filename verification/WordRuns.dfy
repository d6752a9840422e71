/** Runs of little-endian words. */
module WordRuns {
  import opened Bytes

  /** Words stored one after the other behind some bytes. */
  function Stored(head: seq<byte>, words: seq<u32>): (s: seq<byte>)
    ensures |s| == |head| + 4 * |words|
    decreases |words|
  {
    if words == [] then head else Stored(head, words[..|words| - 1]) + Put32(words[|words| - 1])
  }

  lemma StoredMore(head: seq<byte>, words: seq<u32>, w: u32)
    ensures Stored(head, words + [w]) == Stored(head, words) + Put32(w)
  {
    assert (words + [w])[..|words|] == words;
  }

  lemma {:induction false} StoredPrefix(head: seq<byte>, words: seq<u32>)
    ensures Stored(head, words)[..|head|] == head
    decreases |words|
  {
    if words != [] { StoredPrefix(head, words[..|words| - 1]); }
  }

  lemma {:induction false} StoredInjective(h1: seq<byte>, w1: seq<u32>, h2: seq<byte>, w2: seq<u32>)
    requires |w1| == |w2| && Stored(h1, w1) == Stored(h2, w2)
    ensures h1 == h2 && w1 == w2
    decreases |w1|
  {
    if w1 != [] {
      var n := |w1| - 1;
      var s1, s2 := Stored(h1, w1[..n]), Stored(h2, w2[..n]);
      assert s1 == Stored(h1, w1)[..|h1| + 4 * n] && s2 == Stored(h2, w2)[..|h2| + 4 * n];
      StoredInjective(h1, w1[..n], h2, w2[..n]);
      assert Put32(w1[n]) == Stored(h1, w1)[|h1| + 4 * n..] == Put32(w2[n]);
      Le32Put32(w1[n]);
      Le32Put32(w2[n]);
      assert w1 == w1[..n] + [w1[n]] && w2 == w2[..n] + [w2[n]];
    }
  }

  /** Reading a word through a copy of its four bytes. */
  lemma WordAt(s: seq<byte>, p: nat, w: u32)
    requires p + 4 <= |s|
    requires var t := Put32(w); s[p] == t[0] && s[p + 1] == t[1] && s[p + 2] == t[2] && s[p + 3] == t[3]
    ensures Le32(s, p) == w
  {
    Le32Put32(w);
    hide Put32;
  }

  lemma {:induction false} StoredWord(words: seq<u32>, k: nat)
    requires k < |words|
    ensures var s, t := Stored([], words), Put32(words[k]);
      s[4 * k] == t[0] && s[4 * k + 1] == t[1] && s[4 * k + 2] == t[2] && s[4 * k + 3] == t[3]
    decreases |words|
  {
    hide Put32;
    if k < |words| - 1 { StoredWord(words[..|words| - 1], k); }
  }

  /** A packet as little-endian words. */
  function WordsOf(s: seq<byte>): (w: seq<u32>)
    ensures |w| == |s| / 4
  {
    seq(|s| / 4, i requires 0 <= i < |s| / 4 => Le32(s, 4 * i))
  }

  lemma WordsOfStored(words: seq<u32>)
    ensures WordsOf(Stored([], words)) == words
  {
    hide Stored;
    var s := Stored([], words);
    forall k | 0 <= k < |words| ensures WordsOf(s)[k] == words[k] {
      StoredWord(words, k);
      WordAt(s, 4 * k, words[k]);
    }
  }

  /** The bytes of a packet of whole words are those of its words. */
  lemma {:induction false} StoredWordsOf(s: seq<byte>)
    requires |s| % 4 == 0
    ensures Stored([], WordsOf(s)) == s
    decreases |s|
  {
    if s != [] {
      hide Put32, Le32;
      var n := |s| - 4;
      StoredWordsOf(s[..n]);
      Put32Le32(s, n);
      WordsOfLast(s);
      StoredMore([], WordsOf(s[..n]), Le32(s, n));
      assert s == s[..n] + s[n..n + 4];
    }
  }

  lemma WordsOfLast(s: seq<byte>)
    requires |s| % 4 == 0 && |s| >= 4
    ensures WordsOf(s) == WordsOf(s[..|s| - 4]) + [Le32(s, |s| - 4)]
  {
    hide Word16;
    var t := s[..|s| - 4];
    forall k | 0 <= k < |t| / 4 ensures WordsOf(s)[k] == WordsOf(t)[k] {
      assert Le32(s, 4 * k) == Le32(t, 4 * k);
    }
    assert |WordsOf(s)| == |WordsOf(t)| + 1;
  }

  /** Replacing a word touches its own four bytes only. */
  lemma StoredUpdate(words: seq<u32>, i: nat, w: u32, j: nat)
    requires i < |words| && j < 4 * |words| && j / 4 != i
    ensures Stored([], words[i := w])[j] == Stored([], words)[j]
  {
    hide Put32, Stored;
    StoredWord(words, j / 4);
    StoredWord(words[i := w], j / 4);
    assert j == 4 * (j / 4) + j % 4;
  }
}
