/** Small facts about sequences, stated once for any element type so that
    proofs about outlines and deltas can use them without unfolding their
    own functions. */
module Seqs {

  lemma {:induction false} AppendAssoc<T>(a: seq<T>, b: seq<T>, c: seq<T>)
    ensures a + (b + c) == (a + b) + c
  {
  }

  /** A slice that stops before the new last element does not see it. */
  lemma {:induction false} SnocSlice<T>(s: seq<T>, x: T, a: nat, b: nat)
    requires a <= b <= |s|
    ensures (s + [x])[a..b] == s[a..b]
  {
  }

  /** A suffix of `s + [x]` that starts within `s` is a suffix of `s`, then `x`. */
  lemma {:induction false} SnocSuffix<T>(s: seq<T>, x: T, a: nat)
    requires a <= |s|
    ensures (s + [x])[a..] == s[a..] + [x]
  {
  }

  /** The elements of `s + [x]` before `x` are those of `s`. */
  lemma {:induction false} SnocIndex<T>(s: seq<T>, x: T, i: nat)
    requires i < |s|
    ensures (s + [x])[i] == s[i]
  {
  }

  /** `a + s`, grown by `x` at the back, is `a` followed by `s + x`, stated
      for names of the three sequences. */
  lemma {:induction false} Regroup<T>(a: seq<T>, s: seq<T>, x: seq<T>, sx: seq<T>, big: seq<T>, small: seq<T>)
    requires sx == s + x && big == a + sx && small == a + s
    ensures big == small + x
  {
  }

  /** Appending one pair, and appending its two elements one at a time. */
  lemma {:induction false} AppendPair<T>(s: seq<T>, x: T, y: T)
    ensures s + [x, y] == (s + [x]) + [y]
  {
  }

  /** A display grown by two elements. */
  lemma {:induction false} Displays<T>(s: seq<T>, x: T, y: T)
    ensures |s| == 0 ==> s + [x, y] == [x, y]
    ensures |s| == 2 ==> s + [x, y] == [s[0], s[1], x, y]
    ensures |s| == 4 ==> s + [x, y] == [s[0], s[1], s[2], s[3], x, y]
  {
  }

  /** A display grown by one element. */
  lemma {:induction false} Grown<T>(s: seq<T>, x: T)
    ensures |s| == 0 ==> s + [x] == [x]
    ensures |s| == 1 ==> s + [x] == [s[0], x]
    ensures |s| == 2 ==> s + [x] == [s[0], s[1], x]
  {
  }
}
