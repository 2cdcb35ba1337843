/** Facts about sequences, and the effect of writing a run of bytes into a buffer. */
module Seqs {

  /** Adjacent slices join. */
  lemma SliceJoin<T>(s: seq<T>, a: nat, b: nat, c: nat)
    requires a <= b <= c <= |s|
    ensures s[a..b] + s[b..c] == s[a..c]
  {
  }

  /** Concatenation regroups. */
  lemma Concat3<T>(a: seq<T>, b: seq<T>, c: seq<T>)
    ensures a + (b + c) == (a + b) + c
  {
  }

  /** The buffer s after t has been written into it from index at on. */
  function Overwrite<T>(s: seq<T>, at: nat, t: seq<T>): (r: seq<T>)
    requires at + |t| <= |s|
    ensures |r| == |s|
  {
    seq(|s|, i requires 0 <= i < |s| => if at <= i < at + |t| then t[i - at] else s[i])
  }

  /** Inside the written run the buffer holds the run; elsewhere it holds what it held. */
  lemma OverwriteAt<T>(s: seq<T>, at: nat, t: seq<T>, i: nat)
    requires at + |t| <= |s| && i < |s|
    ensures Overwrite(s, at, t)[i] == if at <= i < at + |t| then t[i - at] else s[i]
  {
  }

  /** Writing nothing leaves the buffer as it was. */
  lemma OverwriteNothing<T>(s: seq<T>, at: nat)
    requires at <= |s|
    ensures Overwrite(s, at, []) == s
  {
    assert s[..at] + [] + s[at..] == s;
  }

  /** Storing one element is writing a run of length one. */
  lemma Store<T>(s: seq<T>, i: nat, x: T)
    requires i < |s|
    ensures s[i := x] == Overwrite(s, i, [x])
  {
  }

  /**
   * A second write that starts inside or right after a first one and reaches
   * at least as far combines with it into one write.
   */
  lemma OverwriteOver<T>(s: seq<T>, a: nat, t: seq<T>, b: nat, u: seq<T>)
    requires a <= b <= a + |t| <= b + |u| <= |s|
    ensures Overwrite(Overwrite(s, a, t), b, u) == Overwrite(s, a, t[..b - a] + u)
  {
    var l, r := Overwrite(Overwrite(s, a, t), b, u), Overwrite(s, a, t[..b - a] + u);
    forall k | 0 <= k < |s|
      ensures l[k] == r[k]
    {
      if k < a {
      } else if k < b {
        assert l[k] == t[k - a];
      } else if k < b + |u| {
        assert l[k] == u[k - b];
      } else {
        assert l[k] == s[k];
      }
    }
  }

  /** Two writes in a row, the second starting where the first ended, as one write. */
  lemma OverwriteThen<T>(s: seq<T>, a: nat, t: seq<T>, mid: seq<T>, u: seq<T>, fin: seq<T>)
    requires a + |t| + |u| <= |s|
    requires mid == Overwrite(s, a, t) && fin == Overwrite(mid, a + |t|, u)
    ensures fin == Overwrite(s, a, t + u)
  {
    OverwriteAppend(s, a, t, a + |t|, u);
  }

  /** A write right after another one extends it. */
  lemma OverwriteAppend<T>(s: seq<T>, a: nat, t: seq<T>, b: nat, u: seq<T>)
    requires b == a + |t| && b + |u| <= |s|
    ensures Overwrite(Overwrite(s, a, t), b, u) == Overwrite(s, a, t + u)
  {
    OverwriteOver(s, a, t, b, u);
    assert t[..|t|] == t;
  }
}
