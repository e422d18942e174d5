/** Regrouping facts about sequence concatenation. Proving them once, over
    any element type, keeps them out of the proofs about strings, where the
    solver finds them costly. */
module Seqs {
  lemma Assoc<T>(a: seq<T>, b: seq<T>, c: seq<T>)
    ensures a + b + c == a + (b + c)
  {
  }

  lemma Assoc4<T>(a: seq<T>, b: seq<T>, c: seq<T>, d: seq<T>)
    ensures a + b + c + d == a + (b + c + d)
  {
  }

  lemma Assoc5<T>(a: seq<T>, b: seq<T>, c: seq<T>, d: seq<T>, e: seq<T>)
    ensures a + b + c + d + e == a + (b + c + d + e)
  {
  }

  /** Four pieces joined left to right, regrouped around the third. */
  lemma Regroup<T>(b: seq<T>, p: seq<T>, t: seq<T>, l: seq<T>, d: seq<T>)
    ensures b + (p + t) + l + d == (b + p) + t + (l + d)
    ensures b + (p + t) + l + d == b + (p + t) + (l + d)
  {
  }

  lemma Flatten<T>(b: seq<T>, p1: seq<T>, p2: seq<T>, p3: seq<T>, p4: seq<T>, p5: seq<T>, p6: seq<T>, d: seq<T>)
    ensures b + (p1 + p2 + p3 + p4) + (p5 + p6) + d == b + p1 + p2 + p3 + p4 + p5 + p6 + d
  {
  }

  /** The middle piece of a concatenation sits right after the first. */
  lemma Middle<T>(x: seq<T>, m: seq<T>, y: seq<T>)
    ensures |x| + |m| <= |x + m + y| && (x + m + y)[|x|..|x| + |m|] == m
  {
  }

  lemma ConsAppend<T>(a: seq<T>, u: seq<T>)
    requires a != []
    ensures [a[0]] + (a[1..] + u) == a + u
  {
    assert [a[0]] + a[1..] == a;
  }

  lemma SplitThree<T>(s: seq<T>)
    requires |s| >= 3
    ensures [s[0], s[1], s[2]] + s[3..] == s
  {
  }

  /** A sequence is what lies before an index, the element there and what follows. */
  lemma AroundIndex<T>(s: seq<T>, k: nat)
    requires k < |s|
    ensures s == s[..k] + [s[k]] + s[k + 1..]
  {
  }

  /** A prefix grows by the element that follows it. */
  lemma PrefixExtend<T>(a: seq<T>, b: seq<T>, x: T)
    requires a <= b && |a| < |b| && b[|a|] == x
    ensures a + [x] <= b
  {
    assert (a + [x])[..|a|] == a;
  }

  /** A prefix as long as the whole is the whole. */
  lemma PrefixFull<T>(a: seq<T>, b: seq<T>)
    requires a <= b && |a| == |b|
    ensures a == b
  {
  }

  /** The blocks of `ss` laid end to end. */
  function Concat<T>(ss: seq<seq<T>>): seq<T>
    decreases |ss|
  {
    if ss == [] then [] else Concat(ss[..|ss| - 1]) + ss[|ss| - 1]
  }

  /** Flattening distributes over concatenation. */
  lemma {:induction false} ConcatAppend<T>(a: seq<seq<T>>, b: seq<seq<T>>)
    ensures Concat(a + b) == Concat(a) + Concat(b)
    decreases |b|
  {
    if b == [] {
      assert a + b == a;
    } else {
      var n := |b| - 1;
      assert (a + b)[..|a + b| - 1] == a + b[..n];
      assert (a + b)[|a + b| - 1] == b[n];
      ConcatAppend(a, b[..n]);
      Assoc(Concat(a), Concat(b[..n]), b[n]);
    }
  }
}
