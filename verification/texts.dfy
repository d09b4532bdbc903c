/** Occurrences in sequences, and facts about texts of the shape
    `a + [c] + b` used to read labels and messages back. */
module Texts {
  import opened Wrappers

  /** Index of the last occurrence of `c` in `s`, if any. */
  function LastIndex<T(==)>(s: seq<T>, c: T): (r: Option<nat>)
    ensures r.None? <==> c !in s
    ensures r.Some? ==> r.value < |s| && s[r.value] == c
    ensures r.Some? ==> forall j | r.value < j < |s| :: s[j] != c
  {
    if |s| == 0 then None
    else if s[|s| - 1] == c then Some(|s| - 1)
    else
      assert forall j | 0 <= j < |s| - 1 :: s[..|s| - 1][j] == s[j];
      LastIndex(s[..|s| - 1], c)
  }

  /** When `c` does not occur after the chosen occurrence, the split point is unique. */
  lemma SplitAtLast(a: string, b: string, a': string, b': string, c: char)
    requires a + [c] + b == a' + [c] + b'
    requires c !in b && c !in b'
    ensures a == a' && b == b'
  {
    var s := a + [c] + b;
    assert s[|a|] == c && s[|a'|] == c;
    assert forall i | |a| < i < |s| :: s[i] == b[i - |a| - 1] != c;
    assert forall i | |a'| < i < |s| :: s[i] == b'[i - |a'| - 1] != c;
    assert |a| == |a'|;
    assert a == s[..|a|] == a';
    assert b == s[|a| + 1..] == b';
  }

  /** When `c` does not occur before the chosen occurrence, the split point is unique. */
  lemma SplitAtFirst(a: string, b: string, a': string, b': string, c: char)
    requires a + [c] + b == a' + [c] + b'
    requires c !in a && c !in a'
    ensures a == a' && b == b'
  {
    var s := a + [c] + b;
    assert s[|a|] == c && s[|a'|] == c;
    assert forall i | 0 <= i < |a| :: s[i] == a[i] != c;
    assert forall i | 0 <= i < |a'| :: s[i] == a'[i] != c;
    assert |a| == |a'|;
    assert a == s[..|a|] == a';
    assert b == s[|a| + 1..] == b';
  }

  lemma DropPrefix<T>(a: seq<T>, x: seq<T>, y: seq<T>)
    requires a + x == a + y
    ensures x == y
  {
    assert x == (a + x)[|a|..];
    assert y == (a + y)[|a|..];
  }

  lemma DropSuffix<T>(x: seq<T>, y: seq<T>, b: seq<T>)
    requires x + b == y + b
    ensures x == y
  {
    assert x == (x + b)[..|x|];
    assert y == (y + b)[..|y|];
  }

  /** Growing a prefix of `s` by one element, after a fixed start `d`. */
  lemma AppendSnoc<T>(d: seq<T>, s: seq<T>, j: nat)
    requires j < |s|
    ensures (d + s[..j]) + [s[j]] == d + s[..j + 1]
  {
    assert s[..j + 1] == s[..j] + [s[j]];
  }

  lemma AppendSplit<T>(d: seq<T>, s: seq<T>, j: nat)
    requires j <= |s|
    ensures d + s == (d + s[..j]) + s[j..]
  {
    assert s == s[..j] + s[j..];
  }

  lemma Regroup<T>(a: seq<T>, b: seq<T>, c: seq<T>, d: seq<T>, e: seq<T>, f: seq<T>)
    ensures a + b + (c + d) + e + f == a + (b + c + (d + e + f))
  {
  }

  /** The pieces `f` gives for each element of `xs`, one after another. */
  function FlatMap<A, B>(xs: seq<A>, f: A -> seq<B>): seq<B> {
    if |xs| == 0 then [] else FlatMap(xs[..|xs| - 1], f) + f(xs[|xs| - 1])
  }

  lemma FlatMapSnoc<A, B>(xs: seq<A>, x: A, f: A -> seq<B>)
    ensures FlatMap(xs + [x], f) == FlatMap(xs, f) + f(x)
  {
    assert (xs + [x])[..|xs|] == xs;
  }

  /** The pieces of consecutive runs follow one another. */
  lemma {:induction false} FlatMapAppend<A, B>(xs: seq<A>, ys: seq<A>, f: A -> seq<B>)
    ensures FlatMap(xs + ys, f) == FlatMap(xs, f) + FlatMap(ys, f)
  {
    if |ys| == 0 {
      assert xs + ys == xs;
    } else {
      var init := ys[..|ys| - 1];
      var y := ys[|ys| - 1];
      assert ys == init + [y];
      calc {
        FlatMap(xs + ys, f);
        { assert xs + ys == (xs + init) + [y]; }
        FlatMap((xs + init) + [y], f);
        { FlatMapSnoc(xs + init, y, f); }
        FlatMap(xs + init, f) + f(y);
        { FlatMapAppend(xs, init, f); }
        FlatMap(xs, f) + FlatMap(init, f) + f(y);
        { FlatMapSnoc(init, y, f); }
        FlatMap(xs, f) + FlatMap(ys, f);
      }
    }
  }
}
