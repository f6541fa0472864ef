/** Bytes, optional values and the few sequence facts the other modules share. */
module Bytes {

  type byte = x: int | 0 <= x < 256

  datatype Option<+T> = None | Some(value: T)

  function Min(a: int, b: int): int {
    if a < b then a else b
  }

  function Max(a: int, b: int): int {
    if a < b then b else a
  }

  /** The parts joined end to end. */
  function Flatten<T>(parts: seq<seq<T>>): seq<T> {
    if parts == [] then [] else parts[0] + Flatten(parts[1..])
  }

  lemma {:induction false} FlattenAppend<T>(a: seq<seq<T>>, b: seq<seq<T>>)
    ensures Flatten(a + b) == Flatten(a) + Flatten(b)
  {
    if a == [] {
      assert a + b == b;
    } else {
      assert (a + b)[1..] == a[1..] + b;
      FlattenAppend(a[1..], b);
    }
  }

  lemma FlattenSnoc<T>(a: seq<seq<T>>, x: seq<T>)
    ensures Flatten(a + [x]) == Flatten(a) + x
  {
    FlattenAppend(a, [x]);
    assert [x][1..] == [];
  }

  // ---- Sequences ----

  lemma Assoc<T>(a: seq<T>, b: seq<T>, c: seq<T>)
    ensures (a + b) + c == a + (b + c)
  {
  }

  lemma HeadTail<T>(s: seq<T>)
    requires s != []
    ensures [s[0]] + s[1..] == s
  {
  }

  lemma ConsAppend<T>(a: seq<T>, b: seq<T>)
    requires a != []
    ensures (a + b)[0] == a[0] && (a + b)[1..] == a[1..] + b
  {
  }

  lemma FrontLast<T>(s: seq<T>)
    requires s != []
    ensures s[..|s| - 1] + [s[|s| - 1]] == s
  {
  }

  lemma FrontTake<T>(s: seq<T>, k: nat)
    requires k < |s|
    ensures s[..|s| - 1][..k] == s[..k]
  {
  }

  lemma Snoc<T>(s: seq<T>, x: T)
    ensures (s + [x])[..|s|] == s && (s + [x])[|s|] == x
  {
  }

  lemma TakeSnoc<T>(s: seq<T>, x: T, k: nat)
    requires k < |s|
    ensures (s + [x])[..k] == s[..k] && (s + [x])[k] == s[k]
  {
  }

  lemma TakeAll<T>(s: seq<T>)
    ensures s[..|s|] == s
  {
  }

  lemma TakeNext<T>(s: seq<T>, n: nat)
    requires n < |s|
    ensures s[..n + 1] == s[..n] + [s[n]]
  {
  }

  lemma TakeDrop<T>(s: seq<T>, n: nat)
    requires n <= |s|
    ensures s[..n] + s[n..] == s
  {
  }

  lemma TakeWithin<T>(a: seq<T>, b: seq<T>, j: nat)
    requires j <= |a|
    ensures (a + b)[..j] == a[..j]
  {
  }

  lemma TakeTwice<T>(s: seq<T>, n: nat, k: nat)
    requires k <= n <= |s|
    ensures s[..n][..k] == s[..k]
  {
  }

  lemma {:induction false} Growing<T>(s: nat -> seq<T>, j: nat, k: nat)
    requires j <= k && forall i: nat :: s(i) <= s(i + 1)
    ensures s(j) <= s(k)
  {
    if j < k {
      Growing(s, j, k - 1);
      assert s(k - 1) <= s(k - 1 + 1);
    }
  }

  lemma PrefixIsTake<T>(a: seq<T>, b: seq<T>)
    requires a <= b
    ensures a == b[..|a|]
  {
  }

  lemma TakePastFirst<T>(x: seq<T>, y: seq<T>, k: nat)
    requires |x| <= k <= |x| + |y|
    ensures (x + y)[..k] == x + y[..k - |x|]
  {
  }

  // ---- Selections ----

  /** a can be made from b by leaving elements out. */
  predicate Subseq<T(==)>(a: seq<T>, b: seq<T>) {
    if a == [] then true
    else if b == [] then false
    else
      var a', b' := a[..|a| - 1], b[..|b| - 1];
      Subseq(a, b') || (a[|a| - 1] == b[|b| - 1] && Subseq(a', b'))
  }

  lemma SubseqSnoc<T>(a: seq<T>, b: seq<T>, x: seq<T>)
    requires Subseq(a, b) && |x| <= 1
    ensures Subseq(a + x, b + x)
  {
    if x == [] {
      assert a + x == a && b + x == b;
    } else {
      assert (a + x)[..|a|] == a && (b + x)[..|b|] == b;
    }
  }

  lemma {:induction false} SubseqFront<T>(a: seq<T>, b: seq<T>)
    requires Subseq(a, b) && a != []
    ensures Subseq(a[..|a| - 1], b)
  {
    var b' := b[..|b| - 1];
    if Subseq(a, b') {
      SubseqFront(a, b');
    }
  }

  lemma {:induction false} SubseqRemove<T>(a: seq<T>, b: seq<T>, n: nat)
    requires Subseq(a, b) && n < |a|
    ensures Subseq(a[..n] + a[n + 1..], b)
    decreases |b|
  {
    var r, a', b' := a[..n] + a[n + 1..], a[..|a| - 1], b[..|b| - 1];
    if Subseq(a, b') {
      SubseqRemove(a, b', n);
    } else if n == |a| - 1 {
      assert r == a';
    } else {
      SubseqRemove(a', b', n);
      assert r[..|r| - 1] == a'[..n] + a'[n + 1..];
    }
  }

  lemma {:induction false} SubseqTake<T>(a: seq<T>, b: seq<T>, n: nat)
    requires Subseq(a, b) && n <= |a|
    ensures Subseq(a[..n], b)
    decreases |a|
  {
    if n < |a| {
      SubseqFront(a, b);
      SubseqTake(a[..|a| - 1], b, n);
      assert a[..|a| - 1][..n] == a[..n];
    } else {
      assert a[..n] == a;
    }
  }

  lemma {:induction false} SubseqDrop<T>(a: seq<T>, b: seq<T>, n: nat)
    requires Subseq(a, b) && n <= |a|
    ensures Subseq(a[n..], b)
    decreases |b|
  {
    if n < |a| {
      var a', b' := a[..|a| - 1], b[..|b| - 1];
      if Subseq(a, b') {
        SubseqDrop(a, b', n);
      } else {
        SubseqDrop(a', b', n);
        assert a[n..][..|a[n..]| - 1] == a'[n..];
      }
    }
  }

  lemma {:induction false} SubseqMember<T>(a: seq<T>, b: seq<T>, x: T)
    requires Subseq(a, b) && x in a
    ensures x in b
    decreases |b|
  {
    var a', b' := a[..|a| - 1], b[..|b| - 1];
    if Subseq(a, b') {
      SubseqMember(a, b', x);
    } else if x != a[|a| - 1] {
      SubseqMember(a', b', x);
    }
  }

  lemma {:induction false} SubseqShorter<T>(a: seq<T>, b: seq<T>)
    requires Subseq(a, b)
    ensures |a| <= |b| && (|a| == |b| ==> a == b)
    decreases |b|
  {
    if a != [] {
      var a', b' := a[..|a| - 1], b[..|b| - 1];
      if Subseq(a, b') {
        SubseqShorter(a, b');
      } else {
        SubseqShorter(a', b');
        FrontLast(a);
        FrontLast(b);
      }
    }
  }

  lemma {:induction false} SubseqWhole<T>(a: seq<T>)
    ensures Subseq(a, a)
  {
    if a != [] {
      SubseqWhole(a[..|a| - 1]);
    }
  }

  lemma SubseqOfOne<T>(a: seq<T>, x: T)
    requires Subseq(a, [x])
    ensures a == [] || a == [x]
  {
    SubseqShorter(a, [x]);
  }
}
