/** Facts about sequences that hold the same elements. */
module Sequences {
  lemma RemoveAt<T>(s: seq<T>, k: nat)
    requires k < |s|
    ensures multiset(s) == multiset(s[..k] + s[k + 1..]) + multiset{s[k]}
  {
    assert s == s[..k] + ([s[k]] + s[k + 1..]);
  }

  /** Two orderings of one collection: the head of the first can be taken out of the second. */
  lemma RemoveHead<T>(a: seq<T>, b: seq<T>) returns (k: nat)
    requires a != [] && multiset(a) == multiset(b)
    ensures k < |b| && b[k] == a[0]
    ensures multiset(a[1..]) == multiset(b[..k] + b[k + 1..])
  {
    assert a[0] in multiset(a);
    k :| 0 <= k < |b| && b[k] == a[0];
    RemoveAt(a, 0);
    assert a[..0] + a[1..] == a[1..];
    RemoveAt(b, k);
    assert multiset(a[1..]) == multiset(a) - multiset{a[0]};
    assert multiset(b[..k] + b[k + 1..]) == multiset(b) - multiset{b[k]};
  }

  lemma SameLength<T>(a: seq<T>, b: seq<T>)
    requires multiset(a) == multiset(b)
    ensures |a| == |b|
    ensures forall x :: x in a <==> x in b
  {
    assert |multiset(a)| == |a| && |multiset(b)| == |b|;
    forall x ensures x in a <==> x in b {
      assert x in a <==> x in multiset(a);
    }
  }

  lemma RepeatedElement<T>(s: seq<T>, i: nat, j: nat)
    requires i < j < |s| && s[i] == s[j]
    ensures multiset(s)[s[i]] >= 2
  {
    RemoveAt(s, i);
    var rest := s[..i] + s[i + 1..];
    assert rest[j - 1] == s[j] && s[j] in rest;
    assert s[j] in multiset(rest);
  }

  lemma SliceOfSlice<T>(s: seq<T>, start: nat, end: nat, from: nat, to: nat)
    requires start <= end <= |s| && from <= to <= end - start
    ensures s[start..end][from..to] == s[start + from..start + to]
  {
    forall k | 0 <= k < to - from ensures s[start..end][from..to][k] == s[start + from..start + to][k] {
      assert s[start..end][from..to][k] == s[start..end][from + k];
    }
  }

  lemma SliceOfDrop<T>(s: seq<T>, start: nat, from: nat, to: nat)
    requires start <= |s| && from <= to <= |s| - start
    ensures s[start..][from..to] == s[start + from..start + to]
  {
    forall k | 0 <= k < to - from ensures s[start..][from..to][k] == s[start + from..start + to][k] {
      assert s[start..][from..to][k] == s[start..][from + k];
    }
  }

  lemma SliceOfTake<T>(s: seq<T>, n: nat, from: nat, to: nat)
    requires from <= to <= n <= |s|
    ensures s[..n][from..to] == s[from..to]
  {
    forall k | 0 <= k < to - from ensures s[..n][from..to][k] == s[from..to][k] {
      assert s[..n][from..to][k] == s[..n][from + k];
    }
  }

  lemma SliceOfPrefix<T>(prefix: seq<T>, s: seq<T>, from: nat, to: nat)
    requires prefix <= s && from <= to <= |prefix|
    ensures s[from..to] == prefix[from..to]
  {
    assert prefix == s[..|prefix|];
    SliceOfTake(s, |prefix|, from, to);
  }
}
