/** Facts about cutting and joining sequences. */
module Seqs {

  lemma CutAppend<T>(s: seq<T>, x: T, k: nat)
    requires k <= |s|
    ensures (s + [x])[..k] == s[..k]
    ensures (s + [x])[k..] == s[k..] + [x]
  {
  }

  lemma CutAll<T>(s: seq<T>, x: T)
    ensures (s + [x])[..|s|] == s
    ensures (s + [x])[|s| + 1..] == []
  {
  }

  lemma CutConcat<T>(a: seq<T>, b: seq<T>, k: nat)
    requires k <= |b|
    ensures (a + b)[..|a| + k] == a + b[..k]
    ensures (a + b)[|a| + k..] == b[k..]
  {
  }

  lemma Regroup<T>(all: seq<T>, front: seq<T>, last: seq<T>, a: seq<T>, b: seq<T>, bFront: seq<T>)
    requires all == front + last && b == bFront + last && front == a + bFront
    ensures all == a + b
  {
  }

  lemma TailMultiset<T>(s: seq<T>)
    requires s != []
    ensures multiset(s[1..]) == multiset(s) - multiset{s[0]}
  {
    assert s == [s[0]] + s[1..];
  }

  lemma Without<T>(s: seq<T>, j: nat)
    requires j < |s|
    ensures multiset(s) == multiset(s[..j] + s[j + 1..]) + multiset{s[j]}
    ensures multiset(s[..j] + s[j + 1..]) == multiset(s) - multiset{s[j]}
  {
    assert s == s[..j] + [s[j]] + s[j + 1..];
  }

  lemma SameLength<T>(a: seq<T>, b: seq<T>)
    requires multiset(a) == multiset(b)
    ensures |a| == |b|
  {
    assert |a| == |multiset(a)| && |b| == |multiset(b)|;
  }

  /** An element of one of two permutations has an index in the other. */
  lemma IndexIn<T>(a: seq<T>, b: seq<T>, i: nat) returns (j: nat)
    requires multiset(a) == multiset(b) && i < |a|
    ensures j < |b| && b[j] == a[i]
  {
    assert a[i] in multiset(b);
    j :| j < |b| && b[j] == a[i];
  }

  lemma TwiceIn<T>(s: seq<T>, i: nat, j: nat)
    requires i < j < |s| && s[i] == s[j]
    ensures multiset(s)[s[i]] >= 2
  {
    assert s == s[..j] + s[j..] && s[..j][i] == s[i] && s[j..][0] == s[i];
    assert multiset(s)[s[i]] == multiset(s[..j])[s[i]] + multiset(s[j..])[s[i]];
  }

  lemma NextPrefix<T>(s: seq<T>, i: nat)
    requires i < |s|
    ensures s[..i + 1] == s[..i] + [s[i]] && |s[..i]| == i
  {
  }

  lemma Assoc<T>(a: seq<T>, b: seq<T>, c: seq<T>)
    ensures (a + b) + c == a + (b + c)
  {
  }

  lemma FirstThree<T>(a: T, b: T, c: T, s: seq<T>)
    ensures [a] + ([b] + ([c] + s)) == [a, b, c] + s
  {
  }

  lemma PrependConcat<T>(x: T, a: seq<T>, b: seq<T>)
    ensures [x] + (a + b) == ([x] + a) + b
  {
  }

  /** The result of taking the elements in order, each with the result so far. */
  function Fold<A, B>(s: seq<A>, start: B, step: (B, A) -> B): B {
    if s == [] then start else step(Fold(s[..|s| - 1], start, step), s[|s| - 1])
  }

  lemma FoldNext<A, B>(s: seq<A>, i: nat, start: B, step: (B, A) -> B)
    requires i < |s|
    ensures Fold(s[..i + 1], start, step) == step(Fold(s[..i], start, step), s[i])
  {
    assert s[..i + 1][..i] == s[..i];
  }

  function Map<A, B>(s: seq<A>, f: A -> B): seq<B> {
    seq(|s|, i requires 0 <= i < |s| => f(s[i]))
  }

  lemma MapWithout<A, B>(s: seq<A>, j: nat, rest: seq<A>, f: A -> B)
    requires j < |s| && rest == s[..j] + s[j + 1..]
    ensures multiset(Map(s, f)) == multiset(Map(rest, f)) + multiset{f(s[j])}
  {
    Without(Map(s, f), j);
    assert Map(s, f)[..j] + Map(s, f)[j + 1..] == Map(rest, f);
  }

  lemma MapTail<A, B>(s: seq<A>, f: A -> B)
    requires s != []
    ensures multiset(Map(s, f)) == multiset(Map(s[1..], f)) + multiset{f(s[0])}
  {
    MapWithout(s, 0, s[1..], f);
  }

  /** Mapping keeps permutations. */
  lemma {:induction false} MapPermutes<A, B>(a: seq<A>, b: seq<A>, f: A -> B)
    requires multiset(a) == multiset(b)
    ensures multiset(Map(a, f)) == multiset(Map(b, f))
  {
    SameLength(a, b);
    if a != [] {
      var j := IndexIn(a, b, 0);
      var rest := b[..j] + b[j + 1..];
      TailMultiset(a);
      Without(b, j);
      MapPermutes(a[1..], rest, f);
      MapTail(a, f);
      MapWithout(b, j, rest, f);
    }
  }
}
