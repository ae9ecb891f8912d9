/** Generic list operations that the query builder and the response
    assembler use: Swift's `map`, `filter`, and how they interact with
    rearranging their input. */
module Sequences {
  import opened Wrappers

  /** `map`: `f` applied to every element, in order. */
  function Map<A, B>(f: A -> B, s: seq<A>): (r: seq<B>)
    ensures |r| == |s|
    ensures forall i :: 0 <= i < |s| ==> r[i] == f(s[i])
  {
    if s == [] then [] else [f(s[0])] + Map(f, s[1..])
  }

  /** `filter`: the elements that satisfy `p`, in order. */
  function Filter<A(!new)>(p: A -> bool, s: seq<A>): (r: seq<A>)
    ensures |r| <= |s|
    ensures forall x :: x in r <==> x in s && p(x)
  {
    if s == [] then []
    else if p(s[0]) then [s[0]] + Filter(p, s[1..])
    else Filter(p, s[1..])
  }

  /** `n` copies of `e`. */
  function Repeat<B>(e: B, n: nat): (r: seq<B>)
    ensures |r| == n && forall i :: 0 <= i < n ==> r[i] == e
  {
    if n == 0 then [] else [e] + Repeat(e, n - 1)
  }

  /** How many elements fail `p`. */
  function CountNot<A(!new)>(p: A -> bool, s: seq<A>): (n: nat)
    ensures n + |Filter(p, s)| == |s|
  {
    if s == [] then 0
    else (if p(s[0]) then 0 else 1) + CountNot(p, s[1..])
  }

  lemma MapAppend<A, B>(f: A -> B, a: seq<A>, b: seq<A>)
    ensures Map(f, a + b) == Map(f, a) + Map(f, b)
  {
  }

  lemma {:induction false} MultisetRemove<A>(s: seq<A>, i: nat)
    requires i < |s|
    ensures multiset(s) == multiset{s[i]} + multiset(s[..i] + s[i + 1..])
  {
    assert s == s[..i] + [s[i]] + s[i + 1..];
  }

  lemma MultisetCancel<A>(x: A, m1: multiset<A>, m2: multiset<A>)
    requires multiset{x} + m1 == multiset{x} + m2
    ensures m1 == m2
  {
    forall y ensures m1[y] == m2[y] {
      assert (multiset{x} + m1)[y] == (multiset{x} + m2)[y];
    }
  }

  /** Removing one position commutes with `map`. */
  lemma MapRemove<A, B>(f: A -> B, s: seq<A>, i: nat)
    requires i < |s|
    ensures Map(f, s[..i] + s[i + 1..]) == Map(f, s)[..i] + Map(f, s)[i + 1..]
  {
    calc {
      Map(f, s[..i] + s[i + 1..]);
      { MapAppend(f, s[..i], s[i + 1..]); }
      Map(f, s[..i]) + Map(f, s[i + 1..]);
      { MapPrefix(f, s, i); MapSuffix(f, s, i + 1); }
      Map(f, s)[..i] + Map(f, s)[i + 1..];
    }
  }

  lemma MapPrefix<A, B>(f: A -> B, s: seq<A>, n: nat)
    requires n <= |s|
    ensures Map(f, s[..n]) == Map(f, s)[..n]
  {
    var l, r := Map(f, s[..n]), Map(f, s)[..n];
    forall k | 0 <= k < n ensures l[k] == r[k] {
      assert s[..n][k] == s[k];
    }
  }

  lemma MapSuffix<A, B>(f: A -> B, s: seq<A>, n: nat)
    requires n <= |s|
    ensures Map(f, s[n..]) == Map(f, s)[n..]
  {
    var l, r := Map(f, s[n..]), Map(f, s)[n..];
    forall k | 0 <= k < |s| - n ensures l[k] == r[k] {
      assert s[n..][k] == s[n + k];
    }
  }

  /** Taking the same element out of two equal multisets leaves equal ones. */
  lemma MultisetRemoveBoth<A>(a: seq<A>, b: seq<A>, i: nat)
    requires |a| > 0 && i < |b| && b[i] == a[0]
    requires multiset(a) == multiset(b)
    ensures multiset(a[1..]) == multiset(b[..i] + b[i + 1..])
  {
    MultisetRemove(a, 0);
    assert a[..0] + a[1..] == a[1..];
    MultisetRemove(b, i);
    MultisetCancel(a[0], multiset(a[1..]), multiset(b[..i] + b[i + 1..]));
  }

  /** Equal heads taken off two equal multisets leave equal ones. */
  lemma MultisetRemoveHeads<A>(a: seq<A>, b: seq<A>)
    requires |a| > 0 && |b| > 0 && a[0] == b[0]
    requires multiset(a) == multiset(b)
    ensures multiset(a[1..]) == multiset(b[1..])
  {
    assert a == [a[0]] + a[1..] && b == [b[0]] + b[1..];
    MultisetCancel(a[0], multiset(a[1..]), multiset(b[1..]));
  }

  /** Mapping two rearrangements of one sequence gives two rearrangements
      of one sequence. */
  lemma {:induction false} MapPermutation<A, B>(f: A -> B, a: seq<A>, b: seq<A>)
    requires multiset(a) == multiset(b)
    ensures multiset(Map(f, a)) == multiset(Map(f, b))
  {
    if a == [] {
      assert |b| == |multiset(b)| == 0;
    } else {
      var x := a[0];
      assert x in multiset(b);
      var i :| 0 <= i < |b| && b[i] == x;
      var a', b' := a[1..], b[..i] + b[i + 1..];
      MultisetRemoveBoth(a, b, i);
      MapPermutation(f, a', b');
      var fa, fb := Map(f, a), Map(f, b);
      MapRemove(f, b, i);
      MultisetRemove(fb, i);
      assert fa == [f(x)] + Map(f, a');
      assert fb[i] == f(x);
    }
  }

  /** When `f` sends every element failing `p` to `e`, the mapped sequence
      holds one `e` per such element besides the mapped survivors. */
  lemma {:induction false} MapFilterSplit<A(!new), B>(f: A -> B, p: A -> bool, e: B, s: seq<A>)
    requires forall x :: !p(x) ==> f(x) == e
    ensures multiset(Map(f, s)) == multiset(Repeat(e, CountNot(p, s))) + multiset(Map(f, Filter(p, s)))
  {
    if s != [] {
      MapFilterSplit(f, p, e, s[1..]);
      if p(s[0]) { MapFilterKept(f, p, e, s); } else { MapFilterDropped(f, p, e, s); }
    }
  }

  lemma MapCons<A, B>(f: A -> B, x: A, s: seq<A>)
    ensures Map(f, [x] + s) == [f(x)] + Map(f, s)
  {
    assert ([x] + s)[0] == x && ([x] + s)[1..] == s;
  }

  lemma FilterCons<A(!new)>(p: A -> bool, s: seq<A>)
    requires |s| > 0
    ensures Filter(p, s) == if p(s[0]) then [s[0]] + Filter(p, s[1..]) else Filter(p, s[1..])
    ensures CountNot(p, s) == (if p(s[0]) then 0 else 1) + CountNot(p, s[1..])
  {
  }

  /** One element more on the left of a split multiset. */
  lemma UnionShift<T>(x: multiset<T>, whole: multiset<T>, a: multiset<T>, b: multiset<T>)
    requires whole == a + b
    ensures x + whole == (x + a) + b && x + whole == a + (x + b)
  {
    forall y ensures (x + whole)[y] == ((x + a) + b)[y] == (a + (x + b))[y] {
      assert whole[y] == a[y] + b[y];
    }
  }

  lemma RepeatSucc<B>(e: B, n: nat)
    ensures Repeat(e, n + 1) == [e] + Repeat(e, n)
  {
  }

  lemma MapHead<A, B>(f: A -> B, s: seq<A>)
    requires |s| > 0
    ensures Map(f, s) == [f(s[0])] + Map(f, s[1..])
  {
  }

  /** One element in front of a split sequence, counted in the first part. */
  lemma ConsLeft<B>(whole: seq<B>, rest: seq<B>, part: seq<B>, partRest: seq<B>, other: seq<B>, y: B)
    requires whole == [y] + rest && part == [y] + partRest
    requires multiset(rest) == multiset(partRest) + multiset(other)
    ensures multiset(whole) == multiset(part) + multiset(other)
  {
    UnionShift(multiset{y}, multiset(rest), multiset(partRest), multiset(other));
  }

  /** One element in front of a split sequence, counted in the second part. */
  lemma ConsRight<B>(whole: seq<B>, rest: seq<B>, part: seq<B>, other: seq<B>, otherRest: seq<B>, y: B)
    requires whole == [y] + rest && other == [y] + otherRest
    requires multiset(rest) == multiset(part) + multiset(otherRest)
    ensures multiset(whole) == multiset(part) + multiset(other)
  {
    UnionShift(multiset{y}, multiset(rest), multiset(part), multiset(otherRest));
  }

  lemma MapFilterKept<A(!new), B>(f: A -> B, p: A -> bool, e: B, s: seq<A>)
    requires |s| > 0 && p(s[0])
    requires multiset(Map(f, s[1..])) == multiset(Repeat(e, CountNot(p, s[1..]))) + multiset(Map(f, Filter(p, s[1..])))
    ensures multiset(Map(f, s)) == multiset(Repeat(e, CountNot(p, s))) + multiset(Map(f, Filter(p, s)))
  {
    var t := s[1..];
    FilterCons(p, s);
    MapHead(f, s);
    MapCons(f, s[0], Filter(p, t));
    ConsRight(Map(f, s), Map(f, t), Repeat(e, CountNot(p, t)), Map(f, Filter(p, s)), Map(f, Filter(p, t)), f(s[0]));
  }

  lemma MapFilterDropped<A(!new), B>(f: A -> B, p: A -> bool, e: B, s: seq<A>)
    requires |s| > 0 && !p(s[0]) && f(s[0]) == e
    requires multiset(Map(f, s[1..])) == multiset(Repeat(e, CountNot(p, s[1..]))) + multiset(Map(f, Filter(p, s[1..])))
    ensures multiset(Map(f, s)) == multiset(Repeat(e, CountNot(p, s))) + multiset(Map(f, Filter(p, s)))
  {
    var t := s[1..];
    var n := CountNot(p, t);
    FilterCons(p, s);
    MapHead(f, s);
    RepeatSucc(e, n);
    ConsLeft(Map(f, s), Map(f, t), Repeat(e, n + 1), Repeat(e, n), Map(f, Filter(p, t)), e);
  }

  lemma {:induction false} FilterAppend<A(!new)>(p: A -> bool, a: seq<A>, b: seq<A>)
    ensures Filter(p, a + b) == Filter(p, a) + Filter(p, b)
  {
    if a == [] {
      assert a + b == b;
    } else {
      assert (a + b)[0] == a[0] && (a + b)[1..] == a[1..] + b;
      FilterAppend(p, a[1..], b);
    }
  }

  /** `filter` keeps the length exactly when every element passes, and
      then it keeps the whole sequence. */
  lemma {:induction false} FilterKeepsAll<A(!new)>(p: A -> bool, s: seq<A>)
    ensures |Filter(p, s)| == |s| <==> forall i :: 0 <= i < |s| ==> p(s[i])
    ensures (forall i :: 0 <= i < |s| ==> p(s[i])) ==> Filter(p, s) == s
  {
    if s != [] {
      var t := s[1..];
      FilterKeepsAll(p, t);
      assert (forall i :: 0 <= i < |s| ==> p(s[i])) <==> p(s[0]) && forall i :: 0 <= i < |t| ==> p(t[i]) by {
        assert forall i :: 1 <= i < |s| ==> s[i] == t[i - 1];
      }
      if p(s[0]) {
        assert Filter(p, s) == [s[0]] + Filter(p, t);
        assert s == [s[0]] + t;
      } else {
        assert |Filter(p, s)| <= |t|;
      }
    }
  }

  /** `compactMap`: the present results of `f`, in order. */
  function CompactMap<A, B>(f: A -> Option<B>, s: seq<A>): (r: seq<B>)
    ensures |r| <= |s|
  {
    if s == [] then []
    else
      match f(s[0])
      case Some(y) => [y] + CompactMap(f, s[1..])
      case None => CompactMap(f, s[1..])
  }

  lemma {:induction false} CompactMapAppend<A, B>(f: A -> Option<B>, a: seq<A>, b: seq<A>)
    ensures CompactMap(f, a + b) == CompactMap(f, a) + CompactMap(f, b)
  {
    if a == [] {
      assert a + b == b;
    } else {
      assert (a + b)[0] == a[0] && (a + b)[1..] == a[1..] + b;
      CompactMapAppend(f, a[1..], b);
    }
  }
}
