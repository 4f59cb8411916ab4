// Small value types and sequence helpers shared by every module of the model.

module Wrappers {

  /** Swift's `Optional`. */
  datatype Option<T> = None | Some(value: T)

  /** The result of an operation that may stop the program (`fatalError`,
      `preconditionFailure`): either it finishes, or the process traps and
      nothing after the trap happens. */
  datatype Outcome = Finished | Fatal
}

module Sequences {
  import opened Wrappers

  lemma AppendAssoc<T>(a: seq<T>, b: seq<T>, c: seq<T>)
    ensures a + (b + c) == (a + b) + c
  {
  }

  /** Regrouping the record of two calls, the first of which ended with an
      empty record. */
  lemma Regroup<T>(before: seq<T>, first: seq<T>, empty: seq<T>, second: seq<T>, last: seq<T>)
    requires empty == []
    ensures before + first + empty + second + last == before + ((first + second) + last)
  {
  }

  /** `s` with every occurrence of `x` taken out, order kept. */
  function Without<T(==)>(s: seq<T>, x: T): (r: seq<T>)
  {
    if s == [] then []
    else (if s[0] == x then [] else [s[0]]) + Without(s[1..], x)
  }

  lemma {:induction false} InWithout<T>(s: seq<T>, x: T, y: T)
    ensures y in Without(s, x) <==> y in s && y != x
  {
    if s != [] {
      InWithout(s[1..], x, y);
      assert s == [s[0]] + s[1..];
    }
  }

  lemma {:induction false} WithoutAbsent<T>(s: seq<T>, x: T)
    requires x !in s
    ensures Without(s, x) == s
  {
    if s != [] {
      WithoutAbsent(s[1..], x);
      assert s == [s[0]] + s[1..];
    }
  }

  /** `s` with `x` moved (or added) to the end: how UIKit's
      `addChildViewController` and `addSubview` treat an element that may
      already be present. */
  function Added<T(==)>(s: seq<T>, x: T): (r: seq<T>)
    ensures |r| > 0 && r[|r| - 1] == x
  {
    Without(s, x) + [x]
  }

  lemma InAdded<T>(s: seq<T>, x: T, y: T)
    ensures y in Added(s, x) <==> y in s || y == x
    ensures x !in Added(s, x)[..|Added(s, x)| - 1]
  {
    InWithout(s, x, y);
    InWithout(s, x, x);
    assert Added(s, x)[..|Added(s, x)| - 1] == Without(s, x);
  }

  lemma {:induction false} WithoutAppend<T>(a: seq<T>, b: seq<T>, x: T)
    ensures Without(a + b, x) == Without(a, x) + Without(b, x)
  {
    if a == [] {
      assert a + b == b;
    } else {
      assert (a + b)[0] == a[0];
      assert (a + b)[1..] == a[1..] + b;
      WithoutAppend(a[1..], b, x);
    }
  }

  lemma {:induction false} WithoutCommutes<T>(s: seq<T>, x: T, y: T)
    ensures Without(Without(s, x), y) == Without(Without(s, y), x)
  {
    if s != [] {
      var head := if s[0] == x then [] else [s[0]];
      assert Without(s, x) == head + Without(s[1..], x);
      WithoutAppend(head, Without(s[1..], x), y);
      var head' := if s[0] == y then [] else [s[0]];
      assert Without(s, y) == head' + Without(s[1..], y);
      WithoutAppend(head', Without(s[1..], y), x);
      WithoutCommutes(s[1..], x, y);
    }
  }

  /** Number of occurrences of `x` in `s`. */
  function Count<T(==)>(s: seq<T>, x: T): (n: nat)
    ensures n <= |s|
    ensures n == 0 <==> x !in s
  {
    if s == [] then 0 else (if s[0] == x then 1 else 0) + Count(s[1..], x)
  }

  lemma {:induction false} CountAppend<T>(a: seq<T>, b: seq<T>, x: T)
    ensures Count(a + b, x) == Count(a, x) + Count(b, x)
  {
    if a == [] {
      assert a + b == b;
    } else {
      assert (a + b)[0] == a[0];
      assert (a + b)[1..] == a[1..] + b;
      CountAppend(a[1..], b, x);
    }
  }

  /** Swift's `Array(s.prefix(n))`: the first `n` elements, or all of `s`
      when it is shorter. */
  function Prefix<T>(s: seq<T>, n: nat): (r: seq<T>)
    ensures |r| == if n < |s| then n else |s|
    ensures r <= s
  {
    if n < |s| then s[..n] else s
  }

  /** Swift's `index(of:)` / `firstIndex(of:)`. */
  function FirstIndex<T(==)>(s: seq<T>, x: T): (r: Option<nat>)
    ensures r.None? <==> x !in s
    ensures r.Some? ==> r.value < |s| && s[r.value] == x && x !in s[..r.value]
  {
    if s == [] then None
    else if s[0] == x then Some(0)
    else
      var rest := FirstIndex(s[1..], x);
      assert s[1..] == s[1..][..] && s[..1] == [s[0]];
      match rest
      case None => None
      case Some(i) =>
        assert s[..i + 1] == [s[0]] + s[1..][..i];
        Some(i + 1)
  }

  /** Swift's `index(where:)` / `first(where:)` as an index: the smallest
      index whose element satisfies `p`. */
  function FirstIndexWhere<T>(s: seq<T>, p: T -> bool): (r: Option<nat>)
    ensures r.None? <==> forall i :: 0 <= i < |s| ==> !p(s[i])
    ensures r.Some? ==> r.value < |s| && p(s[r.value])
    ensures r.Some? ==> forall j :: 0 <= j < r.value ==> !p(s[j])
  {
    if s == [] then None
    else if p(s[0]) then Some(0)
    else
      match FirstIndexWhere(s[1..], p)
      case None =>
        assert forall i :: 1 <= i < |s| ==> s[i] == s[1..][i - 1];
        None
      case Some(i) =>
        assert forall j :: 1 <= j <= i ==> s[j] == s[1..][j - 1];
        Some(i + 1)
  }

  /** `s.enumerated().filter { p($0.element) }.last.map { $0.offset }`: the
      largest index whose element satisfies `p`. */
  function LastIndexWhere<T>(s: seq<T>, p: T -> bool): (r: Option<nat>)
    ensures r.None? <==> forall i :: 0 <= i < |s| ==> !p(s[i])
    ensures r.Some? ==> r.value < |s| && p(s[r.value])
    ensures r.Some? ==> forall j :: r.value < j < |s| ==> !p(s[j])
  {
    if s == [] then None
    else if p(s[|s| - 1]) then Some(|s| - 1)
    else
      var r := LastIndexWhere(s[..|s| - 1], p);
      assert forall i :: 0 <= i < |s| - 1 ==> s[i] == s[..|s| - 1][i];
      r
  }
}
