/** Array operations of JavaScript used throughout the model, on sequences. */
module Lists {

  /** `Array.prototype.filter`: the elements of `s` that satisfy `p`, in their order in `s`. */
  function Filter<T>(p: T -> bool, s: seq<T>): (r: seq<T>)
    ensures |r| <= |s|
    ensures forall i :: 0 <= i < |r| ==> r[i] in s && p(r[i])
    ensures forall i :: 0 <= i < |s| && p(s[i]) ==> s[i] in r
  {
    if s == [] then [] else (if p(s[0]) then [s[0]] else []) + Filter(p, s[1..])
  }

  /** What a filter keeps, as values: exactly the elements of `s` that satisfy `p`. */
  lemma FilterMembers<T>(p: T -> bool, s: seq<T>)
    ensures forall x :: x in Filter(p, s) <==> x in s && p(x)
  {
    forall x | x in s && p(x) ensures x in Filter(p, s) {
      var i :| 0 <= i < |s| && s[i] == x;
    }
  }

  /** Two lists that hold the same values equally often have the same members. */
  lemma SameMembers<T>(a: seq<T>, b: seq<T>)
    requires multiset(a) == multiset(b)
    ensures forall x :: x in a <==> x in b
  {
    forall x ensures x in a <==> x in b {
      assert x in a <==> x in multiset(a);
      assert x in b <==> x in multiset(b);
    }
  }

  /** One step of `Filter`, for a list written as its first element and the rest. */
  lemma FilterCons<T>(p: T -> bool, y: T, t: seq<T>)
    ensures Filter(p, [y] + t) == (if p(y) then [y] else []) + Filter(p, t)
  {
    assert ([y] + t)[1..] == t;
  }

  /** Filtering distributes over concatenation, so a filter keeps the order of what it keeps. */
  lemma {:induction false} FilterConcat<T>(p: T -> bool, a: seq<T>, b: seq<T>)
    ensures Filter(p, a + b) == Filter(p, a) + Filter(p, b)
  {
    if a == [] {
      assert a + b == b;
    } else {
      assert (a + b)[1..] == a[1..] + b;
      FilterConcat(p, a[1..], b);
    }
  }

  /** Two filters can be applied in either order. */
  lemma {:induction false} FilterCommute<T>(p: T -> bool, q: T -> bool, s: seq<T>)
    ensures Filter(p, Filter(q, s)) == Filter(q, Filter(p, s))
  {
    if s != [] {
      var y, t := s[0], s[1..];
      assert s == [y] + t;
      FilterCommute(p, q, t);
      var a, b := Filter(q, t), Filter(p, t);
      FilterCons(q, y, t);
      FilterCons(p, y, t);
      if q(y) {
        assert Filter(q, s) == [y] + a;
        FilterCons(p, y, a);
      } else {
        assert Filter(q, s) == a;
      }
      if p(y) {
        assert Filter(p, s) == [y] + b;
        FilterCons(q, y, b);
      } else {
        assert Filter(p, s) == b;
      }
    }
  }

  /** How often a filter keeps a value: as often as `s` holds it if it passes, never otherwise. */
  lemma {:induction false} FilterCount<T>(p: T -> bool, s: seq<T>, x: T)
    ensures multiset(Filter(p, s))[x] == if p(x) then multiset(s)[x] else 0
  {
    if s != [] {
      FilterCount(p, s[1..], x);
      var head := if p(s[0]) then [s[0]] else [];
      assert Filter(p, s) == head + Filter(p, s[1..]);
      assert multiset(Filter(p, s)) == multiset(head) + multiset(Filter(p, s[1..]));
      assert multiset(s) == multiset{s[0]} + multiset(s[1..]) by {
        assert s == [s[0]] + s[1..];
      }
    }
  }

  /** A filter holds no value more often than `s` does. */
  lemma FilterSubMultiset<T>(p: T -> bool, s: seq<T>)
    ensures multiset(Filter(p, s)) <= multiset(s)
  {
    forall x ensures multiset(Filter(p, s))[x] <= multiset(s)[x] {
      FilterCount(p, s, x);
    }
  }

  /** A filter and the filter by the negated predicate split `s` into two parts
      that together hold every element of `s` exactly as often as `s` does. */
  lemma FilterSplit<T>(p: T -> bool, q: T -> bool, s: seq<T>)
    requires forall x :: q(x) == !p(x)
    ensures multiset(Filter(p, s)) + multiset(Filter(q, s)) == multiset(s)
  {
    forall x ensures (multiset(Filter(p, s)) + multiset(Filter(q, s)))[x] == multiset(s)[x] {
      FilterCount(p, s, x);
      FilterCount(q, s, x);
    }
  }

  /** Filtering with a predicate that every element satisfies changes nothing. */
  lemma {:induction false} FilterAll<T>(p: T -> bool, s: seq<T>)
    requires forall i :: 0 <= i < |s| ==> p(s[i])
    ensures Filter(p, s) == s
  {
    if s != [] {
      FilterAll(p, s[1..]);
    }
  }

  /** `Array.prototype.slice(lo, hi)` for non-negative bounds: both bounds are clamped to the length. */
  function Slice<T>(s: seq<T>, lo: nat, hi: nat): (r: seq<T>)
    ensures |r| <= |s| && |r| <= if hi < lo then 0 else hi - lo
    ensures lo <= hi <= |s| ==> r == s[lo..hi]
    ensures lo <= |s| <= hi ==> r == s[lo..]
    ensures forall i :: 0 <= i < |r| ==> lo + i < |s| && r[i] == s[lo + i]
  {
    var a := if lo < |s| then lo else |s|;
    var b := if hi < |s| then hi else |s|;
    if a < b then s[a..b] else []
  }

  /** `Array.prototype.map`. */
  function Map<T, U>(f: T -> U, s: seq<T>): (r: seq<U>)
    ensures |r| == |s|
    ensures forall i :: 0 <= i < |s| ==> r[i] == f(s[i])
  {
    seq(|s|, i requires 0 <= i < |s| => f(s[i]))
  }
}
