/** Sequence helpers shared by the converters and the web views: filter, flat-map, counting, subsequences. */
module Seqs {
  import opened Wrappers

  /** Array.prototype.filter / a list comprehension with an `if`: the elements satisfying `p`, in order. */
  function Filter<T>(s: seq<T>, p: T -> bool): (r: seq<T>)
    ensures |r| <= |s|
  {
    if |s| == 0 then [] else (if p(s[0]) then [s[0]] else []) + Filter(s[1..], p)
  }

  /** Array.prototype.find: the first element satisfying `p`, None (undefined) when there is none. */
  function Find<T>(s: seq<T>, p: T -> bool): Option<T> {
    if |s| == 0 then None else if p(s[0]) then Some(s[0]) else Find(s[1..], p)
  }

  /** The number of elements of `s` satisfying `p`. */
  function Count<T>(s: seq<T>, p: T -> bool): nat {
    if |s| == 0 then 0 else (if p(s[0]) then 1 else 0) + Count(s[1..], p)
  }

  /** `a` is `b` with some elements left out, the rest in their order. */
  predicate IsSubsequence<T(==)>(a: seq<T>, b: seq<T>)
    decreases |b|
  {
    |a| == 0 || (|b| > 0 && ((a[0] == b[0] && IsSubsequence(a[1..], b[1..])) || IsSubsequence(a, b[1..])))
  }

  /** Concatenation of the sequences `f` gives for each element, in order. */
  function FlatMap<T, U>(s: seq<T>, f: T -> seq<U>): seq<U> {
    if |s| == 0 then [] else f(s[0]) + FlatMap(s[1..], f)
  }

  /** Filtering keeps exactly the elements satisfying `p`, as many as there are, as an in-order subsequence. */
  lemma {:induction false} FilterSpec<T>(s: seq<T>, p: T -> bool)
    ensures forall x :: x in Filter(s, p) <==> x in s && p(x)
    ensures forall i :: 0 <= i < |Filter(s, p)| ==> Filter(s, p)[i] in s && p(Filter(s, p)[i])
    ensures |Filter(s, p)| == Count(s, p)
    ensures IsSubsequence(Filter(s, p), s)
  {
    if |s| > 0 {
      FilterSpec(s[1..], p);
      var rest := Filter(s[1..], p);
      if p(s[0]) {
        assert Filter(s, p) == [s[0]] + rest;
        assert ([s[0]] + rest)[1..] == rest;
      } else {
        assert Filter(s, p) == rest;
      }
    }
  }

  /** The first element kept is the first element of `s` satisfying `p`. */
  lemma {:induction false} FilterFirst<T>(s: seq<T>, p: T -> bool)
    ensures |Filter(s, p)| > 0 <==> exists k :: 0 <= k < |s| && p(s[k])
    ensures |Filter(s, p)| > 0 ==>
      exists k :: 0 <= k < |s| && p(s[k]) && Filter(s, p)[0] == s[k] && forall j :: 0 <= j < k ==> !p(s[j])
  {
    if |s| > 0 {
      FilterFirst(s[1..], p);
      if !p(s[0]) {
        assert Filter(s, p) == Filter(s[1..], p);
        if exists k :: 0 <= k < |s| && p(s[k]) {
          var k :| 0 <= k < |s| && p(s[k]);
          assert p(s[1..][k - 1]);
        }
        if |Filter(s, p)| > 0 {
          var k :| 0 <= k < |s[1..]| && p(s[1..][k]) && Filter(s[1..], p)[0] == s[1..][k] &&
            forall j :: 0 <= j < k ==> !p(s[1..][j]);
          assert p(s[k + 1]) && Filter(s, p)[0] == s[k + 1];
          forall j | 0 <= j < k + 1 ensures !p(s[j]) {
            if j > 0 { assert s[j] == s[1..][j - 1]; }
          }
        }
      }
    }
  }

  /** Filtering distributes over concatenation, so the order of the input is kept. */
  lemma {:induction false} FilterConcat<T>(a: seq<T>, b: seq<T>, p: T -> bool)
    ensures Filter(a + b, p) == Filter(a, p) + Filter(b, p)
  {
    if |a| > 0 {
      FilterConcat(a[1..], b, p);
      assert (a + b)[1..] == a[1..] + b;
    } else {
      assert a + b == b;
    }
  }

  /** A filter that accepts everything returns its input. */
  lemma {:induction false} FilterAll<T>(s: seq<T>, p: T -> bool)
    requires forall i :: 0 <= i < |s| ==> p(s[i])
    ensures Filter(s, p) == s
  {
    if |s| > 0 {
      FilterAll(s[1..], p);
      assert s == [s[0]] + s[1..];
    }
  }

  /** Filtering twice with the same predicate changes nothing more. */
  lemma {:induction false} FilterIdempotent<T>(s: seq<T>, p: T -> bool)
    ensures Filter(Filter(s, p), p) == Filter(s, p)
  {
    if |s| > 0 {
      FilterIdempotent(s[1..], p);
      var rest := Filter(s[1..], p);
      if p(s[0]) {
        assert Filter(s, p) == [s[0]] + rest;
        assert ([s[0]] + rest)[1..] == rest;
        assert Filter([s[0]] + rest, p) == [s[0]] + Filter(rest, p);
      } else {
        assert Filter(s, p) == rest;
      }
    }
  }

  /** An element of a flat-map comes from the image of some element. */
  lemma {:induction false} FlatMapMember<T, U>(s: seq<T>, f: T -> seq<U>, y: U)
    ensures y in FlatMap(s, f) <==> exists i :: 0 <= i < |s| && y in f(s[i])
  {
    if |s| > 0 {
      var t := s[1..];
      FlatMapMember(t, f, y);
      assert FlatMap(s, f) == f(s[0]) + FlatMap(t, f);
      if y in FlatMap(t, f) {
        var i :| 0 <= i < |t| && y in f(t[i]);
        assert y in f(s[i + 1]);
      }
      if exists i :: 0 <= i < |s| && y in f(s[i]) {
        var i :| 0 <= i < |s| && y in f(s[i]);
        if i > 0 {
          assert y in f(t[i - 1]);
        }
      }
    }
  }

  /** Flat-mapping distributes over concatenation. */
  lemma {:induction false} FlatMapConcat<T, U>(a: seq<T>, b: seq<T>, f: T -> seq<U>)
    ensures FlatMap(a + b, f) == FlatMap(a, f) + FlatMap(b, f)
  {
    if |a| > 0 {
      FlatMapConcat(a[1..], b, f);
      assert (a + b)[1..] == a[1..] + b;
    } else {
      assert a + b == b;
    }
  }

  /** `find` gives the first element satisfying `p`, and undefined exactly when no element does. */
  lemma {:induction false} FindSpec<T>(s: seq<T>, p: T -> bool)
    ensures Find(s, p).None? <==> forall i :: 0 <= i < |s| ==> !p(s[i])
    ensures Find(s, p).Some? ==>
      exists k :: 0 <= k < |s| && s[k] == Find(s, p).value && p(s[k]) && forall j :: 0 <= j < k ==> !p(s[j])
  {
    if |s| > 0 && !p(s[0]) {
      FindSpec(s[1..], p);
      if Find(s, p).Some? {
        var k :| 0 <= k < |s[1..]| && s[1..][k] == Find(s, p).value && p(s[1..][k]) &&
          forall j :: 0 <= j < k ==> !p(s[1..][j]);
        assert s[k + 1] == s[1..][k];
        forall j | 0 <= j < k + 1 ensures !p(s[j]) {
          if j > 0 { assert s[j] == s[1..][j - 1]; }
        }
      } else {
        forall i | 0 <= i < |s| ensures !p(s[i]) {
          if i > 0 { assert s[i] == s[1..][i - 1]; }
        }
      }
    }
  }
}
