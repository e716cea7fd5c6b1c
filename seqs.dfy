/** Sequence vocabulary shared by the filters and the sort: selection of the
    elements that belong to a set (the meaning of every `Array.prototype.filter`
    in the model), order-preserving subsequences and reversal. */
module Seqs {

  /** The elements of `s` that belong to `keep`, in their original order and
      with their original multiplicities. */
  ghost function Select<T(!new)>(s: seq<T>, keep: iset<T>): (r: seq<T>)
    ensures |r| <= |s|
  {
    if s == [] then []
    else (if s[0] in keep then [s[0]] else []) + Select(s[1..], keep)
  }

  /** Selection keeps exactly the members that belong to `keep`, each as
      often as it occurs in `s`. */
  lemma {:induction false} SelectMultiset<T(!new)>(s: seq<T>, keep: iset<T>)
    ensures forall x :: multiset(Select(s, keep))[x] == if x in keep then multiset(s)[x] else 0
    ensures forall x :: x in Select(s, keep) <==> x in s && x in keep
  {
    if s != [] {
      SelectMultiset(s[1..], keep);
      assert s == [s[0]] + s[1..];
      forall x ensures x in Select(s, keep) <==> x in s && x in keep {
        assert x in Select(s, keep) <==> x in multiset(Select(s, keep));
        assert x in s <==> x in multiset(s);
      }
    }
  }

  /** `r` can be obtained from `s` by deleting elements, keeping the order. */
  ghost predicate IsSubsequence<T(!new)>(r: seq<T>, s: seq<T>)
    decreases |s|
  {
    r == [] || (s != [] && ((r[0] == s[0] && IsSubsequence(r[1..], s[1..])) || IsSubsequence(r, s[1..])))
  }

  /** `s` read back to front. */
  function Reverse<T>(s: seq<T>): (r: seq<T>)
    ensures |r| == |s|
    ensures forall i :: 0 <= i < |s| ==> r[i] == s[|s| - 1 - i]
    ensures multiset(r) == multiset(s)
  {
    if s == [] then []
    else
      assert s == [s[0]] + s[1..];
      Reverse(s[1..]) + [s[0]]
  }

  lemma SelectCons<T(!new)>(x: T, s: seq<T>, keep: iset<T>)
    ensures Select([x] + s, keep) == (if x in keep then [x] else []) + Select(s, keep)
  {
    assert ([x] + s)[1..] == s;
  }

  lemma {:induction false} SelectIsSubsequence<T(!new)>(s: seq<T>, keep: iset<T>)
    ensures IsSubsequence(Select(s, keep), s)
  {
    if s != [] {
      SelectIsSubsequence(s[1..], keep);
      var r := Select(s, keep);
      if s[0] in keep {
        assert r[0] == s[0] && r[1..] == Select(s[1..], keep);
      } else {
        assert r == Select(s[1..], keep);
      }
    }
  }

  /** Selection only looks at the members of `s`. */
  lemma {:induction false} SelectAgree<T(!new)>(s: seq<T>, a: iset<T>, b: iset<T>)
    requires forall x :: x in s ==> (x in a <==> x in b)
    ensures Select(s, a) == Select(s, b)
  {
    if s != [] {
      SelectAgree(s[1..], a, b);
    }
  }

  /** Selecting a set that holds every member changes nothing. */
  lemma {:induction false} SelectEverything<T(!new)>(s: seq<T>, keep: iset<T>)
    requires forall x :: x in s ==> x in keep
    ensures Select(s, keep) == s
  {
    if s != [] {
      SelectEverything(s[1..], keep);
      assert s == [s[0]] + s[1..];
    }
  }

  /** Two selections in a row are one selection by the intersection. */
  lemma {:induction false} SelectSelect<T(!new)>(s: seq<T>, a: iset<T>, b: iset<T>)
    ensures Select(Select(s, a), b) == Select(s, a * b)
  {
    if s != [] {
      SelectSelect(s[1..], a, b);
      var t := Select(s[1..], a);
      if s[0] in a {
        assert Select(s, a) == [s[0]] + t;
        assert ([s[0]] + t)[1..] == t;
      } else {
        assert Select(s, a) == t;
      }
    }
  }

  lemma SelectIdempotent<T(!new)>(s: seq<T>, a: iset<T>)
    ensures Select(Select(s, a), a) == Select(s, a)
  {
    SelectSelect(s, a, a);
    assert a * a == a;
  }

  lemma SelectCommutes<T(!new)>(s: seq<T>, a: iset<T>, b: iset<T>)
    ensures Select(Select(s, a), b) == Select(Select(s, b), a)
  {
    SelectSelect(s, a, b);
    SelectSelect(s, b, a);
    assert a * b == b * a;
  }
}
