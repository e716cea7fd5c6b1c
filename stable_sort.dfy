/** A stable sort driven by a JavaScript-style comparator (negative: first
    argument goes first, zero: tie, positive: second goes first), and what it
    guarantees when the comparator is lawful on a universe `u` that holds the
    rows being sorted. */
module StableSort {
  import opened Seqs

  /** On the members of `u` the sign of `cmp` is antisymmetric and "not
      after" is transitive: a total preorder. */
  ghost predicate Lawful<T(!new)>(cmp: (T, T) -> int, u: iset<T>) {
    Antisymmetric(cmp, u) && Transitive(cmp, u)
  }

  ghost predicate Antisymmetric<T(!new)>(cmp: (T, T) -> int, u: iset<T>) {
    forall a, b :: a in u && b in u ==> (cmp(a, b) < 0 <==> cmp(b, a) > 0)
  }

  ghost predicate Transitive<T(!new)>(cmp: (T, T) -> int, u: iset<T>) {
    forall a, b, d :: a in u && b in u && d in u && cmp(a, b) <= 0 && cmp(b, d) <= 0 ==> cmp(a, d) <= 0
  }

  /** Every row of `s` belongs to `u`. */
  ghost predicate Within<T(!new)>(s: seq<T>, u: iset<T>) {
    forall i :: 0 <= i < |s| ==> s[i] in u
  }

  /** Every row comes no later than every row after it. */
  ghost predicate Ordered<T(!new)>(cmp: (T, T) -> int, s: seq<T>) {
    forall i, j :: 0 <= i < j < |s| ==> cmp(s[i], s[j]) <= 0
  }

  /** No two rows at different positions compare equal. */
  ghost predicate NoTies<T(!new)>(cmp: (T, T) -> int, s: seq<T>) {
    forall i, j :: 0 <= i < |s| && 0 <= j < |s| && i != j ==> cmp(s[i], s[j]) != 0
  }

  /** The rows that compare equal to `k`. */
  ghost function TiedWith<T(!new)>(cmp: (T, T) -> int, k: T): iset<T> {
    iset p | cmp(p, k) == 0
  }

  /** Puts `x` before the first row it does not come after. */
  function Insert<T>(cmp: (T, T) -> int, x: T, r: seq<T>): (r': seq<T>)
    ensures multiset(r') == multiset(r) + multiset{x}
  {
    if r == [] then [x]
    else if cmp(x, r[0]) <= 0 then [x] + r
    else
      assert r == [r[0]] + r[1..];
      [r[0]] + Insert(cmp, x, r[1..])
  }

  /** Insertion sort from the back: each row is placed in front of the rows
      that follow it in the input unless it comes strictly after them. */
  function Sort<T>(cmp: (T, T) -> int, s: seq<T>): (r: seq<T>)
    ensures multiset(r) == multiset(s)
  {
    if s == [] then []
    else
      assert s == [s[0]] + s[1..];
      Insert(cmp, s[0], Sort(cmp, s[1..]))
  }

  /** Two rows change places only when the first comes strictly after the
      second. */
  lemma SortTwo<T>(cmp: (T, T) -> int, x: T, y: T)
    ensures Sort(cmp, [x, y]) == if cmp(x, y) <= 0 then [x, y] else [y, x]
  {
    assert [x, y][1..] == [y];
    assert [y][1..] == [];
    assert Sort(cmp, [y]) == [y];
    assert [y][1..] == [];
  }

  lemma SameMembers<T>(a: seq<T>, b: seq<T>)
    requires multiset(a) == multiset(b)
    ensures forall x :: x in a <==> x in b
  {
    forall x ensures x in a <==> x in b {
      assert x in a <==> x in multiset(a);
      assert x in b <==> x in multiset(b);
    }
  }

  /** Rows with the same multiset are in the same universe. */
  lemma SameWithin<T(!new)>(a: seq<T>, b: seq<T>, u: iset<T>)
    requires multiset(a) == multiset(b) && Within(a, u)
    ensures Within(b, u)
  {
    forall i | 0 <= i < |b| ensures b[i] in u {
      assert b[i] in multiset(a);
      var k :| 0 <= k < |a| && a[k] == b[i];
    }
  }

  lemma WithinTail<T(!new)>(s: seq<T>, u: iset<T>)
    requires s != [] && Within(s, u)
    ensures Within(s[1..], u)
  {
    forall i | 0 <= i < |s[1..]| ensures s[1..][i] in u {
      assert s[1..][i] == s[i + 1];
    }
  }

  lemma OrderedTail<T(!new)>(cmp: (T, T) -> int, s: seq<T>)
    requires s != [] && Ordered(cmp, s)
    ensures Ordered(cmp, s[1..])
  {
    forall i, j | 0 <= i < j < |s[1..]| ensures cmp(s[1..][i], s[1..][j]) <= 0 {
      assert s[1..][i] == s[i + 1] && s[1..][j] == s[j + 1];
    }
  }

  lemma NoTiesTail<T(!new)>(cmp: (T, T) -> int, s: seq<T>)
    requires s != [] && NoTies(cmp, s)
    ensures NoTies(cmp, s[1..])
  {
    forall i, j | 0 <= i < |s[1..]| && 0 <= j < |s[1..]| && i != j
      ensures cmp(s[1..][i], s[1..][j]) != 0
    {
      assert s[1..][i] == s[i + 1] && s[1..][j] == s[j + 1];
    }
  }

  /** A row that comes no later than `x` and than every row of `r` comes no
      later than any row of `Insert(cmp, x, r)`. */
  lemma InsertBelow<T(!new)>(cmp: (T, T) -> int, h: T, x: T, r: seq<T>)
    requires cmp(h, x) <= 0 && forall i :: 0 <= i < |r| ==> cmp(h, r[i]) <= 0
    ensures forall j :: 0 <= j < |Insert(cmp, x, r)| ==> cmp(h, Insert(cmp, x, r)[j]) <= 0
  {
    var t := Insert(cmp, x, r);
    forall j | 0 <= j < |t| ensures cmp(h, t[j]) <= 0 {
      assert t[j] in multiset(r) + multiset{x};
      if t[j] != x {
        assert t[j] in multiset(r);
        var k :| 0 <= k < |r| && r[k] == t[j];
      }
    }
  }

  /** A head that comes no later than any row of an ordered tail makes an
      ordered sequence. */
  lemma ConsOrdered<T(!new)>(cmp: (T, T) -> int, h: T, t: seq<T>)
    requires Ordered(cmp, t) && forall j :: 0 <= j < |t| ==> cmp(h, t[j]) <= 0
    ensures Ordered(cmp, [h] + t)
  {
    var v := [h] + t;
    forall i, j | 0 <= i < j < |v| ensures cmp(v[i], v[j]) <= 0 {
      if i == 0 {
        assert v[j] == t[j - 1];
      } else {
        assert v[i] == t[i - 1] && v[j] == t[j - 1];
      }
    }
  }

  /** A row no later than the head of an ordered sequence is no later than
      any of its rows. */
  lemma BelowHead<T(!new)>(cmp: (T, T) -> int, x: T, r: seq<T>, u: iset<T>)
    requires Transitive(cmp, u) && x in u && Within(r, u) && Ordered(cmp, r)
    requires r != [] && cmp(x, r[0]) <= 0
    ensures forall j :: 0 <= j < |r| ==> cmp(x, r[j]) <= 0
  {
    forall j | 0 < j < |r| ensures cmp(x, r[j]) <= 0 {
      assert r[0] in u && r[j] in u && cmp(r[0], r[j]) <= 0;
    }
  }

  /** Inserting into an ordered sequence keeps it ordered. */
  lemma {:induction false} InsertOrdered<T(!new)>(cmp: (T, T) -> int, x: T, r: seq<T>, u: iset<T>)
    requires Lawful(cmp, u) && x in u && Within(r, u) && Ordered(cmp, r)
    ensures Ordered(cmp, Insert(cmp, x, r))
  {
    if r == [] {
    } else if cmp(x, r[0]) <= 0 {
      BelowHead(cmp, x, r, u);
      ConsOrdered(cmp, x, r);
    } else {
      var r' := r[1..];
      WithinTail(r, u);
      OrderedTail(cmp, r);
      InsertOrdered(cmp, x, r', u);
      assert r[0] in u && cmp(r[0], x) < 0;
      assert forall i :: 0 <= i < |r'| ==> cmp(r[0], r'[i]) <= 0 by {
        forall i | 0 <= i < |r'| ensures cmp(r[0], r'[i]) <= 0 {
          assert r'[i] == r[i + 1];
        }
      }
      InsertBelow(cmp, r[0], x, r');
      ConsOrdered(cmp, r[0], Insert(cmp, x, r'));
    }
  }

  /** The sort's output is ordered. */
  lemma {:induction false} SortOrdered<T(!new)>(cmp: (T, T) -> int, s: seq<T>, u: iset<T>)
    requires Lawful(cmp, u) && Within(s, u)
    ensures Ordered(cmp, Sort(cmp, s))
  {
    if s != [] {
      WithinTail(s, u);
      SortOrdered(cmp, s[1..], u);
      var t := Sort(cmp, s[1..]);
      SameWithin(s[1..], t, u);
      InsertOrdered(cmp, s[0], t, u);
    }
  }

  /** A comparator that reports a tie for every pair leaves the order alone. */
  lemma {:induction false} SortAllTiedIsIdentity<T(!new)>(cmp: (T, T) -> int, s: seq<T>)
    requires forall a, b :: a in s && b in s ==> cmp(a, b) == 0
    ensures Sort(cmp, s) == s
  {
    if s != [] {
      SortAllTiedIsIdentity(cmp, s[1..]);
      assert s == [s[0]] + s[1..];
    }
  }

  /** Inserting `x` does not reorder `x` and the rows tied with `k`. */
  lemma {:induction false} InsertKeepsTies<T(!new)>(cmp: (T, T) -> int, x: T, r: seq<T>, k: T, u: iset<T>)
    requires Lawful(cmp, u) && x in u && k in u && Within(r, u)
    ensures Select(Insert(cmp, x, r), TiedWith(cmp, k)) == Select([x] + r, TiedWith(cmp, k))
  {
    if r != [] && cmp(x, r[0]) > 0 {
      var tied := TiedWith(cmp, k);
      var r' := r[1..];
      WithinTail(r, u);
      InsertKeepsTies(cmp, x, r', k, u);
      NotBothTied(cmp, x, r[0], k, u);
      assert [r[0]] + r' == r;
      SelectSwap(r[0], x, Insert(cmp, x, r'), [x] + r', tied);
    }
  }

  /** Rows in strict order are not both tied with the same row. */
  lemma NotBothTied<T(!new)>(cmp: (T, T) -> int, x: T, y: T, k: T, u: iset<T>)
    requires Lawful(cmp, u) && x in u && y in u && k in u && cmp(x, y) > 0
    ensures !(x in TiedWith(cmp, k) && y in TiedWith(cmp, k))
  {
  }

  /** Putting `a` in front of two sequences whose selections agree, or
      swapping `a` with the head `b` when not both are selected, leaves the
      selection unchanged. */
  lemma SelectSwap<T(!new)>(a: T, b: T, t: seq<T>, t': seq<T>, keep: iset<T>)
    requires Select(t, keep) == Select(t', keep) && t' != [] && t'[0] == b
    requires !(a in keep && b in keep)
    ensures Select([a] + t, keep) == Select([b] + ([a] + t'[1..]), keep)
  {
    var rest := t'[1..];
    var sa: seq<T> := if a in keep then [a] else [];
    var sb: seq<T> := if b in keep then [b] else [];
    SelectCons(a, t, keep);
    assert Select([a] + t, keep) == sa + Select(t', keep);
    assert [b] + rest == t';
    SelectCons(b, rest, keep);
    SelectCons(a, rest, keep);
    SelectCons(b, [a] + rest, keep);
    assert Select([b] + ([a] + rest), keep) == sb + (sa + Select(rest, keep));
    assert sa + sb == sb + sa;
  }

  /** Stability: the rows tied with `k` come out in their input order. */
  lemma {:induction false} SortKeepsTies<T(!new)>(cmp: (T, T) -> int, s: seq<T>, k: T, u: iset<T>)
    requires Lawful(cmp, u) && k in u && Within(s, u)
    ensures Select(Sort(cmp, s), TiedWith(cmp, k)) == Select(s, TiedWith(cmp, k))
  {
    if s != [] {
      WithinTail(s, u);
      SortKeepsTies(cmp, s[1..], k, u);
      var t := Sort(cmp, s[1..]);
      SameWithin(s[1..], t, u);
      InsertKeepsTies(cmp, s[0], t, k, u);
      SelectCons(s[0], t, TiedWith(cmp, k));
      SelectCons(s[0], s[1..], TiedWith(cmp, k));
      assert s == [s[0]] + s[1..];
    }
  }

  /** `h` ties with no row of `t`, in either argument order. */
  ghost predicate TiesNone<T(!new)>(cmp: (T, T) -> int, h: T, t: seq<T>) {
    forall j :: 0 <= j < |t| ==> cmp(h, t[j]) != 0 && cmp(t[j], h) != 0
  }

  /** A head that ties with no row of a tie-free tail makes a tie-free
      sequence. */
  lemma ConsNoTies<T(!new)>(cmp: (T, T) -> int, h: T, t: seq<T>)
    requires NoTies(cmp, t) && TiesNone(cmp, h, t)
    ensures NoTies(cmp, [h] + t)
  {
    var v := [h] + t;
    forall i, j | 0 <= i < |v| && 0 <= j < |v| && i != j ensures cmp(v[i], v[j]) != 0 {
      if i > 0 && j > 0 {
        assert v[i] == t[i - 1] && v[j] == t[j - 1];
      } else if i == 0 {
        assert v[j] == t[j - 1];
      } else {
        assert v[i] == t[i - 1];
      }
    }
  }

  /** A row that ties with neither `x` nor any row of `r` ties with no row of
      `Insert(cmp, x, r)`. */
  lemma InsertTiesNone<T(!new)>(cmp: (T, T) -> int, h: T, x: T, r: seq<T>)
    requires cmp(h, x) != 0 && cmp(x, h) != 0 && TiesNone(cmp, h, r)
    ensures TiesNone(cmp, h, Insert(cmp, x, r))
  {
    var t := Insert(cmp, x, r);
    forall j | 0 <= j < |t| ensures cmp(h, t[j]) != 0 && cmp(t[j], h) != 0 {
      assert t[j] in multiset(r) + multiset{x};
      if t[j] != x {
        assert t[j] in multiset(r);
        var k :| 0 <= k < |r| && r[k] == t[j];
      }
    }
  }

  /** Inserting a row that ties with none of a tie-free sequence keeps it
      tie-free. */
  lemma {:induction false} InsertNoTies<T(!new)>(cmp: (T, T) -> int, x: T, r: seq<T>)
    requires NoTies(cmp, r) && TiesNone(cmp, x, r)
    ensures NoTies(cmp, Insert(cmp, x, r))
  {
    if r == [] {
    } else if cmp(x, r[0]) <= 0 {
      ConsNoTies(cmp, x, r);
    } else {
      var r' := r[1..];
      NoTiesTail(cmp, r);
      assert TiesNone(cmp, x, r') by {
        forall i | 0 <= i < |r'| ensures cmp(x, r'[i]) != 0 && cmp(r'[i], x) != 0 {
          assert r'[i] == r[i + 1];
        }
      }
      InsertNoTies(cmp, x, r');
      assert TiesNone(cmp, r[0], r') by {
        forall i | 0 <= i < |r'| ensures cmp(r[0], r'[i]) != 0 && cmp(r'[i], r[0]) != 0 {
          assert r'[i] == r[i + 1];
        }
      }
      assert cmp(r[0], x) != 0 && cmp(x, r[0]) != 0;
      InsertTiesNone(cmp, r[0], x, r');
      ConsNoTies(cmp, r[0], Insert(cmp, x, r'));
    }
  }

  /** Sorting rows without ties yields rows without ties. */
  lemma {:induction false} SortNoTies<T(!new)>(cmp: (T, T) -> int, s: seq<T>)
    requires NoTies(cmp, s)
    ensures NoTies(cmp, Sort(cmp, s))
  {
    if s != [] {
      NoTiesTail(cmp, s);
      SortNoTies(cmp, s[1..]);
      var t := Sort(cmp, s[1..]);
      assert TiesNone(cmp, s[0], t) by {
        forall j | 0 <= j < |t| ensures cmp(s[0], t[j]) != 0 && cmp(t[j], s[0]) != 0 {
          assert t[j] in multiset(s[1..]);
          var k :| 0 <= k < |s[1..]| && s[1..][k] == t[j];
          assert s[k + 1] == t[j];
        }
      }
      InsertNoTies(cmp, s[0], t);
    }
  }

  /** In an ordered sequence without ties the head comes strictly first. */
  lemma HeadFirst<T(!new)>(cmp: (T, T) -> int, s: seq<T>)
    requires s != [] && Ordered(cmp, s) && NoTies(cmp, s)
    ensures forall j :: 0 < j < |s| ==> cmp(s[0], s[j]) < 0
  {
  }

  lemma MultisetTail<T>(s: seq<T>)
    requires s != []
    ensures multiset(s[1..]) == multiset(s) - multiset{s[0]}
  {
    assert s == [s[0]] + s[1..];
  }

  /** Two tie-free ordered arrangements of the same rows start alike. */
  lemma HeadsAgree<T(!new)>(cmp: (T, T) -> int, a: seq<T>, b: seq<T>, u: iset<T>)
    requires Antisymmetric(cmp, u) && Within(a, u) && multiset(a) == multiset(b) && a != []
    requires Ordered(cmp, a) && Ordered(cmp, b) && NoTies(cmp, a) && NoTies(cmp, b)
    ensures b != [] && a[0] == b[0]
  {
    assert a[0] in multiset(b);
    var m :| 0 <= m < |b| && b[m] == a[0];
    assert b[0] in multiset(a);
    var k :| 0 <= k < |a| && a[k] == b[0];
    HeadFirst(cmp, a);
    HeadFirst(cmp, b);
    assert a[0] in u && a[k] in u;
  }

  /** The tails of two tie-free ordered arrangements of the same rows, with
      the same head, are again such arrangements. */
  lemma TailsQualify<T(!new)>(cmp: (T, T) -> int, a: seq<T>, b: seq<T>, u: iset<T>)
    requires a != [] && b != [] && a[0] == b[0] && Within(a, u) && multiset(a) == multiset(b)
    requires Ordered(cmp, a) && Ordered(cmp, b) && NoTies(cmp, a) && NoTies(cmp, b)
    ensures Within(a[1..], u) && multiset(a[1..]) == multiset(b[1..])
    ensures Ordered(cmp, a[1..]) && Ordered(cmp, b[1..]) && NoTies(cmp, a[1..]) && NoTies(cmp, b[1..])
  {
    MultisetTail(a);
    MultisetTail(b);
    OrderedTail(cmp, a);
    OrderedTail(cmp, b);
    NoTiesTail(cmp, a);
    NoTiesTail(cmp, b);
    WithinTail(a, u);
  }

  lemma ConsEqual<T>(a: seq<T>, b: seq<T>)
    requires a != [] && b != [] && a[0] == b[0] && a[1..] == b[1..]
    ensures a == b
  {
    assert a == [a[0]] + a[1..] && b == [b[0]] + b[1..];
  }

  /** Without ties, an ordered arrangement of given rows is unique. */
  lemma {:induction false} OrderedUnique<T(!new)>(cmp: (T, T) -> int, a: seq<T>, b: seq<T>, u: iset<T>)
    requires Antisymmetric(cmp, u) && Within(a, u) && multiset(a) == multiset(b)
    requires Ordered(cmp, a) && Ordered(cmp, b) && NoTies(cmp, a) && NoTies(cmp, b)
    ensures a == b
  {
    if a == [] {
      assert |b| == |multiset(b)| == 0;
    } else {
      HeadsAgree(cmp, a, b, u);
      TailsQualify(cmp, a, b, u);
      OrderedUnique(cmp, a[1..], b[1..], u);
      ConsEqual(a, b);
    }
  }

  /** The negation of a lawful comparator is lawful. */
  lemma NegatedLawful<T(!new)>(cmp: (T, T) -> int, neg: (T, T) -> int, u: iset<T>)
    requires Lawful(cmp, u)
    requires forall a, b :: a in u && b in u ==> neg(a, b) == -cmp(a, b)
    ensures Lawful(neg, u)
  {
    forall a, b, d | a in u && b in u && d in u && neg(a, b) <= 0 && neg(b, d) <= 0
      ensures neg(a, d) <= 0
    {
      assert cmp(d, b) <= 0 && cmp(b, a) <= 0;
    }
  }

  lemma NegatedNoTies<T(!new)>(cmp: (T, T) -> int, neg: (T, T) -> int, s: seq<T>, u: iset<T>)
    requires Within(s, u) && NoTies(cmp, s)
    requires forall a, b :: a in u && b in u ==> neg(a, b) == -cmp(a, b)
    ensures NoTies(neg, s)
  {
    forall i, j | 0 <= i < |s| && 0 <= j < |s| && i != j ensures neg(s[i], s[j]) != 0 {
      assert s[i] in u && s[j] in u;
    }
  }

  /** Two rows of a tie-free ordered sequence, compared by the negated
      comparator in reverse positions. */
  lemma NegatedPair<T(!new)>(cmp: (T, T) -> int, neg: (T, T) -> int, a: seq<T>, u: iset<T>, p: int, q: int)
    requires Antisymmetric(cmp, u) && Within(a, u)
    requires forall x, y :: x in u && y in u ==> neg(x, y) == -cmp(x, y)
    requires Ordered(cmp, a) && NoTies(cmp, a)
    requires 0 <= q < p < |a|
    ensures neg(a[p], a[q]) < 0 && neg(a[q], a[p]) > 0
  {
    assert a[p] in u && a[q] in u;
    assert cmp(a[q], a[p]) < 0;
  }

  /** Read backwards, a tie-free ordered sequence is ordered by the negated
      comparator. */
  lemma ReverseOrderedByNegation<T(!new)>(cmp: (T, T) -> int, neg: (T, T) -> int, a: seq<T>, u: iset<T>)
    requires Antisymmetric(cmp, u) && Within(a, u)
    requires forall x, y :: x in u && y in u ==> neg(x, y) == -cmp(x, y)
    requires Ordered(cmp, a) && NoTies(cmp, a)
    ensures Ordered(neg, Reverse(a)) && NoTies(neg, Reverse(a))
  {
    var ra := Reverse(a);
    var n := |a|;
    forall i, j | 0 <= i < n && 0 <= j < n && i != j
      ensures neg(ra[i], ra[j]) != 0
      ensures i < j ==> neg(ra[i], ra[j]) < 0
    {
      if i < j {
        NegatedPair(cmp, neg, a, u, n - 1 - i, n - 1 - j);
      } else {
        NegatedPair(cmp, neg, a, u, n - 1 - j, n - 1 - i);
      }
    }
  }

  /** Sorting with the negated comparator yields the reverse of sorting with
      the comparator, provided no two rows tie. */
  lemma NegatedSortIsReversed<T(!new)>(cmp: (T, T) -> int, neg: (T, T) -> int, s: seq<T>, u: iset<T>)
    requires Lawful(cmp, u) && Within(s, u) && NoTies(cmp, s)
    requires forall a, b :: a in u && b in u ==> neg(a, b) == -cmp(a, b)
    ensures Sort(neg, s) == Reverse(Sort(cmp, s))
  {
    NegatedLawful(cmp, neg, u);
    var a := Sort(cmp, s);
    var d := Sort(neg, s);
    SortOrdered(cmp, s, u);
    SortNoTies(cmp, s);
    SortOrdered(neg, s, u);
    NegatedNoTies(cmp, neg, s, u);
    SortNoTies(neg, s);
    SameWithin(s, d, u);
    SameWithin(s, a, u);
    ReverseOrderedByNegation(cmp, neg, a, u);
    OrderedUnique(neg, d, Reverse(a), u);
  }
}
