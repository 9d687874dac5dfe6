/** Generic sequence helpers shared by the pages: `Array.prototype.filter`,
    order-preserving subsequences, `reduce`-style sums, and the by-id lookup and
    merge-update the document store performs. */
module Seqs {

  datatype Option<T> = None | Some(value: T) {
    function GetOr(default: T): T {
      match this
      case Some(v) => v
      case None => default
    }
  }

  function Last<T>(s: seq<T>): T
    requires s != []
  {
    s[|s| - 1]
  }

  function DropLast<T>(s: seq<T>): seq<T>
    requires s != []
  {
    s[..|s| - 1]
  }

  /** `s.filter(p)`: the elements of `s` that satisfy `p`, in their original order. */
  function Filter<T>(p: T -> bool, s: seq<T>): seq<T>
  {
    if s == [] then []
    else Filter(p, DropLast(s)) + (if p(Last(s)) then [Last(s)] else [])
  }

  /** `r` can be obtained from `s` by deleting elements (order is kept). */
  predicate IsSubseq<T(==)>(r: seq<T>, s: seq<T>)
  {
    if r == [] then true
    else if s == [] then false
    else if Last(r) == Last(s) then IsSubseq(DropLast(r), DropLast(s))
    else IsSubseq(r, DropLast(s))
  }

  /** `s.reduce((sum, x) => sum + f(x), 0)`. */
  function Sum<T>(f: T -> int, s: seq<T>): int
  {
    if s == [] then 0 else Sum(f, DropLast(s)) + f(Last(s))
  }

  /** The merge-update of a store: every element satisfying `p` is replaced by `f` of it. */
  function UpdateWhere<T>(s: seq<T>, p: T -> bool, f: T -> T): (r: seq<T>)
    ensures |r| == |s|
    ensures forall i :: 0 <= i < |s| ==> r[i] == if p(s[i]) then f(s[i]) else s[i]
  {
    seq(|s|, i requires 0 <= i < |s| => if p(s[i]) then f(s[i]) else s[i])
  }

  /** Index of the first element satisfying `p`, if any. */
  function Find<T>(s: seq<T>, p: T -> bool): (r: Option<nat>)
    ensures r.Some? ==> r.value < |s| && p(s[r.value]) && forall j :: 0 <= j < r.value ==> !p(s[j])
    ensures r.None? ==> forall j :: 0 <= j < |s| ==> !p(s[j])
  {
    if s == [] then None
    else if p(s[0]) then Some(0)
    else match Find(s[1..], p)
      case None => None
      case Some(k) => Some(k + 1)
  }

  lemma {:induction false} FilterAppend<T>(p: T -> bool, s: seq<T>, t: seq<T>)
    ensures Filter(p, s + t) == Filter(p, s) + Filter(p, t)
    decreases |t|
  {
    if t == [] {
      assert s + t == s;
    } else {
      assert DropLast(s + t) == s + DropLast(t);
      assert Last(s + t) == Last(t);
      FilterAppend(p, s, DropLast(t));
    }
  }

  /** Every element kept by `Filter` satisfies the predicate. */
  lemma {:induction false} FilterSatisfies<T>(p: T -> bool, s: seq<T>)
    ensures forall i :: 0 <= i < |Filter(p, s)| ==> p(Filter(p, s)[i])
    decreases |s|
  {
    if s != [] {
      FilterSatisfies(p, DropLast(s));
    }
  }

  /** `Filter` keeps each value exactly as often as `s` holds it when the value
      satisfies `p`, and drops it otherwise. */
  lemma {:induction false} FilterCount<T>(p: T -> bool, s: seq<T>, x: T)
    ensures multiset(Filter(p, s))[x] == if p(x) then multiset(s)[x] else 0
    decreases |s|
  {
    if s != [] {
      FilterCount(p, DropLast(s), x);
      assert s == DropLast(s) + [Last(s)];
    }
  }

  lemma {:induction false} FilterMembership<T>(p: T -> bool, s: seq<T>, x: T)
    ensures x in Filter(p, s) <==> x in s && p(x)
  {
    FilterCount(p, s, x);
    assert x in Filter(p, s) <==> multiset(Filter(p, s))[x] > 0;
    assert x in s <==> multiset(s)[x] > 0;
  }

  /** Filtering keeps the elements in their original order. */
  lemma {:induction false} FilterIsSubseq<T>(p: T -> bool, s: seq<T>)
    ensures IsSubseq(Filter(p, s), s)
    decreases |s|
  {
    if s != [] {
      var r := Filter(p, DropLast(s));
      FilterIsSubseq(p, DropLast(s));
      if p(Last(s)) {
        assert Filter(p, s) == r + [Last(s)];
        assert DropLast(r + [Last(s)]) == r;
      } else {
        assert Filter(p, s) == r;
        if r != [] {
          FilterSatisfies(p, DropLast(s));
          assert p(Last(r));
        }
      }
    }
  }

  /** Filtering with a predicate that holds nowhere leaves nothing. */
  lemma {:induction false} FilterNone<T>(p: T -> bool, s: seq<T>)
    requires forall i :: 0 <= i < |s| ==> !p(s[i])
    ensures Filter(p, s) == []
    decreases |s|
  {
    if s != [] {
      assert !p(s[|s| - 1]);
      FilterNone(p, DropLast(s));
    }
  }

  lemma {:induction false} SubseqRefl<T>(s: seq<T>)
    ensures IsSubseq(s, s)
    decreases |s|
  {
    if s != [] {
      SubseqRefl(DropLast(s));
    }
  }

  lemma {:induction false} SumAppend<T>(f: T -> int, s: seq<T>, t: seq<T>)
    ensures Sum(f, s + t) == Sum(f, s) + Sum(f, t)
    decreases |t|
  {
    if t == [] {
      assert s + t == s;
    } else {
      assert DropLast(s + t) == s + DropLast(t);
      assert Last(s + t) == Last(t);
      SumAppend(f, s, DropLast(t));
    }
  }

  /** Summing `g` over the elements that pass `p` is summing, over all elements,
      `g` where `p` holds and 0 elsewhere. */
  lemma {:induction false} SumFilter<T>(p: T -> bool, g: T -> int, h: T -> int, s: seq<T>)
    requires forall x :: h(x) == if p(x) then g(x) else 0
    ensures Sum(g, Filter(p, s)) == Sum(h, s)
    decreases |s|
  {
    if s != [] {
      SumFilter(p, g, h, DropLast(s));
      var x := Last(s);
      SumAppend(g, Filter(p, DropLast(s)), if p(x) then [x] else []);
      if p(x) {
        assert DropLast([x]) == [];
      }
    }
  }

  /** Changing one element of `s` changes the sum by the difference of that element's terms. */
  lemma {:induction false} SumChangeOne<T>(f: T -> int, s: seq<T>, t: seq<T>, k: nat)
    requires |s| == |t| && k < |s|
    requires forall i :: 0 <= i < |s| && i != k ==> s[i] == t[i]
    ensures Sum(f, t) == Sum(f, s) - f(s[k]) + f(t[k])
    decreases |s|
  {
    if k == |s| - 1 {
      assert DropLast(s) == DropLast(t);
    } else {
      SumChangeOne(f, DropLast(s), DropLast(t), k);
    }
  }

  /** Two complementary filters split a sequence: their lengths add up to its length. */
  lemma {:induction false} FilterPartition<T>(p: T -> bool, q: T -> bool, s: seq<T>)
    requires forall x :: q(x) == !p(x)
    ensures |Filter(p, s)| + |Filter(q, s)| == |s|
    decreases |s|
  {
    if s != [] {
      FilterPartition(p, q, DropLast(s));
    }
  }

  /** Two sequences holding the same elements have the same sum, whatever their order. */
  lemma {:induction false} SumPermutation<T>(f: T -> int, a: seq<T>, b: seq<T>)
    requires multiset(a) == multiset(b)
    ensures Sum(f, a) == Sum(f, b)
    decreases |a|
  {
    if a != [] {
      var x := Last(a);
      assert a == DropLast(a) + [x];
      assert x in multiset(b);
      var k :| 0 <= k < |b| && b[k] == x;
      var rest := b[..k] + b[k + 1..];
      assert b == b[..k] + [x] + b[k + 1..];
      assert multiset(b) == multiset(b[..k]) + multiset([x]) + multiset(b[k + 1..]);
      assert multiset(rest) == multiset(b[..k]) + multiset(b[k + 1..]);
      assert multiset(a) == multiset(DropLast(a)) + multiset([x]);
      assert multiset(DropLast(a)) == multiset(a) - multiset([x]);
      assert multiset(rest) == multiset(b) - multiset([x]);
      SumPermutation(f, DropLast(a), rest);
      SumAppend(f, b[..k] + [x], b[k + 1..]);
      SumAppend(f, b[..k], [x]);
      SumAppend(f, b[..k], b[k + 1..]);
      assert DropLast([x]) == [];
    } else {
      assert |b| == |multiset(b)| == 0;
    }
  }

  /** The number of elements kept by `Filter` is the sum of their indicators. */
  lemma {:induction false} FilterLengthIsSum<T>(p: T -> bool, one: T -> int, s: seq<T>)
    requires forall x :: one(x) == if p(x) then 1 else 0
    ensures |Filter(p, s)| == Sum(one, s)
    decreases |s|
  {
    if s != [] {
      FilterLengthIsSum(p, one, DropLast(s));
    }
  }

  /** How many elements pass a filter does not depend on their order. */
  lemma FilterLengthPermutation<T>(p: T -> bool, a: seq<T>, b: seq<T>)
    requires multiset(a) == multiset(b)
    ensures |Filter(p, a)| == |Filter(p, b)|
  {
    var one := (x: T) => if p(x) then 1 else 0;
    FilterLengthIsSum(p, one, a);
    FilterLengthIsSum(p, one, b);
    SumPermutation(one, a, b);
  }

  /** `Find` after an update that keeps the search predicate still finds the same index. */
  lemma FindAfterUpdate<T>(s: seq<T>, p: T -> bool, f: T -> T)
    requires forall x :: p(f(x)) == p(x)
    ensures Find(UpdateWhere(s, p, f), p) == Find(s, p)
  {
    var t := UpdateWhere(s, p, f);
    match Find(s, p)
    case None =>
      assert forall j :: 0 <= j < |t| ==> !p(t[j]);
    case Some(k) =>
      assert p(t[k]);
      assert forall j :: 0 <= j < k ==> !p(t[j]);
      match Find(t, p)
      case None =>
      case Some(k') =>
        assert k' == k;
  }

  /** An update that never changes whether `p` holds keeps the number of elements passing `p`. */
  lemma {:induction false} FilterLengthUnderUpdate<T>(p: T -> bool, s: seq<T>, q: T -> bool, f: T -> T)
    requires forall x :: p(f(x)) == p(x)
    ensures |Filter(p, UpdateWhere(s, q, f))| == |Filter(p, s)|
    decreases |s|
  {
    if s != [] {
      var t := UpdateWhere(s, q, f);
      assert DropLast(t) == UpdateWhere(DropLast(s), q, f);
      FilterLengthUnderUpdate(p, DropLast(s), q, f);
      assert p(Last(t)) == p(Last(s));
    }
  }
}
