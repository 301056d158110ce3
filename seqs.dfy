/** Sequence operations the source gets from JavaScript arrays. */
module Seqs {

  /** `Array.prototype.filter`: the elements satisfying `p`, in their order. */
  function Filter<T>(s: seq<T>, p: T -> bool): (r: seq<T>)
    ensures |r| <= |s|
    decreases |s|
  {
    if s == [] then []
    else if p(s[0]) then [s[0]] + Filter(s[1..], p)
    else Filter(s[1..], p)
  }

  /** What `Filter` keeps: only elements of the input that satisfy `p`, and
      every element of the input that satisfies `p`. */
  lemma {:induction false} FilterMembers<T>(s: seq<T>, p: T -> bool)
    ensures forall i :: 0 <= i < |Filter(s, p)| ==> Filter(s, p)[i] in s && p(Filter(s, p)[i])
    ensures forall i :: 0 <= i < |s| && p(s[i]) ==> s[i] in Filter(s, p)
    decreases |s|
  {
    if s != [] {
      FilterMembers(s[1..], p);
      var r := Filter(s, p);
      var t := Filter(s[1..], p);
      forall i | 0 <= i < |r| ensures r[i] in s && p(r[i]) {
        if p(s[0]) && i > 0 {
          assert r[i] == t[i - 1];
        }
      }
      forall i | 0 <= i < |s| && p(s[i]) ensures s[i] in r {
        if i > 0 {
          assert s[i] == s[1..][i - 1];
        }
      }
    }
  }

  /** The positions of `s` whose elements `Filter` keeps, in order. */
  function FilterIndices<T>(s: seq<T>, p: T -> bool): (ks: seq<nat>)
    ensures |ks| == |Filter(s, p)|
    decreases |s|
  {
    if s == [] then []
    else if p(s[0]) then [0] + Shift(FilterIndices(s[1..], p))
    else Shift(FilterIndices(s[1..], p))
  }

  /** Every position one further on. */
  function Shift(xs: seq<nat>): (r: seq<nat>)
    ensures |r| == |xs| && forall i :: 0 <= i < |xs| ==> r[i] == xs[i] + 1
  {
    seq(|xs|, i requires 0 <= i < |xs| => xs[i] + 1)
  }

  lemma ShiftedMembers(xs: seq<nat>)
    ensures forall k :: k in Shift(xs) <==> k > 0 && k - 1 in xs
  {
    var r := Shift(xs);
    forall k ensures k in r <==> k > 0 && k - 1 in xs {
      if k > 0 && k - 1 in xs {
        var i :| 0 <= i < |xs| && xs[i] == k - 1;
        assert r[i] == k;
      }
    }
  }

  /** Filtered element `i` is the element of `s` at kept position `i`. */
  lemma {:induction false} FilterIndicesProject<T>(s: seq<T>, p: T -> bool)
    ensures forall i :: 0 <= i < |FilterIndices(s, p)| ==>
      FilterIndices(s, p)[i] < |s| && Filter(s, p)[i] == s[FilterIndices(s, p)[i]]
    decreases |s|
  {
    if s != [] {
      FilterIndicesProject(s[1..], p);
      var ks := FilterIndices(s, p);
      var rest := FilterIndices(s[1..], p);
      var f := Filter(s, p);
      var t := Filter(s[1..], p);
      forall i | 0 <= i < |ks| ensures ks[i] < |s| && f[i] == s[ks[i]] {
        if p(s[0]) {
          if i > 0 {
            assert ks[i] == rest[i - 1] + 1 && f[i] == t[i - 1];
            assert s[1..][rest[i - 1]] == s[rest[i - 1] + 1];
          }
        } else {
          assert ks[i] == rest[i] + 1 && f[i] == t[i];
          assert s[1..][rest[i]] == s[rest[i] + 1];
        }
      }
    }
  }

  /** The kept positions increase strictly, so `Filter` keeps the order. */
  lemma {:induction false} FilterIndicesIncreasing<T>(s: seq<T>, p: T -> bool)
    ensures forall i, j :: 0 <= i < j < |FilterIndices(s, p)| ==> FilterIndices(s, p)[i] < FilterIndices(s, p)[j]
    decreases |s|
  {
    if s != [] {
      FilterIndicesIncreasing(s[1..], p);
      var ks := FilterIndices(s, p);
      var rest := FilterIndices(s[1..], p);
      forall i, j | 0 <= i < j < |ks| ensures ks[i] < ks[j] {
        if p(s[0]) {
          assert ks[j] == rest[j - 1] + 1;
          if i > 0 {
            assert ks[i] == rest[i - 1] + 1;
          }
        } else {
          assert ks[i] == rest[i] + 1 && ks[j] == rest[j] + 1;
        }
      }
    }
  }

  /** A position is kept exactly when its element satisfies `p`. */
  lemma {:induction false} FilterIndicesMembers<T>(s: seq<T>, p: T -> bool)
    ensures forall k :: 0 <= k < |s| ==> (p(s[k]) <==> k in FilterIndices(s, p))
    decreases |s|
  {
    if s != [] {
      FilterIndicesMembers(s[1..], p);
      var rest := FilterIndices(s[1..], p);
      ShiftedMembers(rest);
      forall k | 0 <= k < |s| ensures p(s[k]) <==> k in FilterIndices(s, p) {
        if k > 0 {
          assert s[k] == s[1..][k - 1];
        }
      }
    }
  }

  /** The first filtered element is the first element of the input that
      satisfies `p`. */
  lemma FilterHeadIsFirstMatch<T>(s: seq<T>, p: T -> bool)
    requires Filter(s, p) != []
    ensures exists k :: 0 <= k < |s| && Filter(s, p)[0] == s[k] && p(s[k]) &&
                        forall j :: 0 <= j < k ==> !p(s[j])
  {
    var ks := FilterIndices(s, p);
    FilterIndicesProject(s, p);
    FilterIndicesIncreasing(s, p);
    FilterIndicesMembers(s, p);
    var k := ks[0];
    assert forall m :: 0 <= m < |ks| ==> k <= ks[m];
    forall j | 0 <= j < k ensures !p(s[j]) {
      assert j !in ks;
    }
    assert Filter(s, p)[0] == s[k] && p(s[k]);
  }

  /** One step of `Filter` at position `k`, for computing a filter of a
      known sequence element by element. */
  lemma FilterStep<T>(s: seq<T>, k: nat, p: T -> bool)
    requires k < |s|
    ensures Filter(s[k..], p) == (if p(s[k]) then [s[k]] else []) + Filter(s[k + 1..], p)
  {
    assert s[k..][0] == s[k];
    assert s[k..][1..] == s[k + 1..];
  }

  /** An input none of whose elements satisfies `p` filters to nothing. */
  lemma FilterNone<T>(s: seq<T>, p: T -> bool)
    requires forall i :: 0 <= i < |s| ==> !p(s[i])
    ensures Filter(s, p) == []
  {
    FilterMembers(s, p);
  }

  /** A single input element satisfying `p` makes the filter non-empty. */
  lemma FilterWitness<T>(s: seq<T>, p: T -> bool, k: nat)
    requires k < |s| && p(s[k])
    ensures |Filter(s, p)| > 0
  {
    FilterMembers(s, p);
  }

  /** The sequence without its element at index `i`. */
  function RemoveAt<T>(s: seq<T>, i: nat): (r: seq<T>)
    requires i < |s|
    ensures |r| == |s| - 1
    ensures multiset(r) + multiset{s[i]} == multiset(s)
  {
    assert s == s[..i] + [s[i]] + s[i+1..];
    s[..i] + s[i+1..]
  }

  /** The number of elements of `s` that satisfy `p`. */
  function Count<T>(s: seq<T>, p: T -> bool): nat
    decreases |s|
  {
    if s == [] then 0 else (if p(s[0]) then 1 else 0) + Count(s[1..], p)
  }

  lemma {:induction false} CountAppend<T>(s: seq<T>, x: T, p: T -> bool)
    ensures Count(s + [x], p) == Count(s, p) + (if p(x) then 1 else 0)
    decreases |s|
  {
    if s == [] {
      assert s + [x] == [x];
      assert [x][1..] == [];
    } else {
      assert (s + [x])[1..] == s[1..] + [x];
      CountAppend(s[1..], x, p);
    }
  }

  /** Removing one element lowers the count by one exactly when that element
      satisfies `p`. */
  lemma {:induction false} CountRemoveAt<T>(s: seq<T>, i: nat, p: T -> bool)
    requires i < |s|
    ensures Count(RemoveAt(s, i), p) == Count(s, p) - (if p(s[i]) then 1 else 0)
    decreases |s|
  {
    if i == 0 {
      assert RemoveAt(s, 0) == s[1..];
    } else {
      assert RemoveAt(s, i) == [s[0]] + RemoveAt(s[1..], i - 1);
      assert ([s[0]] + RemoveAt(s[1..], i - 1))[1..] == RemoveAt(s[1..], i - 1);
      CountRemoveAt(s[1..], i - 1, p);
    }
  }
}
