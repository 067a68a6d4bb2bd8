/**
 * `Array.prototype.sort(cmp)` over an ordering `lt` ("`cmp(a, b) < 0`"). The
 * run-time's algorithm is not part of the program; a stable insertion sort
 * stands for it: an element is placed after every element strictly below it
 * and before the rest, so elements the comparator calls equal keep their order.
 */
module Sorting {

  function Insert<T>(lt: (T, T) -> bool, x: T, s: seq<T>): (r: seq<T>)
    ensures multiset(r) == multiset(s) + multiset{x}
    ensures |r| == |s| + 1
  {
    if s == [] then [x]
    else if lt(s[0], x) then
      assert s == [s[0]] + s[1..];
      [s[0]] + Insert(lt, x, s[1..])
    else [x] + s
  }

  function Sort<T>(lt: (T, T) -> bool, s: seq<T>): (r: seq<T>)
    ensures multiset(r) == multiset(s)
    ensures |r| == |s|
  {
    if s == [] then []
    else
      assert s == [s[0]] + s[1..];
      Insert(lt, s[0], Sort(lt, s[1..]))
  }

  ghost predicate Transitive<T(!new)>(lt: (T, T) -> bool) {
    forall a, b, c :: lt(a, b) && lt(b, c) ==> lt(a, c)
  }

  ghost predicate Asymmetric<T(!new)>(lt: (T, T) -> bool) {
    forall a, b :: lt(a, b) ==> !lt(b, a)
  }

  /** Any two different elements of `s` are ordered one way or the other. */
  ghost predicate TotalOn<T>(lt: (T, T) -> bool, s: seq<T>) {
    forall i, j :: 0 <= i < |s| && 0 <= j < |s| && s[i] != s[j] ==> lt(s[i], s[j]) || lt(s[j], s[i])
  }

  /** Every element is strictly below every later one. */
  ghost predicate StrictlySorted<T>(lt: (T, T) -> bool, s: seq<T>) {
    forall i, j :: 0 <= i < j < |s| ==> lt(s[i], s[j])
  }

  lemma InElements<T>(y: T, s: seq<T>) returns (k: nat)
    requires y in multiset(s)
    ensures k < |s| && s[k] == y
  {
    k :| 0 <= k < |s| && s[k] == y;
  }

  lemma {:induction false} InsertStrictlySorted<T(!new)>(lt: (T, T) -> bool, x: T, s: seq<T>)
    requires Transitive(lt) && StrictlySorted(lt, s)
    requires forall i :: 0 <= i < |s| ==> lt(s[i], x) || lt(x, s[i])
    ensures StrictlySorted(lt, Insert(lt, x, s))
    decreases |s|
  {
    if s != [] && lt(s[0], x) {
      InsertStrictlySorted(lt, x, s[1..]);
      var t := Insert(lt, x, s[1..]);
      forall j | 0 <= j < |t| ensures lt(s[0], t[j]) {
        assert t[j] in multiset(t);
        if t[j] != x {
          var k := InElements(t[j], s[1..]);
          assert s[k + 1] == t[j];
        }
      }
      var r := [s[0]] + t;
      forall i, j | 0 <= i < j < |r| ensures lt(r[i], r[j]) {
        if i == 0 { assert r[j] == t[j - 1]; } else { assert r[i] == t[i - 1] && r[j] == t[j - 1]; }
      }
    }
  }

  /** Under a transitive order that is total on the input, the output is strictly sorted. */
  lemma {:induction false} SortStrictlySorted<T(!new)>(lt: (T, T) -> bool, s: seq<T>)
    requires Transitive(lt) && TotalOn(lt, s)
    requires forall i, j :: 0 <= i < j < |s| ==> s[i] != s[j]
    ensures StrictlySorted(lt, Sort(lt, s))
    decreases |s|
  {
    if s != [] {
      var tail := s[1..];
      assert TotalOn(lt, tail) by {
        forall i, j | 0 <= i < |tail| && 0 <= j < |tail| && tail[i] != tail[j]
          ensures lt(tail[i], tail[j]) || lt(tail[j], tail[i])
        {
          assert tail[i] == s[i + 1] && tail[j] == s[j + 1];
        }
      }
      assert forall i, j :: 0 <= i < j < |tail| ==> tail[i] != tail[j] by {
        forall i, j | 0 <= i < j < |tail| ensures tail[i] != tail[j] {
          assert tail[i] == s[i + 1] && tail[j] == s[j + 1];
        }
      }
      SortStrictlySorted(lt, tail);
      var t := Sort(lt, tail);
      forall i | 0 <= i < |t| ensures lt(t[i], s[0]) || lt(s[0], t[i]) {
        var k := InElements(t[i], tail);
        assert s[k + 1] == t[i];
      }
      InsertStrictlySorted(lt, s[0], t);
    }
  }

  lemma StrictlySortedTail<T>(lt: (T, T) -> bool, s: seq<T>)
    requires s != [] && StrictlySorted(lt, s)
    ensures StrictlySorted(lt, s[1..])
  {
    forall i, j | 0 <= i < j < |s[1..]| ensures lt(s[1..][i], s[1..][j]) {
      assert s[1..][i] == s[i + 1] && s[1..][j] == s[j + 1];
    }
  }

  lemma TailMultiset<T>(p: seq<T>)
    requires p != []
    ensures multiset(p[1..]) == multiset(p) - multiset{p[0]}
  {
    assert p == [p[0]] + p[1..];
  }

  /** Two strictly sorted arrangements of the same elements start with the same element. */
  lemma SortedHeadsEqual<T(!new)>(lt: (T, T) -> bool, p: seq<T>, q: seq<T>)
    requires Asymmetric(lt)
    requires StrictlySorted(lt, p) && StrictlySorted(lt, q)
    requires p != [] && multiset(p) == multiset(q)
    ensures q != [] && p[0] == q[0]
  {
    assert p[0] in multiset(q);
    var j := InElements(p[0], q);
    assert q[0] in multiset(p);
    var i := InElements(q[0], p);
  }

  /** Two strictly sorted arrangements of the same elements are the same sequence. */
  lemma {:induction false} StrictlySortedUnique<T(!new)>(lt: (T, T) -> bool, p: seq<T>, q: seq<T>)
    requires Asymmetric(lt)
    requires StrictlySorted(lt, p) && StrictlySorted(lt, q)
    requires multiset(p) == multiset(q)
    ensures p == q
    decreases |p|
  {
    if p == [] {
      assert |q| == 0 by { assert |multiset(p)| == |multiset(q)|; }
    } else {
      SortedHeadsEqual(lt, p, q);
      TailMultiset(p);
      TailMultiset(q);
      StrictlySortedTail(lt, p);
      StrictlySortedTail(lt, q);
      StrictlySortedUnique(lt, p[1..], q[1..]);
      assert p == [p[0]] + p[1..] && q == [q[0]] + q[1..];
    }
  }
}
