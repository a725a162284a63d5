/** The value that may be absent: a missing map entry, a null column, an undefined field. */
module Options {
  datatype Option<+T> = None | Some(value: T)
}

/**
 * What the planners use of JavaScript's arrays and insertion-ordered maps: filtering, grouping
 * under a key, and the stable `Array.prototype.sort`.
 */
module Sequences {

  ghost predicate Distinct<T(!new)>(s: seq<T>) {
    forall i, j :: 0 <= i < j < |s| ==> s[i] != s[j]
  }

  /** The elements of `s` that fall under key `k`, in their order in `s`. */
  function Having<T(!new), K(==,!new)>(s: seq<T>, key: T -> K, k: K): (r: seq<T>)
    ensures |r| <= |s|
  {
    if s == [] then []
    else
      var rest := Having(s[..|s| - 1], key, k);
      if key(s[|s| - 1]) == k then rest + [s[|s| - 1]] else rest
  }

  /** The keys occurring in `s`, each once, in order of first appearance. */
  function KeysOf<T(!new), K(==,!new)>(s: seq<T>, key: T -> K): (r: seq<K>)
    ensures |r| <= |s|
  {
    if s == [] then []
    else
      var rest := KeysOf(s[..|s| - 1], key);
      var k := key(s[|s| - 1]);
      if k in rest then rest else rest + [k]
  }

  lemma {:induction false} HavingMember<T(!new), K(!new)>(s: seq<T>, key: T -> K, k: K)
    ensures forall x :: x in Having(s, key, k) <==> x in s && key(x) == k
  {
    if s != [] {
      HavingMember(s[..|s| - 1], key, k);
      assert s == s[..|s| - 1] + [s[|s| - 1]];
    }
  }

  lemma {:induction false} KeysOfMember<T(!new), K(!new)>(s: seq<T>, key: T -> K)
    ensures Distinct(KeysOf(s, key))
    ensures forall k :: k in KeysOf(s, key) ==> exists x :: x in s && key(x) == k
    ensures forall x :: x in s ==> key(x) in KeysOf(s, key)
  {
    if s != [] {
      var init, last := s[..|s| - 1], s[|s| - 1];
      KeysOfMember(init, key);
      assert s == init + [last];
      forall k | k in KeysOf(s, key) ensures exists x :: x in s && key(x) == k {
        if k == key(last) {
          assert last in s;
        } else {
          assert k in KeysOf(init, key);
          var x :| x in init && key(x) == k;
          assert x in s;
        }
      }
    }
  }

  lemma {:induction false} HavingMultiset<T(!new), K(!new)>(s: seq<T>, key: T -> K, k: K, x: T)
    ensures multiset(Having(s, key, k))[x] == if key(x) == k then multiset(s)[x] else 0
  {
    if s != [] {
      HavingMultiset(s[..|s| - 1], key, k, x);
      assert s == s[..|s| - 1] + [s[|s| - 1]];
    }
  }

  /** Grouping keeps every element: permuting the input only permutes each group. */
  lemma {:induction false} HavingPermuted<T(!new), K(!new)>(s: seq<T>, t: seq<T>, key: T -> K, k: K)
    requires multiset(s) == multiset(t)
    ensures multiset(Having(s, key, k)) == multiset(Having(t, key, k))
  {
    var a, b := multiset(Having(s, key, k)), multiset(Having(t, key, k));
    forall x | x in a || x in b ensures a[x] == b[x] {
      HavingMultiset(s, key, k, x);
      HavingMultiset(t, key, k, x);
    }
  }

  /** A list holding more than one element under a key holds two at different places. */
  lemma {:induction false} HavingTwo<T(!new), K(!new)>(s: seq<T>, key: T -> K, k: K)
    ensures |Having(s, key, k)| > 1 <==> TwoHave(s, key, k)
  {
    if s != [] {
      var n := |s| - 1;
      HavingTwo(s[..n], key, k);
      HavingOne(s[..n], key, k);
      TwoHaveSnoc(s, key, k);
    }
  }

  ghost predicate TwoHave<T(!new), K(!new)>(s: seq<T>, key: T -> K, k: K) {
    exists i, j :: 0 <= i < j < |s| && key(s[i]) == k && key(s[j]) == k
  }

  lemma {:induction false} HavingOne<T(!new), K(!new)>(s: seq<T>, key: T -> K, k: K)
    ensures |Having(s, key, k)| > 0 <==> exists i :: 0 <= i < |s| && key(s[i]) == k
  {
    HavingMember(s, key, k);
    if |Having(s, key, k)| > 0 {
      var x := Having(s, key, k)[0];
      assert x in Having(s, key, k);
      var i :| 0 <= i < |s| && s[i] == x;
    }
    if i :| 0 <= i < |s| && key(s[i]) == k {
      assert s[i] in Having(s, key, k);
    }
  }

  lemma {:induction false} TwoHaveSnoc<T(!new), K(!new)>(s: seq<T>, key: T -> K, k: K)
    requires s != []
    ensures var n := |s| - 1;
            TwoHave(s, key, k) <==>
            TwoHave(s[..n], key, k) || (key(s[n]) == k && exists i :: 0 <= i < n && key(s[..n][i]) == k)
  {
    var n := |s| - 1;
    var init := s[..n];
    if TwoHave(s, key, k) {
      var i, j :| 0 <= i < j < |s| && key(s[i]) == k && key(s[j]) == k;
      assert init[i] == s[i];
      assert j < n ==> init[j] == s[j];
    }
    if TwoHave(init, key, k) {
      var i, j :| 0 <= i < j < |init| && key(init[i]) == k && key(init[j]) == k;
      assert s[i] == init[i] && s[j] == init[j];
    }
    if i :| 0 <= i < n && key(init[i]) == k {
      assert s[i] == init[i];
    }
  }

  /**
   * `groupBy`: one pass that fills an insertion-ordered map. `order` is the map's iteration order.
   */
  method GroupBy<T(!new), K(==,!new)>(rows: seq<T>, key: T -> K) returns (order: seq<K>, groups: map<K, seq<T>>)
    ensures order == KeysOf(rows, key)
    ensures groups.Keys == set k | k in order
    ensures forall k :: k in order ==> groups[k] == Having(rows, key, k) && groups[k] != []
  {
    order, groups := [], map[];
    for i := 0 to |rows|
      invariant order == KeysOf(rows[..i], key)
      invariant groups.Keys == set k | k in order
      invariant forall k :: k !in order ==> Having(rows[..i], key, k) == []
      invariant forall k :: k in order ==> groups[k] == Having(rows[..i], key, k) && groups[k] != []
    {
      var row := rows[i];
      var k := key(row);
      assert rows[..i + 1][..i] == rows[..i];
      assert rows[..i + 1][i] == row;
      var group := (if k in groups then groups[k] else []) + [row];
      assert group == Having(rows[..i + 1], key, k);
      groups := groups[k := group];
      if k !in order {
        order := order + [k];
      }
    }
    assert rows[..|rows|] == rows;
  }

  // ---------------------------------------------------------------- stable sort

  /** A comparator that a sort may be given: asymmetric, and with transitive incomparability. */
  ghost predicate StrictWeakOrder<T(!new)>(before: (T, T) -> bool) {
    && (forall a, b, c :: !before(a, b) && !before(b, c) ==> !before(a, c))
    && (forall a, b :: before(a, b) ==> !before(b, a))
  }

  ghost predicate StrictTotalOrder<T(!new)>(before: (T, T) -> bool) {
    && (forall a, b :: before(a, b) ==> !before(b, a))
    && (forall a, b, c :: before(a, b) && before(b, c) ==> before(a, c))
    && (forall a, b :: a != b ==> before(a, b) || before(b, a))
  }

  ghost predicate SortedBy<T(!new)>(s: seq<T>, before: (T, T) -> bool) {
    forall i, j :: 0 <= i < j < |s| ==> !before(s[j], s[i])
  }

  /** Where a new last element settles: before the first element it precedes. */
  function Insert<T(!new)>(s: seq<T>, x: T, before: (T, T) -> bool): (r: seq<T>)
    ensures |r| == |s| + 1
  {
    if s == [] then [x]
    else if before(x, s[|s| - 1]) then Insert(s[..|s| - 1], x, before) + [s[|s| - 1]]
    else s + [x]
  }

  function Sort<T(!new)>(s: seq<T>, before: (T, T) -> bool): (r: seq<T>)
    ensures |r| == |s|
  {
    if s == [] then [] else Insert(Sort(s[..|s| - 1], before), s[|s| - 1], before)
  }

  lemma {:induction false} InsertPermutes<T(!new)>(s: seq<T>, x: T, before: (T, T) -> bool)
    ensures multiset(Insert(s, x, before)) == multiset(s) + multiset{x}
  {
    if s != [] && before(x, s[|s| - 1]) {
      InsertPermutes(s[..|s| - 1], x, before);
      assert s == s[..|s| - 1] + [s[|s| - 1]];
    }
  }

  lemma {:induction false} SortPermutes<T(!new)>(s: seq<T>, before: (T, T) -> bool)
    ensures multiset(Sort(s, before)) == multiset(s)
    ensures forall x :: x in Sort(s, before) <==> x in s
  {
    if s != [] {
      SortPermutes(s[..|s| - 1], before);
      InsertPermutes(Sort(s[..|s| - 1], before), s[|s| - 1], before);
      assert s == s[..|s| - 1] + [s[|s| - 1]];
    }
    assert forall x :: x in Sort(s, before) <==> x in multiset(Sort(s, before));
    assert forall x :: x in s <==> x in multiset(s);
  }

  lemma {:induction false} InsertSorted<T(!new)>(s: seq<T>, x: T, before: (T, T) -> bool)
    requires StrictWeakOrder(before) && SortedBy(s, before)
    ensures SortedBy(Insert(s, x, before), before)
  {
    if s != [] {
      var n := |s| - 1;
      if before(x, s[n]) {
        var init := s[..n];
        InsertSorted(init, x, before);
        InsertPermutes(init, x, before);
        var r := Insert(init, x, before);
        forall i | 0 <= i < |r| ensures !before(s[n], r[i]) {
          assert r[i] in multiset(r);
          assert r[i] == x || r[i] in init;
        }
      } else {
        forall i | 0 <= i < |s| ensures !before(x, s[i]) {
          assert !before(x, s[n]) && (i < n ==> !before(s[n], s[i]));
        }
      }
    }
  }

  lemma {:induction false} SortSorts<T(!new)>(s: seq<T>, before: (T, T) -> bool)
    requires StrictWeakOrder(before)
    ensures SortedBy(Sort(s, before), before)
  {
    if s != [] {
      SortSorts(s[..|s| - 1], before);
      InsertSorted(Sort(s[..|s| - 1], before), s[|s| - 1], before);
    }
  }

  ghost predicate NoTies<T(!new)>(s: seq<T>, before: (T, T) -> bool) {
    forall i, j :: 0 <= i < |s| && 0 <= j < |s| && s[i] != s[j] ==> before(s[i], s[j]) || before(s[j], s[i])
  }

  lemma {:induction false} SortedSameLast<T(!new)>(s: seq<T>, t: seq<T>, before: (T, T) -> bool)
    requires SortedBy(s, before) && SortedBy(t, before) && |s| == |t| > 0
    requires s[|s| - 1] in t && t[|t| - 1] in s
    requires NoTies(s, before)
    ensures s[|s| - 1] == t[|t| - 1]
  {
    var n := |s| - 1;
    var i :| 0 <= i < |s| && s[i] == t[n];
    var j :| 0 <= j < |t| && t[j] == s[n];
    assert i == n || !before(s[n], s[i]);
    assert j == n || !before(t[n], t[j]);
  }

  lemma {:induction false} WithoutLast<T(!new)>(s: seq<T>)
    requires s != []
    ensures multiset(s[..|s| - 1]) == multiset(s) - multiset{s[|s| - 1]}
  {
    assert s == s[..|s| - 1] + [s[|s| - 1]];
  }

  lemma {:induction false} PrefixStays<T(!new)>(s: seq<T>, n: nat, before: (T, T) -> bool)
    requires n <= |s| && SortedBy(s, before)
    ensures SortedBy(s[..n], before)
    ensures NoTies(s, before) ==> NoTies(s[..n], before)
  {
  }

  lemma {:induction false} SameLength<T(!new)>(s: seq<T>, t: seq<T>)
    requires multiset(s) == multiset(t)
    ensures |s| == |t|
  {
    assert |s| == |multiset(s)| && |t| == |multiset(t)|;
  }

  lemma {:induction false} LastsAgree<T(!new)>(s: seq<T>, t: seq<T>, before: (T, T) -> bool)
    requires SortedBy(s, before) && SortedBy(t, before) && |s| == |t| > 0
    requires multiset(s) == multiset(t) && NoTies(s, before)
    ensures s[|s| - 1] == t[|t| - 1]
    ensures multiset(s[..|s| - 1]) == multiset(t[..|t| - 1])
  {
    var n := |s| - 1;
    assert s[n] in multiset(t) && t[n] in multiset(s);
    SortedSameLast(s, t, before);
    WithoutLast(s);
    WithoutLast(t);
  }

  lemma {:induction false} SameByParts<T(!new)>(s: seq<T>, t: seq<T>, n: nat)
    requires |s| == |t| == n + 1 && s[..n] == t[..n] && s[n] == t[n]
    ensures s == t
  {
    assert s == s[..n] + [s[n]] && t == t[..n] + [t[n]];
  }

  /** Two sorted lists of the same elements are one list when no two distinct elements tie. */
  lemma {:induction false} SortedUnique<T(!new)>(s: seq<T>, t: seq<T>, before: (T, T) -> bool)
    requires SortedBy(s, before) && SortedBy(t, before)
    requires multiset(s) == multiset(t)
    requires NoTies(s, before)
    ensures s == t
    decreases |s|
  {
    SameLength(s, t);
    if s != [] {
      var n := |s| - 1;
      LastsAgree(s, t, before);
      PrefixStays(s, n, before);
      PrefixStays(t, n, before);
      SortedUnique(s[..n], t[..n], before);
      SameByParts(s, t, n);
    }
  }

  lemma {:induction false} SortOfPermutation<T(!new)>(s: seq<T>, t: seq<T>, before: (T, T) -> bool)
    requires StrictWeakOrder(before)
    requires multiset(s) == multiset(t)
    requires NoTies(s, before)
    ensures Sort(s, before) == Sort(t, before)
  {
    SortPermutes(s, before);
    SortPermutes(t, before);
    SortSorts(s, before);
    SortSorts(t, before);
    forall i, j | 0 <= i < |s| && 0 <= j < |s| && Sort(s, before)[i] != Sort(s, before)[j]
      ensures before(Sort(s, before)[i], Sort(s, before)[j]) || before(Sort(s, before)[j], Sort(s, before)[i])
    {
      var x, y := Sort(s, before)[i], Sort(s, before)[j];
      assert x in Sort(s, before) && y in Sort(s, before);
      var a :| 0 <= a < |s| && s[a] == x;
      var b :| 0 <= b < |s| && s[b] == y;
    }
    SortedUnique(Sort(s, before), Sort(t, before), before);
  }

  // ---------------------------------------------------------------- distinct lists

  lemma {:induction false} DistinctOnce<T(!new)>(s: seq<T>, x: T)
    requires Distinct(s)
    ensures multiset(s)[x] == if x in s then 1 else 0
  {
    if s != [] {
      var n := |s| - 1;
      DistinctOnce(s[..n], x);
      assert s == s[..n] + [s[n]];
    }
  }

  /** Lists without repetition are permutations of each other when they hold the same elements. */
  lemma {:induction false} DistinctSameElements<T(!new)>(s: seq<T>, t: seq<T>)
    requires Distinct(s) && Distinct(t)
    requires forall x :: x in s <==> x in t
    ensures multiset(s) == multiset(t)
  {
    forall x: T ensures multiset(s)[x] == multiset(t)[x] {
      DistinctOnce(s, x);
      DistinctOnce(t, x);
    }
  }

  lemma {:induction false} PermutationKeepsDistinct<T(!new)>(s: seq<T>, t: seq<T>)
    requires Distinct(s) && multiset(s) == multiset(t)
    ensures Distinct(t)
  {
    forall i, j | 0 <= i < j < |t| ensures t[i] != t[j] {
      if t[i] == t[j] {
        assert t == t[..i] + [t[i]] + t[i + 1..j] + [t[j]] + t[j + 1..];
        assert multiset(t)[t[i]] >= 2;
        DistinctOnce(s, t[i]);
      }
    }
  }

  /** Applying a function to every element, in place. */
  function Mapped<T(!new), R(!new)>(s: seq<T>, f: T -> R): (r: seq<R>)
    ensures |r| == |s|
    ensures forall i :: 0 <= i < |s| ==> r[i] == f(s[i])
  {
    seq(|s|, i requires 0 <= i < |s| => f(s[i]))
  }

  lemma {:induction false} MappedSnoc<T(!new), R(!new)>(s: seq<T>, i: nat, f: T -> R)
    requires i < |s|
    ensures Mapped(s[..i + 1], f) == Mapped(s[..i], f) + [f(s[i])]
  {
  }

  lemma {:induction false} MappedWithout<T(!new), R(!new)>(t: seq<T>, i: nat, f: T -> R)
    requires i < |t|
    ensures multiset(Mapped(t, f)) == multiset(Mapped(t[..i] + t[i + 1..], f)) + multiset{f(t[i])}
  {
    var m := Mapped(t, f);
    assert m == m[..i] + [m[i]] + m[i + 1..];
    assert Mapped(t[..i] + t[i + 1..], f) == m[..i] + m[i + 1..];
  }

  lemma {:induction false} MappedPermuted<T(!new), R(!new)>(s: seq<T>, t: seq<T>, f: T -> R)
    requires multiset(s) == multiset(t)
    ensures multiset(Mapped(s, f)) == multiset(Mapped(t, f))
    decreases |s|
  {
    assert |s| == |multiset(s)| == |multiset(t)| == |t|;
    if s == [] {
      assert Mapped(s, f) == Mapped(t, f);
    } else {
      var n := |s| - 1;
      assert s[n] in multiset(t);
      var i :| 0 <= i < |t| && t[i] == s[n];
      assert t == t[..i] + [t[i]] + t[i + 1..];
      assert s == s[..n] + [s[n]];
      assert s[..n] + s[n + 1..] == s[..n];
      MappedWithout(s, n, f);
      MappedWithout(t, i, f);
      assert multiset(t[..i] + t[i + 1..]) == multiset(t) - multiset{t[i]};
      MappedPermuted(s[..n], t[..i] + t[i + 1..], f);
    }
  }
}
